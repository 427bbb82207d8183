/** The optional-value type used for partial parsers and lookups. */
module Wrappers {

  /** Some value, or none (a lookup that missed, a parse that failed). */
  datatype Option<+T> = None | Some(value: T)
}
