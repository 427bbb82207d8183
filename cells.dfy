/** The values of the cleaned table. */
module Cells {

  /** An exact decimal number, `coefficient * 10^exponent` (no floating point). */
  datatype Decimal = Decimal(coefficient: int, exponent: int)

  /** One field of a cleaned row: null (NaN/NaT), a parsed date, a parsed number or text. */
  datatype Cell =
    | Null
    | Timestamp(instant: int)  // a parsed date, as an ordinal of its instant
    | Number(value: Decimal)
    | Text(text: string)

  /** One cleaned row: column name to field. */
  type Row = map<string, Cell>
}
