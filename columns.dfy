/**
  COLUMN_MAP (scripts/download_sina_fundflow_test.py:20-30): the API fields of
  interest and their canonical column names, in declaration order.
*/
module Columns {
  import opened Wrappers

  /** An ordered table of (source field, canonical column) pairs. */
  type ColumnTable = seq<(string, string)>

  const ColumnMap: ColumnTable := [
    ("opendate", "date"),
    ("trade", "close"),
    ("changeratio", "pct_change"),
    ("turnover", "turnover_rate"),
    ("netamount", "net_flow_amount"),
    ("r0_net", "main_net_flow"),
    ("r1_net", "super_large_net_flow"),
    ("r2_net", "large_net_flow"),
    ("r3_net", "medium_small_net_flow")
  ]

  /** The source field parsed as a date, and its canonical name. */
  const DateSource: string := "opendate"
  const DateColumn: string := "date"

  /** The constant column added after coercion. */
  const CodeColumn: string := "code"

  /** The source fields of a table, in order (the dict's keys). */
  function Sources(t: ColumnTable): (r: seq<string>)
    ensures |r| == |t|
    ensures forall i :: 0 <= i < |t| ==> r[i] == t[i].0
  {
    if t == [] then [] else [t[0].0] + Sources(t[1..])
  }

  /** The canonical names of a table, in order (the dict's values). */
  function Targets(t: ColumnTable): (r: seq<string>)
    ensures |r| == |t|
    ensures forall i :: 0 <= i < |t| ==> r[i] == t[i].1
  {
    if t == [] then [] else [t[0].1] + Targets(t[1..])
  }

  /** A table that renames one-to-one: no two entries share a source field or a canonical name. */
  predicate OneToOne(t: ColumnTable)
  {
    forall i, j :: 0 <= i < j < |t| ==> t[i].0 != t[j].0 && t[i].1 != t[j].1
  }

  /**
    A table the cleaning step can use: it renames one-to-one, never to the code
    column, and exactly the date field to the date column.
  */
  predicate WellFormed(t: ColumnTable)
  {
    && OneToOne(t)
    && forall e :: e in t ==> e.1 != CodeColumn && (e.0 == DateSource <==> e.1 == DateColumn)
  }

  /** The canonical name of source field `k`, if the table has one (dict lookup). */
  function Lookup(t: ColumnTable, k: string): (r: Option<string>)
    ensures r.Some? <==> k in Sources(t)
    ensures r.Some? ==> (k, r.value) in t
  {
    if t == [] then None else if t[0].0 == k then Some(t[0].1) else Lookup(t[1..], k)
  }

  /** In a one-to-one table, the lookup of an entry's field finds that entry. */
  lemma {:induction false} LookupFindsEntry(t: ColumnTable, e: (string, string))
    requires OneToOne(t)
    requires e in t
    ensures Lookup(t, e.0) == Some(e.1)
  {
    if t[0] != e {
      var i :| 1 <= i < |t| && t[i] == e;
      assert t[1..][i - 1] == e;
      assert OneToOne(t[1..]) by {
        forall i, j | 0 <= i < j < |t[1..]|
          ensures t[1..][i].0 != t[1..][j].0 && t[1..][i].1 != t[1..][j].1
        {
          assert t[1..][i] == t[i + 1] && t[1..][j] == t[j + 1];
        }
      }
      LookupFindsEntry(t[1..], e);
    }
  }

  /** COLUMN_MAP renames one-to-one. */
  lemma ColumnMapOneToOne()
    ensures OneToOne(ColumnMap)
  {
    var m := ColumnMap;
    forall i, j | 0 <= i < j < |m|
      ensures m[i].0 != m[j].0
    {
      assert |m[i].0| != |m[j].0| || m[i].0[1] != m[j].0[1];
    }
    forall i, j | 0 <= i < j < |m|
      ensures m[i].1 != m[j].1
    {
      assert |m[i].1| != |m[j].1| || m[i].1[0] != m[j].1[0];
    }
  }

  /** COLUMN_MAP renames one-to-one, never to `code`, and only `opendate` to `date`. */
  lemma ColumnMapShape()
    ensures WellFormed(ColumnMap)
    ensures (DateSource, DateColumn) in ColumnMap
  {
    ColumnMapOneToOne();
    var m := ColumnMap;
    forall i | 0 <= i < |m|
      ensures m[i].1 != CodeColumn
    {
      assert |m[i].1| != |CodeColumn| || m[i].1[0] != CodeColumn[0];
    }
    forall i | 0 <= i < |m|
      ensures m[i].0 == DateSource <==> m[i].1 == DateColumn
    {
      assert i == 0 || (m[i].0 != DateSource && m[i].1 != DateColumn);
    }
    assert m[0] == (DateSource, DateColumn);
  }

  /** `opendate` is a key of COLUMN_MAP. */
  lemma ColumnMapHasDate()
    ensures DateSource in Sources(ColumnMap)
  {
    assert Sources(ColumnMap)[0] == DateSource;
  }
}
