/**
  The cleaning half of `clean_and_save` (scripts/download_sina_fundflow_test.py:89-109):
  pick the COLUMN_MAP fields present in the raw table, project and rename, coerce
  the date and the numbers (a failure is a null field, the row stays), add the
  constant `code` column and sort by date.

  `pd.DataFrame(records)` has one column per field that occurs in any record and
  fills the fields a record lacks with NaN; a field is therefore modelled as
  `Wrappers.Option<string>`, `None` for NaN. The parsers behind `pd.to_datetime`
  and `pd.to_numeric` are parameters.
*/
module Normalizer {
  import opened Wrappers
  import opened Cells
  import opened Columns
  import opened DateSort
  import Paginator

  type RawRecord = Paginator.RawRecord

  /** The element parsers of `pd.to_datetime` and `pd.to_numeric`; `None` where they coerce to null. */
  datatype Parsers = Parsers(date: string -> Option<int>, number: string -> Option<Decimal>)

  /** What `clean_and_save` does with the raw table. */
  datatype Outcome =
    | NothingToSave      // `df.empty` (line 91): no rows or no columns, return silently
    | MissingFields      // no COLUMN_MAP field occurs (lines 95-97): return with a message
    | DateColumnMissing  // fields occur but `opendate` does not: `df_clean['date']` raises KeyError (line 103)
    | Cleaned(columns: seq<string>, rows: seq<Row>)

  /** Some record of the raw table has field `k`, so the data frame has column `k`. */
  predicate HasField(records: seq<RawRecord>, k: string)
  {
    exists i :: 0 <= i < |records| && k in records[i]
  }

  /** `df.empty`: the frame has no rows, or no columns because no record has a field. */
  predicate FrameIsEmpty(records: seq<RawRecord>)
  {
    forall i :: 0 <= i < |records| ==> |records[i]| == 0
  }

  /** `a` is `b` with some elements left out, the rest in their order. */
  predicate IsSubsequence<T(==)>(a: seq<T>, b: seq<T>)
    decreases |b|
  {
    if a == [] then true
    else if b == [] then false
    else (a[0] == b[0] && IsSubsequence(a[1..], b[1..])) || IsSubsequence(a, b[1..])
  }

  /** An entry that differs in both names from every entry of a one-to-one table may be put in front. */
  lemma ConsOneToOne(e: (string, string), t: ColumnTable)
    requires OneToOne(t)
    requires forall x :: x in t ==> x.0 != e.0 && x.1 != e.1
    ensures OneToOne([e] + t)
  {
    var r := [e] + t;
    forall i, j | 0 <= i < j < |r|
      ensures r[i].0 != r[j].0 && r[i].1 != r[j].1
    {
      assert r[j] == t[j - 1];
      if i > 0 {
        assert r[i] == t[i - 1];
      }
    }
  }

  /** The tail of a one-to-one table is one-to-one, and its entries differ from the head in both names. */
  lemma TailOneToOne(t: ColumnTable)
    requires OneToOne(t) && t != []
    ensures OneToOne(t[1..])
    ensures forall x :: x in t[1..] ==> x.0 != t[0].0 && x.1 != t[0].1
  {
    var u := t[1..];
    forall i, j | 0 <= i < j < |u|
      ensures u[i].0 != u[j].0 && u[i].1 != u[j].1
    {
      assert u[i] == t[i + 1] && u[j] == t[j + 1];
    }
    forall x | x in u
      ensures x.0 != t[0].0 && x.1 != t[0].1
    {
      var i :| 0 <= i < |u| && u[i] == x;
      assert t[i + 1] == x;
    }
  }

  /**
    `available_cols` (line 94) for the table `t`: its entries, in table order, whose
    key is a column of the frame, each with the name `rename` gives it (line 100).
  */
  function AvailableColumns(t: ColumnTable, records: seq<RawRecord>): ColumnTable
  {
    if t == [] then []
    else if HasField(records, t[0].0) then [t[0]] + AvailableColumns(t[1..], records)
    else AvailableColumns(t[1..], records)
  }

  /** An entry is kept exactly when it is in the table and its field is a column of the frame. */
  lemma {:induction false} AvailableMembers(t: ColumnTable, records: seq<RawRecord>)
    ensures forall e :: e in AvailableColumns(t, records) <==> e in t && HasField(records, e.0)
  {
    if t != [] {
      AvailableMembers(t[1..], records);
      assert t == [t[0]] + t[1..];
    }
  }

  /** The kept entries stay in table order. */
  lemma {:induction false} AvailableInOrder(t: ColumnTable, records: seq<RawRecord>)
    ensures IsSubsequence(AvailableColumns(t, records), t)
  {
    if t != [] {
      AvailableInOrder(t[1..], records);
      var rest := AvailableColumns(t[1..], records);
      if !HasField(records, t[0].0) && rest != [] {
        assert IsSubsequence(rest, t[1..]);
      }
    }
  }

  /** The kept part of a one-to-one table is one-to-one. */
  lemma {:induction false} AvailableOneToOne(t: ColumnTable, records: seq<RawRecord>)
    requires OneToOne(t)
    ensures OneToOne(AvailableColumns(t, records))
  {
    if t != [] {
      TailOneToOne(t);
      AvailableOneToOne(t[1..], records);
      AvailableMembers(t[1..], records);
      if HasField(records, t[0].0) {
        ConsOneToOne(t[0], AvailableColumns(t[1..], records));
      }
    }
  }

  /**
    The source fields kept are exactly the table's fields that are columns of the
    frame, and renaming by the kept entries is the dict lookup in the table.
  */
  lemma AvailableSources(t: ColumnTable, records: seq<RawRecord>)
    requires OneToOne(t)
    ensures forall k :: k in Sources(AvailableColumns(t, records)) <==> k in Sources(t) && HasField(records, k)
    ensures forall e :: e in AvailableColumns(t, records) ==> Lookup(t, e.0) == Some(e.1)
  {
    AvailableLookup(t, records);
    AvailableSourcesFound(t, records);
    AvailableSourcesKept(t, records);
  }

  /** Every kept entry is the table's entry for its field. */
  lemma AvailableLookup(t: ColumnTable, records: seq<RawRecord>)
    requires OneToOne(t)
    ensures forall e :: e in AvailableColumns(t, records) ==> Lookup(t, e.0) == Some(e.1)
  {
    AvailableMembers(t, records);
    forall e | e in AvailableColumns(t, records)
      ensures Lookup(t, e.0) == Some(e.1)
    {
      LookupFindsEntry(t, e);
    }
  }

  /** Every field of the table that some record has is kept. */
  lemma AvailableSourcesFound(t: ColumnTable, records: seq<RawRecord>)
    ensures forall k :: k in Sources(t) && HasField(records, k) ==> k in Sources(AvailableColumns(t, records))
  {
    var r := AvailableColumns(t, records);
    AvailableMembers(t, records);
    forall k | k in Sources(t) && HasField(records, k)
      ensures k in Sources(r)
    {
      var i :| 0 <= i < |t| && Sources(t)[i] == k;
      assert t[i] in r;
      var j :| 0 <= j < |r| && r[j] == t[i];
      assert Sources(r)[j] == k;
    }
  }

  /** Every kept field is a field of the table that some record has. */
  lemma AvailableSourcesKept(t: ColumnTable, records: seq<RawRecord>)
    ensures forall k :: k in Sources(AvailableColumns(t, records)) ==> k in Sources(t) && HasField(records, k)
  {
    var r := AvailableColumns(t, records);
    AvailableMembers(t, records);
    forall k | k in Sources(r)
      ensures k in Sources(t) && HasField(records, k)
    {
      var j :| 0 <= j < |r| && Sources(r)[j] == k;
      assert r[j] in t;
      var i :| 0 <= i < |t| && t[i] == r[j];
      assert Sources(t)[i] == k;
    }
  }

  /** The kept part of a well-formed table is well-formed. */
  lemma AvailableWellFormed(t: ColumnTable, records: seq<RawRecord>)
    requires WellFormed(t)
    ensures WellFormed(AvailableColumns(t, records))
  {
    AvailableOneToOne(t, records);
    AvailableMembers(t, records);
  }

  /**
    After renaming by the kept part there is a `date` column exactly when the table
    has the date field and some record has it.
  */
  lemma AvailableDate(t: ColumnTable, records: seq<RawRecord>)
    requires WellFormed(t)
    ensures DateColumn in Targets(AvailableColumns(t, records)) <==> DateSource in Sources(t) && HasField(records, DateSource)
  {
    AvailableDateKept(t, records);
    AvailableDateFound(t, records);
  }

  /** A kept date column comes from the date field of the table, which some record has. */
  lemma AvailableDateKept(t: ColumnTable, records: seq<RawRecord>)
    requires WellFormed(t)
    ensures DateColumn in Targets(AvailableColumns(t, records)) ==> DateSource in Sources(t) && HasField(records, DateSource)
  {
    var r := AvailableColumns(t, records);
    if DateColumn in Targets(r) {
      AvailableMembers(t, records);
      var j :| 0 <= j < |r| && Targets(r)[j] == DateColumn;
      assert r[j] in t && HasField(records, r[j].0);
      var i :| 0 <= i < |t| && t[i] == r[j];
      assert Sources(t)[i] == DateSource;
    }
  }

  /** The date field of the table, when some record has it, is kept as the date column. */
  lemma AvailableDateFound(t: ColumnTable, records: seq<RawRecord>)
    requires WellFormed(t)
    ensures DateSource in Sources(t) && HasField(records, DateSource) ==> DateColumn in Targets(AvailableColumns(t, records))
  {
    var r := AvailableColumns(t, records);
    if DateSource in Sources(t) && HasField(records, DateSource) {
      AvailableSources(t, records);
      AvailableMembers(t, records);
      var j :| 0 <= j < |r| && Sources(r)[j] == DateSource;
      assert r[j] in t;
      assert Targets(r)[j] == DateColumn;
    }
  }

  /** Nothing is kept exactly when no field of the table is a column of the frame. */
  lemma AvailableEmpty(t: ColumnTable, records: seq<RawRecord>)
    requires OneToOne(t)
    ensures AvailableColumns(t, records) == [] <==> forall k :: k in Sources(t) ==> !HasField(records, k)
  {
    var r := AvailableColumns(t, records);
    AvailableSources(t, records);
    if r != [] {
      assert Sources(r)[0] in Sources(r);
    }
  }

  /** The field `k` of one record after `pd.DataFrame`: `None` (NaN) where the record lacks it. */
  function RawField(rec: RawRecord, k: string): Option<string>
  {
    if k in rec then Some(rec[k]) else None
  }

  /** `pd.to_datetime(..., errors='coerce')` on one field. */
  function CoerceDate(v: Option<string>, p: Parsers): Cell
  {
    if v.None? then Null
    else match p.date(v.value)
      case None => Null
      case Some(t) => Timestamp(t)
  }

  /** `pd.to_numeric(..., errors='coerce')` on one field. */
  function CoerceNumber(v: Option<string>, p: Parsers): Cell
  {
    if v.None? then Null
    else match p.number(v.value)
      case None => Null
      case Some(d) => Number(d)
  }

  /** Lines 103-105: the `date` column goes through the date parser, every other one through the number parser. */
  function Coerce(column: string, v: Option<string>, p: Parsers): Cell
  {
    if column == DateColumn then CoerceDate(v, p) else CoerceNumber(v, p)
  }

  /** Lines 99-105 for one record: the fields of `avail` under their canonical names, coerced. */
  function CoercedFields(rec: RawRecord, avail: ColumnTable, p: Parsers): (m: map<string, Cell>)
    requires OneToOne(avail)
    ensures m.Keys == set e | e in avail :: e.1
    ensures forall e :: e in avail ==> m[e.1] == Coerce(e.1, RawField(rec, e.0), p)
  {
    if avail == [] then map[]
    else
      TailOneToOne(avail);
      CoercedFields(rec, avail[1..], p)[avail[0].1 := Coerce(avail[0].1, RawField(rec, avail[0].0), p)]
  }

  /**
    One cleaned row (lines 99-108): the available fields under their canonical names,
    each parsed or null, plus the code column holding the stock code as text.
  */
  function CleanRow(rec: RawRecord, avail: ColumnTable, code: string, p: Parsers): (row: Row)
    requires WellFormed(avail)
    ensures row.Keys == (set e | e in avail :: e.1) + {CodeColumn}
    ensures row[CodeColumn] == Text(code)
    ensures forall e :: e in avail && e.0 == DateSource ==>
      row[e.1] == if DateSource in rec && p.date(rec[DateSource]).Some?
                  then Timestamp(p.date(rec[DateSource]).value) else Null
    ensures forall e :: e in avail && e.0 != DateSource ==>
      row[e.1] == if e.0 in rec && p.number(rec[e.0]).Some?
                  then Number(p.number(rec[e.0]).value) else Null
  {
    CoercedFields(rec, avail, p)[CodeColumn := Text(code)]
  }

  /** The cleaned rows, one per raw record, in the raw order. */
  function CleanRows(records: seq<RawRecord>, avail: ColumnTable, code: string, p: Parsers): (rows: seq<Row>)
    requires WellFormed(avail)
    ensures |rows| == |records|
    ensures forall i :: 0 <= i < |records| ==> rows[i] == CleanRow(records[i], avail, code, p)
  {
    seq(|records|, i requires 0 <= i < |records| => CleanRow(records[i], avail, code, p))
  }

  /** `clean_and_save` up to the sort (lines 91-109), with the column table `t` in place of COLUMN_MAP. */
  function NormalizeWith(t: ColumnTable, records: seq<RawRecord>, code: string, p: Parsers): (o: Outcome)
    requires WellFormed(t)
    ensures o.NothingToSave? <==> FrameIsEmpty(records)
    ensures o.MissingFields? <==>
      !FrameIsEmpty(records) && forall k :: k in Sources(t) ==> !HasField(records, k)
    ensures o.DateColumnMissing? <==>
      (exists k :: k in Sources(t) && HasField(records, k)) && !(DateSource in Sources(t) && HasField(records, DateSource))
    ensures o.Cleaned? <==> DateSource in Sources(t) && HasField(records, DateSource)
  {
    if FrameIsEmpty(records) then NothingToSave
    else
      var avail := AvailableColumns(t, records);
      AvailableDate(t, records);
      AvailableEmpty(t, records);
      AvailableWellFormed(t, records);
      if avail == [] then MissingFields
      else if DateColumn !in Targets(avail) then DateColumnMissing
      else Cleaned(Targets(avail) + [CodeColumn], SortByDate(CleanRows(records, avail, code, p)))
  }

  /** What the script runs: the cleaning step with COLUMN_MAP. */
  function Normalize(records: seq<RawRecord>, code: string, p: Parsers): (o: Outcome)
    ensures o.Cleaned? <==> HasField(records, DateSource)
  {
    ColumnMapShape();
    NormalizeWith(ColumnMap, records, code, p)
  }

  /** The canonical names of a table, as a set. */
  lemma TargetsAsSet(t: ColumnTable)
    ensures (set c | c in Targets(t)) == set e | e in t :: e.1
  {
    forall c | c in Targets(t)
      ensures exists e :: e in t && e.1 == c
    {
      var i :| 0 <= i < |t| && Targets(t)[i] == c;
      assert t[i] in t;
    }
    forall e | e in t
      ensures e.1 in Targets(t)
    {
      var i :| 0 <= i < |t| && t[i] == e;
      assert Targets(t)[i] == e.1;
    }
  }

  /** Every cleaned row has the columns `Targets(avail) + [code]`, and `code` holds the stock code. */
  lemma CleanRowsShape(records: seq<RawRecord>, avail: ColumnTable, code: string, p: Parsers)
    requires WellFormed(avail)
    ensures forall row :: row in CleanRows(records, avail, code, p) ==>
      row.Keys == (set c | c in Targets(avail) + [CodeColumn]) && row[CodeColumn] == Text(code)
  {
    TargetsAsSet(avail);
    var cleaned := CleanRows(records, avail, code, p);
    assert (set c | c in Targets(avail) + [CodeColumn]) == (set e | e in avail :: e.1) + {CodeColumn};
    forall row | row in cleaned
      ensures row.Keys == (set e | e in avail :: e.1) + {CodeColumn} && row[CodeColumn] == Text(code)
    {
      var i :| 0 <= i < |cleaned| && cleaned[i] == row;
    }
  }

  /**
    Every record yields exactly one row, and every row has exactly the output columns:
    the renamed available fields and `code`, which holds the stock code as text.
  */
  lemma NormalizeRowShape(t: ColumnTable, records: seq<RawRecord>, code: string, p: Parsers)
    requires WellFormed(t)
    requires DateSource in Sources(t) && HasField(records, DateSource)
    ensures var o := NormalizeWith(t, records, code, p);
      && |o.rows| == |records|
      && o.columns == Targets(AvailableColumns(t, records)) + [CodeColumn]
      && forall row :: row in o.rows ==> row.Keys == (set c | c in o.columns) && row[CodeColumn] == Text(code)
  {
    var avail := AvailableColumns(t, records);
    AvailableWellFormed(t, records);
    AvailableDate(t, records);
    AvailableEmpty(t, records);
    var cleaned := CleanRows(records, avail, code, p);
    assert NormalizeWith(t, records, code, p) == Cleaned(Targets(avail) + [CodeColumn], SortByDate(cleaned));
    SortByDateMembers(cleaned);
    CleanRowsShape(records, avail, code, p);
  }

  /**
    The rows are the cleaned records, none dropped or added, sorted by date with the
    null dates last.
  */
  lemma NormalizeSorted(t: ColumnTable, records: seq<RawRecord>, code: string, p: Parsers)
    requires WellFormed(t)
    requires DateSource in Sources(t) && HasField(records, DateSource)
    ensures var o := NormalizeWith(t, records, code, p);
      && WellFormed(AvailableColumns(t, records))
      && multiset(o.rows) == multiset(CleanRows(records, AvailableColumns(t, records), code, p))
      && SortedByDate(o.rows)
      && forall i, j :: 0 <= i < j < |o.rows| && DateKey(o.rows[i]).None? ==> DateKey(o.rows[j]).None?
  {
    AvailableWellFormed(t, records);
    NullDatesLast(NormalizeWith(t, records, code, p).rows);
  }

  /** A table with the date field cleans to the sorted rows of its available columns. */
  lemma NormalizeCleaned(t: ColumnTable, records: seq<RawRecord>, code: string, p: Parsers)
    requires WellFormed(t)
    requires DateSource in Sources(t) && HasField(records, DateSource)
    ensures WellFormed(AvailableColumns(t, records))
    ensures NormalizeWith(t, records, code, p)
      == Cleaned(Targets(AvailableColumns(t, records)) + [CodeColumn],
                 SortByDate(CleanRows(records, AvailableColumns(t, records), code, p)))
  {
    AvailableWellFormed(t, records);
    AvailableDate(t, records);
    AvailableEmpty(t, records);
  }

  /** One record gives one cleaned row. */
  lemma CleanRowsSingle(records: seq<RawRecord>, avail: ColumnTable, code: string, p: Parsers)
    requires WellFormed(avail)
    requires |records| == 1
    ensures CleanRows(records, avail, code, p) == [CleanRow(records[0], avail, code, p)]
  {
    var cleaned := CleanRows(records, avail, code, p);
    assert |cleaned| == 1 && cleaned[0] == CleanRow(records[0], avail, code, p);
  }

  /** A one-record table with the date field cleans to that record's row. */
  lemma NormalizeSingle(t: ColumnTable, records: seq<RawRecord>, code: string, p: Parsers)
    requires WellFormed(t)
    requires |records| == 1
    requires DateSource in Sources(t) && HasField(records, DateSource)
    ensures WellFormed(AvailableColumns(t, records))
    ensures NormalizeWith(t, records, code, p)
      == Cleaned(Targets(AvailableColumns(t, records)) + [CodeColumn],
                 [CleanRow(records[0], AvailableColumns(t, records), code, p)])
  {
    var avail := AvailableColumns(t, records);
    NormalizeCleaned(t, records, code, p);
    CleanRowsSingle(records, avail, code, p);
    var row := CleanRow(records[0], avail, code, p);
    SortSingle(row);
  }
}
