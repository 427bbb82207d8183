/**
  `sort_values('date')` (scripts/download_sina_fundflow_test.py:109): ascending by
  date, rows with a null date last. The sort in the source is not stable, so only
  sortedness and permutation are promised; insertion sort is the order chosen here.
*/
module DateSort {
  import opened Wrappers
  import opened Cells
  import Columns

  /** The sort key of a row: its date, or none when the date is null or absent. */
  function DateKey(row: Row): Option<int>
  {
    if Columns.DateColumn in row && row[Columns.DateColumn].Timestamp?
    then Some(row[Columns.DateColumn].instant)
    else None
  }

  /** Key order: dates ascending, then every null date. */
  predicate KeyLe(a: Option<int>, b: Option<int>)
  {
    match a
    case Some(x) => b.None? || x <= b.value
    case None => b.None?
  }

  /** Every row's key is at most every later row's key. */
  predicate SortedByDate(rows: seq<Row>)
  {
    forall i, j :: 0 <= i < j < |rows| ==> KeyLe(DateKey(rows[i]), DateKey(rows[j]))
  }

  /** A row whose key is at most every key of sorted `rows` may stand before them. */
  lemma SortedCons(first: Row, rows: seq<Row>)
    requires SortedByDate(rows)
    requires forall i :: 0 <= i < |rows| ==> KeyLe(DateKey(first), DateKey(rows[i]))
    ensures SortedByDate([first] + rows)
  {
    var r := [first] + rows;
    forall i, j | 0 <= i < j < |r|
      ensures KeyLe(DateKey(r[i]), DateKey(r[j]))
    {
      if i > 0 {
        assert r[i] == rows[i - 1] && r[j] == rows[j - 1];
      } else {
        assert r[j] == rows[j - 1];
      }
    }
  }

  /** Insert `row` into sorted `rows`. */
  function Insert(row: Row, rows: seq<Row>): (r: seq<Row>)
    requires SortedByDate(rows)
    ensures SortedByDate(r)
    ensures multiset(r) == multiset(rows) + multiset{row}
    ensures forall i :: 0 <= i < |r| ==> r[i] == row || r[i] in rows
  {
    if rows == [] then [row]
    else if KeyLe(DateKey(row), DateKey(rows[0])) then
      SortedCons(row, rows);
      [row] + rows
    else
      var tail := Insert(row, rows[1..]);
      assert rows == [rows[0]] + rows[1..];
      assert forall i :: 0 <= i < |tail| ==> KeyLe(DateKey(rows[0]), DateKey(tail[i])) by {
        forall i | 0 <= i < |tail|
          ensures KeyLe(DateKey(rows[0]), DateKey(tail[i]))
        {
          if tail[i] != row {
            var j :| 0 <= j < |rows[1..]| && rows[1..][j] == tail[i];
            assert rows[j + 1] == tail[i];
          }
        }
      }
      SortedCons(rows[0], tail);
      [rows[0]] + tail
  }

  /** `rows` sorted by date with null dates last: a sorted permutation of the input. */
  function SortByDate(rows: seq<Row>): (r: seq<Row>)
    ensures SortedByDate(r)
    ensures multiset(r) == multiset(rows)
  {
    if rows == [] then []
    else
      assert rows == [rows[0]] + rows[1..];
      Insert(rows[0], SortByDate(rows[1..]))
  }

  /** A single row is already sorted. */
  lemma SortSingle(row: Row)
    ensures SortByDate([row]) == [row]
  {
    assert [row][1..] == [];
  }

  /** Sorting keeps the number of rows and invents none. */
  lemma SortByDateMembers(rows: seq<Row>)
    ensures |SortByDate(rows)| == |rows|
    ensures forall row :: row in SortByDate(rows) ==> row in rows
  {
    var r := SortByDate(rows);
    assert |multiset(r)| == |multiset(rows)|;
    forall row | row in r
      ensures row in rows
    {
      assert row in multiset(r);
    }
  }

  /** In a sorted table the null dates come last and the other dates ascend. */
  lemma NullDatesLast(rows: seq<Row>)
    requires SortedByDate(rows)
    ensures forall i, j :: 0 <= i < j < |rows| && DateKey(rows[i]).None? ==> DateKey(rows[j]).None?
    ensures forall i :: 0 <= i < |rows| - 1 && DateKey(rows[i]).Some? && DateKey(rows[i + 1]).Some? ==>
      DateKey(rows[i]).value <= DateKey(rows[i + 1]).value
  {
  }
}
