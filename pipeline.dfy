/**
  Properties of the harvest followed by the cleaning step, and the two worked
  examples of the cleaning step.
*/
module Pipeline {
  import opened Wrappers
  import opened Cells
  import opened Columns
  import opened Paginator
  import opened Normalizer

  /** An empty first page leaves nothing to clean and nothing to save. */
  lemma EmptyFirstPageSavesNothing(script: seq<PageOutcome>, code: string, p: Parsers)
    requires Respond(script, 1) == Page([])
    ensures Normalize(History(script, PageSize).records, code, p) == NothingToSave
  {
    EmptyFirstPage(script, PageSize);
  }

  /** The kept part of a table with one more entry in front. */
  lemma AvailableCons(t: ColumnTable, records: seq<RawRecord>)
    requires t != []
    ensures AvailableColumns(t, records) ==
      if HasField(records, t[0].0) then [t[0]] + AvailableColumns(t[1..], records) else AvailableColumns(t[1..], records)
  {
  }

  /** The fields a table has, among the COLUMN_MAP keys: opendate, trade and r0_net only. */
  ghost predicate HasThree(records: seq<RawRecord>)
  {
    forall k :: HasField(records, k) <==> k == "opendate" || k == "trade" || k == "r0_net"
  }

  /** The last four COLUMN_MAP entries: only r0_net is present. */
  lemma AvailableTail(records: seq<RawRecord>)
    requires HasThree(records)
    ensures AvailableColumns(ColumnMap[5..], records) == [("r0_net", "main_net_flow")]
  {
    var m := ColumnMap;
    assert !HasField(records, m[8].0) && !HasField(records, m[7].0) && !HasField(records, m[6].0);
    assert HasField(records, m[5].0);
    AvailableCons(m[8..], records);
    AvailableCons(m[7..], records);
    AvailableCons(m[6..], records);
    AvailableCons(m[5..], records);
  }

  /** Entries two to four are absent. */
  lemma AvailableMiddle(records: seq<RawRecord>)
    requires HasThree(records)
    ensures AvailableColumns(ColumnMap[2..], records) == AvailableColumns(ColumnMap[5..], records)
  {
    var m := ColumnMap;
    assert !HasField(records, m[4].0) && !HasField(records, m[3].0) && !HasField(records, m[2].0);
    AvailableCons(m[4..], records);
    AvailableCons(m[3..], records);
    AvailableCons(m[2..], records);
  }

  /** The COLUMN_MAP entries present in a table whose only fields are opendate, trade and r0_net. */
  lemma AvailableOfThree(records: seq<RawRecord>)
    requires HasThree(records)
    ensures AvailableColumns(ColumnMap, records) == [("opendate", "date"), ("trade", "close"), ("r0_net", "main_net_flow")]
  {
    var m := ColumnMap;
    AvailableTail(records);
    AvailableMiddle(records);
    assert HasField(records, m[1].0) && HasField(records, m[0].0);
    AvailableCons(m[1..], records);
    AvailableCons(m, records);
  }

  /** The fields opendate, trade and r0_net under their canonical names. */
  const Three: ColumnTable := [("opendate", "date"), ("trade", "close"), ("r0_net", "main_net_flow")]

  /** Those three columns form a well-formed table. */
  lemma ThreeWellFormed()
    ensures WellFormed(Three)
    ensures Targets(Three) == ["date", "close", "main_net_flow"]
  {
    assert Three[0].0 != Three[1].0 && Three[0].0 != Three[2].0 && Three[1].0 != Three[2].0;
    assert Three[0].1 != Three[1].1 && Three[0].1 != Three[2].1 && Three[1].1 != Three[2].1;
    assert "date" != CodeColumn && "close" != CodeColumn && "main_net_flow" != CodeColumn;
    assert "trade" != DateSource && "r0_net" != DateSource;
    assert "close" != DateColumn && "main_net_flow" != DateColumn;
  }

  /** The canonical names of a three-entry table. */
  lemma NamesOfThree(t: ColumnTable)
    requires |t| == 3
    ensures (set e | e in t :: e.1) == {t[0].1, t[1].1, t[2].1}
  {
    assert t == [t[0], t[1], t[2]];
  }

  /** A map is determined by its four keys and the values there. */
  lemma MapOfFour<V>(m: map<string, V>, a: string, b: string, c: string, d: string, x: V, y: V, z: V, w: V)
    requires m.Keys == {a, b, c} + {d}
    requires m[a] == x && m[b] == y && m[c] == z && m[d] == w
    ensures m == map[a := x, b := y, c := z, d := w]
  {
  }

  /** A record cleaned by those three columns. */
  lemma CleanRowOfThree(rec: RawRecord, code: string, p: Parsers, day: int, close: Decimal, main: Decimal)
    requires "opendate" in rec && p.date(rec["opendate"]) == Some(day)
    requires "trade" in rec && p.number(rec["trade"]) == Some(close)
    requires "r0_net" in rec && p.number(rec["r0_net"]) == Some(main)
    ensures WellFormed(Three)
    ensures CleanRow(rec, Three, code, p)
      == map["date" := Timestamp(day), "close" := Number(close), "main_net_flow" := Number(main), "code" := Text(code)]
  {
    ThreeWellFormed();
    NamesOfThree(Three);
    var row := CleanRow(rec, Three, code, p);
    assert Three[0] in Three && Three[1] in Three && Three[2] in Three;
    assert row["date"] == Timestamp(day);
    assert row["close"] == Number(close);
    assert row["main_net_flow"] == Number(main);
    MapOfFour(row, "date", "close", "main_net_flow", "code", Timestamp(day), Number(close), Number(main), Text(code));
  }

  /** A one-record table whose fields are opendate, trade and r0_net has exactly those columns. */
  lemma OneRecordFields(records: seq<RawRecord>)
    requires |records| == 1 && records[0].Keys == {"opendate", "trade", "r0_net"}
    ensures HasThree(records)
  {
    forall k
      ensures HasField(records, k) <==> k == "opendate" || k == "trade" || k == "r0_net"
    {
      assert HasField(records, k) <==> k in records[0];
    }
  }

  /** The kept columns of a one-record table whose fields are opendate, trade and r0_net. */
  lemma OneRecordColumns(records: seq<RawRecord>)
    requires |records| == 1 && records[0].Keys == {"opendate", "trade", "r0_net"}
    ensures HasField(records, DateSource)
    ensures AvailableColumns(ColumnMap, records) == Three
  {
    OneRecordFields(records);
    AvailableOfThree(records);
  }

  /** A one-record table whose fields are opendate, trade and r0_net cleans by those three columns. */
  lemma OneRecordOutcome(records: seq<RawRecord>, code: string, p: Parsers)
    requires |records| == 1 && records[0].Keys == {"opendate", "trade", "r0_net"}
    ensures WellFormed(Three)
    ensures Normalize(records, code, p)
      == Cleaned(Targets(Three) + [CodeColumn], [CleanRow(records[0], Three, code, p)])
  {
    OneRecordColumns(records);
    ColumnMapShape();
    ColumnMapHasDate();
    assert Normalize(records, code, p) == NormalizeWith(ColumnMap, records, code, p);
    NormalizeSingle(ColumnMap, records, code, p);
  }

  /** The header of a table cleaned by those three columns. */
  lemma ThreeHeader()
    ensures Targets(Three) + [CodeColumn] == ["date", "close", "main_net_flow", "code"]
  {
    ThreeWellFormed();
  }

  /**
    One record with a date, a close and a main net flow (and nothing else the
    column table knows) cleans to one row of those three and the code.
  */
  lemma OneRecordScenario(records: seq<RawRecord>, code: string, p: Parsers, day: int, close: Decimal, main: Decimal)
    requires |records| == 1 && records[0].Keys == {"opendate", "trade", "r0_net"}
    requires p.date(records[0]["opendate"]) == Some(day)
    requires p.number(records[0]["trade"]) == Some(close)
    requires p.number(records[0]["r0_net"]) == Some(main)
    ensures Normalize(records, code, p)
      == Cleaned(["date", "close", "main_net_flow", "code"],
                 [map["date" := Timestamp(day), "close" := Number(close),
                      "main_net_flow" := Number(main), "code" := Text(code)]])
  {
    OneRecordOutcome(records, code, p);
    ThreeHeader();
    CleanRowOfThree(records[0], code, p, day, close, main);
  }

  /** A record whose date does not parse, cleaned by those three columns. */
  lemma CleanRowOfThreeBadDate(rec: RawRecord, code: string, p: Parsers, close: Decimal, main: Decimal)
    requires "opendate" in rec && p.date(rec["opendate"]) == None
    requires "trade" in rec && p.number(rec["trade"]) == Some(close)
    requires "r0_net" in rec && p.number(rec["r0_net"]) == Some(main)
    ensures WellFormed(Three)
    ensures CleanRow(rec, Three, code, p)
      == map["date" := Null, "close" := Number(close), "main_net_flow" := Number(main), "code" := Text(code)]
  {
    ThreeWellFormed();
    NamesOfThree(Three);
    var row := CleanRow(rec, Three, code, p);
    assert Three[0] in Three && Three[1] in Three && Three[2] in Three;
    assert row["date"] == Null;
    assert row["close"] == Number(close);
    assert row["main_net_flow"] == Number(main);
    MapOfFour(row, "date", "close", "main_net_flow", "code", Null, Number(close), Number(main), Text(code));
  }

  /**
    A date that does not parse is kept as a null date rather than dropping the
    row, and the other fields are still parsed.
  */
  lemma BadDateScenario(records: seq<RawRecord>, code: string, p: Parsers, close: Decimal, main: Decimal)
    requires |records| == 1 && records[0].Keys == {"opendate", "trade", "r0_net"}
    requires p.date(records[0]["opendate"]) == None
    requires p.number(records[0]["trade"]) == Some(close)
    requires p.number(records[0]["r0_net"]) == Some(main)
    ensures Normalize(records, code, p)
      == Cleaned(["date", "close", "main_net_flow", "code"],
                 [map["date" := Null, "close" := Number(close),
                      "main_net_flow" := Number(main), "code" := Text(code)]])
  {
    OneRecordOutcome(records, code, p);
    ThreeHeader();
    CleanRowOfThreeBadDate(records[0], code, p, close, main);
  }
}
