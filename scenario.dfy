/** A worked example: three rows of one pollster over two periods, and a row whose
    value is not a number. */
module Scenario {
  import opened Wrappers
  import opened Seqs
  import opened Sorting
  import opened Rows
  import opened Indexer
  import opened Views

  /** A stand-in for `parseFloat` that reads unsigned decimal integers; it agrees with
      `parseFloat` on every string made of digits only, and on "abc" (NaN). */
  function ParseDigits(s: string): Option<nat> {
    if s == [] || !('0' <= s[|s| - 1] <= '9') then None
    else if |s| == 1 then Some(s[0] as nat - '0' as nat)
    else
      match ParseDigits(s[..|s| - 1])
      case None => None
      case Some(n) => Some(10 * n + (s[|s| - 1] as nat - '0' as nat))
  }

  function DemoParse(s: string): Option<real> {
    match ParseDigits(s)
    case None => None
    case Some(n) => Some(n as real)
  }

  function Sheet(): seq<RawRow> {
    [ RawRow(Some("DATUM"), Some("M1"), Some("A"), Some("10")),
      RawRow(Some("DATUM"), Some("M2"), Some("A"), Some("12")),
      RawRow(Some("DATUM"), Some("M1"), Some("B"), Some("8")) ]
  }

  function Malformed(): RawRow {
    RawRow(Some("DATUM"), Some("M3"), Some("A"), Some("abc"))
  }

  function Expected(): Dataset {
    Dataset(["DATUM"], map["DATUM" := Series("DATUM", ["M1", "M2"], ["A", "B"],
      map["A" := [Some(10.0), Some(12.0)], "B" := [Some(8.0)]])])
  }

  lemma TrimPlain(s: string)
    requires s != [] && !IsWhitespace(s[0]) && !IsWhitespace(s[|s| - 1])
    ensures Trim(s) == s
  {
  }

  lemma SheetAccepted()
    ensures Normalize(Sheet()[0], DemoParse) == Some(Row("DATUM", "M1", "A", 10.0))
    ensures Normalize(Sheet()[1], DemoParse) == Some(Row("DATUM", "M2", "A", 12.0))
    ensures Normalize(Sheet()[2], DemoParse) == Some(Row("DATUM", "M1", "B", 8.0))
  {
    TrimPlain("DATUM");
    TrimPlain("M1");
    TrimPlain("M2");
    TrimPlain("A");
    TrimPlain("B");
    assert DemoParse("10") == Some(10.0) by {
      assert "10"[..1] == "1";
    }
    assert DemoParse("12") == Some(12.0) by {
      assert "12"[..1] == "1";
    }
  }

  function AfterFirst(): Dataset {
    Dataset(["DATUM"], map["DATUM" := Series("DATUM", ["M1"], ["A"], map["A" := [Some(10.0)]])])
  }

  function AfterSecond(): Dataset {
    Dataset(["DATUM"], map["DATUM" := Series("DATUM", ["M1", "M2"], ["A"], map["A" := [Some(10.0), Some(12.0)]])])
  }

  lemma FirstRow()
    ensures AddRow(Empty(), Row("DATUM", "M1", "A", 10.0)) == AfterFirst()
  {
    var r := Row("DATUM", "M1", "A", 10.0);
    assert AppendNew([], "M1") == ["M1"];
    assert IndexOf(["M1"], "M1") == 0;
    assert Put([], 0, 10.0) == [Some(10.0)];
    assert AddToSeries(NewSeries("DATUM"), r) == AfterFirst().series["DATUM"];
  }

  lemma SecondRow()
    ensures AddRow(AfterFirst(), Row("DATUM", "M2", "A", 12.0)) == AfterSecond()
  {
    var r := Row("DATUM", "M2", "A", 12.0);
    assert "M2" != "M1";
    assert AppendNew(["M1"], "M2") == ["M1", "M2"];
    assert IndexOf(["M1", "M2"], "M2") == 1;
    assert Put([Some(10.0)], 1, 12.0) == [Some(10.0), Some(12.0)];
    assert AddToSeries(AfterFirst().series["DATUM"], r) == AfterSecond().series["DATUM"];
  }

  lemma ThirdRow()
    ensures AddRow(AfterSecond(), Row("DATUM", "M1", "B", 8.0)) == Expected()
  {
    var r := Row("DATUM", "M1", "B", 8.0);
    var s := AfterSecond().series["DATUM"];
    assert SeriesFor(AfterSecond(), "DATUM") == s;
    assert AppendNew(["M1", "M2"], "M1") == ["M1", "M2"];
    assert IndexOf(["M1", "M2"], "M1") == 0;
    assert "B" !in s.data && ArrayFor(s, "B") == [];
    assert Put([], 0, 8.0) == [Some(8.0)];
    assert s.data["B" := [Some(8.0)]] == Expected().series["DATUM"].data;
    assert AddToSeries(s, r) == Expected().series["DATUM"];
  }

  /** The sheet indexes to one series: periods `[M1, M2]`, `A = [10, 12]`, `B = [8]`. */
  lemma SheetIndex()
    ensures Index(Sheet(), DemoParse) == Expected()
  {
    var rows := Sheet();
    SheetAccepted();
    assert rows[..2][..1] == rows[..1] && rows[..1][..0] == [];
    assert rows[..3] == rows;
    FirstRow();
    assert Index(rows[..1], DemoParse) == AfterFirst();
    SecondRow();
    assert Index(rows[..2], DemoParse) == AfterSecond();
    ThirdRow();
  }

  /** The row whose value is "abc" is dropped. */
  lemma MalformedDropped()
    ensures Index(Sheet() + [Malformed()], DemoParse) == Expected()
  {
    assert DemoParse("abc").None?;
    RejectedRowIgnored(Sheet(), Malformed(), [], DemoParse);
    assert Sheet() + [Malformed()] + [] == Sheet() + [Malformed()];
    assert Sheet() + [] == Sheet();
    SheetIndex();
  }

  lemma DatumEntries()
    ensures Entries(Expected().series["DATUM"]) == [RankEntry("A", 12.0, 2.0), RankEntry("B", 8.0, 0.0)]
  {
    var s := Expected().series["DATUM"];
    var a: Values := [Some(10.0), Some(12.0)];
    var b: Values := [Some(8.0)];
    LastPresentAt(a, 1);
    LastPresentAt(a[..1], 0);
    LastPresentAt(b, 0);
    assert a[..1][..0] == [] && b[..0] == [];
    assert Entry(s, "A") == Some(RankEntry("A", 12.0, 2.0));
    assert Entry(s, "B") == Some(RankEntry("B", 8.0, 0.0));
    assert ["A", "B"][..1] == ["A"] && ["A"][..0] == [];
  }

  /** The ranking is `A` at 12 (up 2), then `B` at 8 (no trend). */
  lemma SheetRanking()
    ensures Ranking(Expected(), "DATUM") == [RankEntry("A", 12.0, 2.0), RankEntry("B", 8.0, 0.0)]
  {
    var eA, eB := RankEntry("A", 12.0, 2.0), RankEntry("B", 8.0, 0.0);
    DatumEntries();
    assert ByValue(eA) == 12.0 && ByValue(eB) == 8.0;
    assert [eA, eB][..1] == [eA] && [eA][..0] == [];
    assert SortDesc([eA], ByValue) == [eA];
    assert Insert(eB, [eA], ByValue) == [eA, eB];
  }

  /** The evolution of `A` and `B`: `{M1, A: 10, B: 8}`, then `{M2, A: 12, B: hole}`. */
  lemma SheetEvolution()
    ensures Evolution(Expected(), "DATUM", ["A", "B"]) ==
      [ map["name" := Text("M1"), "A" := Number(Some(10.0)), "B" := Number(Some(8.0))],
        map["name" := Text("M2"), "A" := Number(Some(12.0)), "B" := Number(None)] ]
  {
    var s := Expected().series["DATUM"];
    assert ["A", "B"][..1] == ["A"] && ["A"][..0] == [];
  }

  function RowA(): Obj {
    map["candidate" := Text("A"), "DATUM" := Number(Some(12.0))]
  }

  function RowB(): Obj {
    map["candidate" := Text("B"), "DATUM" := Number(Some(8.0))]
  }

  lemma DatumRows()
    ensures RowFor(Expected(), "A") == RowA() && RowFor(Expected(), "B") == RowB()
  {
    LastPresentAt([Some(10.0), Some(12.0)], 1);
    LastPresentAt([Some(8.0)], 0);
    assert ["DATUM"][..0] == [];
  }

  lemma DatumMeans()
    ensures Mean(["DATUM"], RowA()) == 12.0 && Mean(["DATUM"], RowB()) == 8.0
  {
    assert ["DATUM"][..0] == [];
    assert Averaged(["DATUM"], RowA()) == [12.0];
    assert Averaged(["DATUM"], RowB()) == [8.0];
    assert [12.0][..0] == [] && [8.0][..0] == [];
  }

  /** Comparing `B` and `A`: `A` (last value 12) comes before `B` (8). */
  lemma SheetComparison()
    ensures Comparison(Expected(), ["B", "A"]) == [RowA(), RowB()]
  {
    var d := Expected();
    DatumRows();
    DatumMeans();
    assert ByMean(d)(RowA()) == 12.0 && ByMean(d)(RowB()) == 8.0;
    assert Unsorted(d, ["B", "A"]) == [RowB(), RowA()];
    assert [RowB(), RowA()][..1] == [RowB()] && [RowB()][..0] == [];
    assert SortDesc([RowB()], ByMean(d)) == [RowB()];
    assert Insert(RowA(), [RowB()], ByMean(d)) == [RowA(), RowB()];
  }
}
