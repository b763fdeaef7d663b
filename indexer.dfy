/** The series indexer (src/App.jsx, the `forEach` over the parsed rows): a left fold
    of the accepted rows into one series per pollster. Each series lists its period
    labels in first-seen order and keeps, per candidate, a sparse array whose index `i`
    holds the value for `periods[i]`. */
module Indexer {
  import opened Wrappers
  import opened Seqs
  import opened Rows

  /** A JavaScript array of numbers with holes: `None` is a hole, not zero. */
  type Values = seq<Option<real>>

  /** `processed[pollster]`: its name, its period labels, and its candidate arrays.
      `candidates` is the insertion order of the keys of `data`, the order in which
      `Object.entries` visits them. */
  datatype Series = Series(name: string, periods: seq<string>, candidates: seq<string>, data: map<string, Values>)

  /** `processed`: pollster names in first-seen order and the series of each. */
  datatype Dataset = Dataset(keys: seq<string>, series: map<string, Series>)

  function Empty(): Dataset {
    Dataset([], map[])
  }

  function NewSeries(name: string): Series {
    Series(name, [], [], map[])
  }

  /** What the indexer keeps true of each series: the periods are distinct, the key
      list matches the candidate arrays, and every array is no longer than the period
      list and ends with the value last written to it (a JavaScript array's length is
      one past its highest written index). */
  ghost predicate ValidSeries(s: Series) {
    && Distinct(s.periods)
    && Distinct(s.candidates)
    && (forall c :: c in s.data <==> c in s.candidates)
    && (forall c :: c in s.data ==> 0 < |s.data[c]| <= |s.periods| && s.data[c][|s.data[c]| - 1].Some?)
  }

  ghost predicate WellFormed(d: Dataset) {
    && Distinct(d.keys)
    && (forall k :: k in d.series <==> k in d.keys)
    && (forall k :: k in d.series ==> d.series[k].name == k && ValidSeries(d.series[k]))
  }

  /** `arr[i] = v` on a JavaScript array: past the end the array grows and the
      positions in between become holes. */
  function Put(arr: Values, i: nat, v: real): (r: Values)
    ensures |r| == if i < |arr| then |arr| else i + 1
    ensures r[i] == Some(v)
    ensures forall j :: 0 <= j < |r| && j != i ==> r[j] == if j < |arr| then arr[j] else None
  {
    if i < |arr| then arr[i := Some(v)] else arr + seq(i - |arr|, _ => None) + [Some(v)]
  }

  /** `processed[p]`, or the entry the indexer creates when there is none. */
  function SeriesFor(d: Dataset, p: string): Series {
    if p in d.series then d.series[p] else NewSeries(p)
  }

  /** `data[c]`, or the empty array the indexer creates when there is none. */
  function ArrayFor(s: Series, c: string): Values {
    if c in s.data then s.data[c] else []
  }

  /** An accepted row's effect on its pollster's series: append the period if it is
      new, get or create the candidate's array, and write the value at the index of
      the period. */
  function AddToSeries(s: Series, r: Row): Series {
    var periods := AppendNew(s.periods, r.period);
    var candidates := if r.candidate in s.data then s.candidates else s.candidates + [r.candidate];
    var i := IndexOf(periods, r.period);
    Series(s.name, periods, candidates, s.data[r.candidate := Put(ArrayFor(s, r.candidate), i, r.value)])
  }

  /** One accepted row folded in: get or create the pollster's series, then update it. */
  function AddRow(d: Dataset, r: Row): Dataset {
    var keys := if r.pollster in d.series then d.keys else d.keys + [r.pollster];
    Dataset(keys, d.series[r.pollster := AddToSeries(SeriesFor(d, r.pollster), r)])
  }

  /** The fold over rows that already passed the filter. */
  function Fold(rs: seq<Row>): Dataset {
    if rs == [] then Empty() else AddRow(Fold(rs[..|rs| - 1]), rs[|rs| - 1])
  }

  /** One step of the `forEach`: a row the filter rejects returns early. */
  function Ingest(d: Dataset, raw: RawRow, parseFloat: string -> Option<real>): Dataset {
    match Normalize(raw, parseFloat)
    case None => d
    case Some(r) => AddRow(d, r)
  }

  /** The whole pass over the parsed sheet. */
  function Index(rows: seq<RawRow>, parseFloat: string -> Option<real>): Dataset {
    if rows == [] then Empty()
    else Ingest(Index(rows[..|rows| - 1], parseFloat), rows[|rows| - 1], parseFloat)
  }

  /** The row filter as a function value. */
  function Filter(parseFloat: string -> Option<real>): RawRow -> Option<Row> {
    raw => Normalize(raw, parseFloat)
  }

  /** The rows that pass the filter, in order. */
  function Accepted(rows: seq<RawRow>, parseFloat: string -> Option<real>): seq<Row> {
    FilterMap(rows, Filter(parseFloat))
  }

  /** `arr[i]`: a hole, an index past the end and -1 all read as `undefined`. */
  function At(arr: Values, i: int): Option<real> {
    if 0 <= i < |arr| then arr[i] else None
  }

  /** The value a series stores for a (period, candidate) pair:
      `data[c][periods.indexOf(per)]`, `None` when nothing is there. */
  function Slot(s: Series, per: string, c: string): Option<real> {
    if c in s.data then At(s.data[c], IndexOf(s.periods, per)) else None
  }

  /** The value stored for a (pollster, period, candidate) triple. */
  function Lookup(d: Dataset, p: string, per: string, c: string): Option<real> {
    if p in d.series then Slot(d.series[p], per, c) else None
  }

  /** Reference meaning of a slot: the value of the last row written to that triple. */
  function LastWrite(rs: seq<Row>, p: string, per: string, c: string): Option<real> {
    if rs == [] then None
    else
      var r := rs[|rs| - 1];
      if r.pollster == p && r.period == per && r.candidate == c then Some(r.value)
      else LastWrite(rs[..|rs| - 1], p, per, c)
  }

  /** The pollster names of a row stream, in order. */
  function Pollsters(rs: seq<Row>): seq<string> {
    if rs == [] then [] else Pollsters(rs[..|rs| - 1]) + [rs[|rs| - 1].pollster]
  }

  /** The period labels of the rows of pollster `p`, in order. */
  function PeriodsOf(rs: seq<Row>, p: string): seq<string> {
    if rs == [] then []
    else PeriodsOf(rs[..|rs| - 1], p) + (if rs[|rs| - 1].pollster == p then [rs[|rs| - 1].period] else [])
  }

  /** The candidate names of the rows of pollster `p`, in order. */
  function CandidatesOf(rs: seq<Row>, p: string): seq<string> {
    if rs == [] then []
    else CandidatesOf(rs[..|rs| - 1], p) + (if rs[|rs| - 1].pollster == p then [rs[|rs| - 1].candidate] else [])
  }

  // ---------------------------------------------------------------------------
  // One step

  lemma AddToSeriesCandidates(s: Series, r: Row)
    requires ValidSeries(s)
    ensures Distinct(AddToSeries(s, r).candidates)
    ensures forall c :: c in AddToSeries(s, r).data <==> c in AddToSeries(s, r).candidates
  {
    assert r.candidate !in s.data ==> r.candidate !in s.candidates;
  }

  lemma AddToSeriesArrays(s: Series, r: Row)
    requires ValidSeries(s)
    ensures forall c :: c in AddToSeries(s, r).data ==>
              var a := AddToSeries(s, r).data[c];
              0 < |a| <= |AddToSeries(s, r).periods| && a[|a| - 1].Some?
  {
    var s' := AddToSeries(s, r);
    forall c | c in s'.data
      ensures 0 < |s'.data[c]| <= |s'.periods| && s'.data[c][|s'.data[c]| - 1].Some?
    {
      if c == r.candidate {
        assert |ArrayFor(s, c)| <= |s.periods| <= |s'.periods|;
      } else {
        assert s'.data[c] == s.data[c];
      }
    }
  }

  /** Updating a series keeps the indexer's invariant. */
  lemma AddToSeriesValid(s: Series, r: Row)
    requires ValidSeries(s)
    ensures ValidSeries(AddToSeries(s, r)) && AddToSeries(s, r).name == s.name
  {
    AddToSeriesCandidates(s, r);
    AddToSeriesArrays(s, r);
  }

  /** Updating a series writes one slot and leaves every other slot as it was. */
  lemma AddToSeriesSlot(s: Series, r: Row)
    requires ValidSeries(s)
    ensures Slot(AddToSeries(s, r), r.period, r.candidate) == Some(r.value)
    ensures forall per, c :: (per, c) != (r.period, r.candidate) ==>
              Slot(AddToSeries(s, r), per, c) == Slot(s, per, c)
  {
    var s' := AddToSeries(s, r);
    var n := |s.periods|;
    var i := IndexOf(s'.periods, r.period);
    assert s'.periods[..n] == s.periods;
    forall per, c | (per, c) != (r.period, r.candidate)
      ensures Slot(s', per, c) == Slot(s, per, c)
    {
      var j := IndexOf(s'.periods, per);
      if per in s.periods {
        IndexOfPrefix(s'.periods, n, per);
      } else {
        assert j == -1 || n <= j;
      }
      assert c in s.data && c != r.candidate ==> s'.data[c] == s.data[c];
    }
  }

  lemma AddRowKeys(d: Dataset, r: Row)
    requires WellFormed(d)
    ensures Distinct(AddRow(d, r).keys)
    ensures forall k :: k in AddRow(d, r).series <==> k in AddRow(d, r).keys
  {
    assert r.pollster !in d.series ==> r.pollster !in d.keys;
  }

  /** Folding in a row keeps the indexer's invariant. */
  lemma AddRowWellFormed(d: Dataset, r: Row)
    requires WellFormed(d)
    ensures WellFormed(AddRow(d, r))
  {
    var d' := AddRow(d, r);
    var s := SeriesFor(d, r.pollster);
    assert ValidSeries(s) && s.name == r.pollster;
    AddToSeriesValid(s, r);
    AddRowKeys(d, r);
    forall k | k in d'.series
      ensures d'.series[k].name == k && ValidSeries(d'.series[k])
    {
      if k != r.pollster {
        assert d'.series[k] == d.series[k];
      }
    }
  }

  /** Folding in a row writes exactly one slot: the row's own triple now reads the
      row's value, every other triple reads what it read before (last write wins), and
      the other pollsters are untouched. */
  lemma AddRowWritesOneSlot(d: Dataset, r: Row)
    requires WellFormed(d)
    ensures Lookup(AddRow(d, r), r.pollster, r.period, r.candidate) == Some(r.value)
    ensures forall p, per, c :: (p, per, c) != (r.pollster, r.period, r.candidate) ==>
              Lookup(AddRow(d, r), p, per, c) == Lookup(d, p, per, c)
    ensures forall p :: p in d.series && p != r.pollster ==> AddRow(d, r).series[p] == d.series[p]
  {
    var s := SeriesFor(d, r.pollster);
    assert ValidSeries(s);
    AddToSeriesSlot(s, r);
    forall p, per, c | (p, per, c) != (r.pollster, r.period, r.candidate)
      ensures Lookup(AddRow(d, r), p, per, c) == Lookup(d, p, per, c)
    {
      if p == r.pollster {
        assert Lookup(d, p, per, c) == Slot(s, per, c);
      }
    }
  }

  // ---------------------------------------------------------------------------
  // The whole fold

  /** Rejected rows play no part: indexing the sheet is folding the accepted rows. */
  lemma {:induction false} IndexIsFoldOfAccepted(rows: seq<RawRow>, parseFloat: string -> Option<real>)
    ensures Index(rows, parseFloat) == Fold(Accepted(rows, parseFloat))
  {
    if rows != [] {
      var n := |rows| - 1;
      IndexIsFoldOfAccepted(rows[..n], parseFloat);
      var a := Accepted(rows[..n], parseFloat);
      assert Index(rows, parseFloat) == Ingest(Fold(a), rows[n], parseFloat);
      assert Filter(parseFloat)(rows[n]) == Normalize(rows[n], parseFloat);
      match Normalize(rows[n], parseFloat)
      case None =>
        assert Accepted(rows, parseFloat) == a + [];
        assert a + [] == a;
      case Some(r) =>
        assert Accepted(rows, parseFloat) == a + [r];
        assert (a + [r])[..|a|] == a;
        assert Fold(a + [r]) == AddRow(Fold(a), r);
    }
  }

  /** A row whose pollster, period or candidate is missing or blank, or whose value is
      NaN, leaves the dataset as it would be without it, wherever it stands. */
  lemma RejectedRowIgnored(before: seq<RawRow>, raw: RawRow, after: seq<RawRow>, parseFloat: string -> Option<real>)
    requires Normalize(raw, parseFloat).None?
    ensures Index(before + [raw] + after, parseFloat) == Index(before + after, parseFloat)
  {
    var f := Filter(parseFloat);
    assert FilterMap([raw], f) == [] by {
      assert [raw][..0] == [];
      assert f(raw).None?;
    }
    calc {
      Index(before + [raw] + after, parseFloat);
      { IndexIsFoldOfAccepted(before + [raw] + after, parseFloat); }
      Fold(FilterMap(before + [raw] + after, f));
      { FilterMapAppend(before + [raw], after, f); FilterMapAppend(before, [raw], f); }
      Fold(FilterMap(before, f) + FilterMap([raw], f) + FilterMap(after, f));
      { assert FilterMap(before, f) + [] == FilterMap(before, f); }
      Fold(FilterMap(before, f) + FilterMap(after, f));
      { FilterMapAppend(before, after, f); }
      Fold(FilterMap(before + after, f));
      { IndexIsFoldOfAccepted(before + after, parseFloat); }
      Index(before + after, parseFloat);
    }
  }

  /** Every dataset the fold builds satisfies the indexer's invariant: in particular
      periods have no duplicates and no candidate array outgrows its period list. */
  lemma {:induction false} FoldWellFormed(rs: seq<Row>)
    ensures WellFormed(Fold(rs))
  {
    if rs != [] {
      FoldWellFormed(rs[..|rs| - 1]);
      AddRowWellFormed(Fold(rs[..|rs| - 1]), rs[|rs| - 1]);
    }
  }

  /** Every slot holds the value of the last row written to its triple, and a triple
      no row wrote reads as a hole. */
  lemma {:induction false} FoldSlotIsLastWrite(rs: seq<Row>, p: string, per: string, c: string)
    ensures Lookup(Fold(rs), p, per, c) == LastWrite(rs, p, per, c)
  {
    if rs != [] {
      var n := |rs| - 1;
      FoldSlotIsLastWrite(rs[..n], p, per, c);
      FoldWellFormed(rs[..n]);
      AddRowWritesOneSlot(Fold(rs[..n]), rs[n]);
    }
  }

  /** Pollsters are listed in first-seen order: the pollster list is the distinct
      pollster names of the accepted rows. */
  lemma {:induction false} FoldKeysFirstSeen(rs: seq<Row>)
    ensures Fold(rs).keys == Dedup(Pollsters(rs))
  {
    if rs != [] {
      var n := |rs| - 1;
      FoldKeysFirstSeen(rs[..n]);
      FoldWellFormed(rs[..n]);
      assert Pollsters(rs) == Pollsters(rs[..n]) + [rs[n].pollster];
      DedupSnoc(Pollsters(rs[..n]), rs[n].pollster);
    }
  }

  /** One row extends its series' period and candidate lists as seeing one more
      period and one more candidate extends their distinct lists. */
  lemma AddToSeriesFirstSeen(s: Series, r: Row, ps: seq<string>, cs: seq<string>)
    requires ValidSeries(s) && s.periods == Dedup(ps) && s.candidates == Dedup(cs)
    ensures AddToSeries(s, r).periods == Dedup(ps + [r.period])
    ensures AddToSeries(s, r).candidates == Dedup(cs + [r.candidate])
  {
    DedupSnoc(ps, r.period);
    DedupSnoc(cs, r.candidate);
    assert r.candidate in s.data <==> r.candidate in s.candidates;
  }

  /** A row of another pollster leaves a series as it was. */
  lemma AddRowOther(d: Dataset, r: Row, p: string)
    requires p != r.pollster
    ensures p in AddRow(d, r).series <==> p in d.series
    ensures p in d.series ==> AddRow(d, r).series[p] == d.series[p]
  {
  }

  /** A row of pollster `p` extends its lists as seeing one more row of `p` does. */
  lemma AddRowSame(d: Dataset, r: Row, ps: seq<string>, cs: seq<string>)
    requires WellFormed(d)
    requires r.pollster in d.series ==>
      d.series[r.pollster].periods == Dedup(ps) && d.series[r.pollster].candidates == Dedup(cs)
    requires r.pollster !in d.series ==> ps == [] && cs == []
    ensures AddRow(d, r).series[r.pollster].periods == Dedup(ps + [r.period])
    ensures AddRow(d, r).series[r.pollster].candidates == Dedup(cs + [r.candidate])
  {
    AddToSeriesFirstSeen(SeriesFor(d, r.pollster), r, ps, cs);
  }

  /** Each series lists its periods and its candidates in first-seen order: they are
      the distinct period labels and candidate names of that pollster's rows. */
  lemma {:induction false} FoldSeriesFirstSeen(rs: seq<Row>, p: string)
    requires p in Fold(rs).series
    ensures Fold(rs).series[p].periods == Dedup(PeriodsOf(rs, p))
    ensures Fold(rs).series[p].candidates == Dedup(CandidatesOf(rs, p))
  {
    var n := |rs| - 1;
    var r := rs[n];
    var d := Fold(rs[..n]);
    assert Fold(rs) == AddRow(d, r);
    var ps, cs := PeriodsOf(rs[..n], p), CandidatesOf(rs[..n], p);
    if p != r.pollster {
      AddRowOther(d, r, p);
      FoldSeriesFirstSeen(rs[..n], p);
      assert PeriodsOf(rs, p) == ps + [] == ps;
      assert CandidatesOf(rs, p) == cs + [] == cs;
    } else {
      assert PeriodsOf(rs, p) == ps + [r.period];
      assert CandidatesOf(rs, p) == cs + [r.candidate];
      FoldWellFormed(rs[..n]);
      if p in d.series {
        FoldSeriesFirstSeen(rs[..n], p);
      } else {
        FoldKeysFirstSeen(rs[..n]);
        PeriodsOfAbsent(rs[..n], p);
      }
      AddRowSame(d, r, ps, cs);
    }
  }

  /** A pollster that has no row yet has no periods and no candidates. */
  lemma {:induction false} PeriodsOfAbsent(rs: seq<Row>, p: string)
    requires p !in Pollsters(rs)
    ensures PeriodsOf(rs, p) == [] && CandidatesOf(rs, p) == []
  {
    if rs != [] {
      PeriodsOfAbsent(rs[..|rs| - 1], p);
    }
  }

  // ---------------------------------------------------------------------------
  // The imperative indexer

  /** The `processed` object that the `forEach` fills in place. */
  class Accumulator {
    var keys: seq<string>
    var series: map<string, Series>

    /** The object as a value. */
    function Snapshot(): Dataset
      reads this
    {
      Dataset(keys, series)
    }

    constructor ()
      ensures Snapshot() == Empty()
    {
      keys := [];
      series := map[];
    }

    /** The body of the `forEach` for a row that passed the filter. */
    method Add(r: Row)
      modifies this
      ensures Snapshot() == AddRow(old(Snapshot()), r)
    {
      ghost var d := Snapshot();
      if r.pollster !in series {
        series := series[r.pollster := NewSeries(r.pollster)];
        keys := keys + [r.pollster];
      }
      var s := series[r.pollster];
      assert s == SeriesFor(d, r.pollster);
      var periods := s.periods;
      if r.period !in periods {
        periods := periods + [r.period];
      }
      var candidates, data := s.candidates, s.data;
      if r.candidate !in data {
        candidates := candidates + [r.candidate];
        data := data[r.candidate := []];
      }
      assert data[r.candidate] == ArrayFor(s, r.candidate);
      var periodIndex := IndexOf(periods, r.period);
      data := data[r.candidate := Put(data[r.candidate], periodIndex, r.value)];
      assert data == s.data[r.candidate := Put(ArrayFor(s, r.candidate), periodIndex, r.value)];
      series := series[r.pollster := Series(s.name, periods, candidates, data)];
    }
  }

  /** The `complete` callback: runs the filter and the indexer over every parsed row.
      The result is the fold of the specification, hence well formed. */
  method IndexRows(rows: seq<RawRow>, parseFloat: string -> Option<real>) returns (d: Dataset)
    ensures d == Index(rows, parseFloat)
    ensures WellFormed(d)
  {
    var processed := new Accumulator();
    for i := 0 to |rows|
      invariant processed.Snapshot() == Index(rows[..i], parseFloat)
    {
      assert rows[..i + 1][..i] == rows[..i];
      var r := Normalize(rows[i], parseFloat);
      if r.Some? {
        processed.Add(r.value);
      }
    }
    assert rows[..|rows|] == rows;
    d := processed.Snapshot();
    IndexIsFoldOfAccepted(rows, parseFloat);
    FoldWellFormed(Accepted(rows, parseFloat));
  }
}
