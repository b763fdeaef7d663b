/** The three chart inputs derived from the indexed data (src/App.jsx): the ranking of
    one pollster, the evolution of the selected candidates over one pollster's periods,
    and the comparison of the selected candidates across all pollsters. */
module Views {
  import opened Wrappers
  import opened Seqs
  import opened Sorting
  import opened Rows
  import opened Indexer

  // ---------------------------------------------------------------------------
  // Present values of a candidate array

  /** `values.filter(v => v != null)`: the values of an array, holes skipped, in order. */
  function Present(vs: Values): seq<real> {
    FilterMap(vs, v => v)
  }

  /** The last present value, `null` (`None`) when there is none. */
  function LastPresent(vs: Values): Option<real> {
    var p := Present(vs);
    if |p| > 0 then Some(p[|p| - 1]) else None
  }

  /** Last minus previous present value, 0 when fewer than two values are present. */
  function Trend(vs: Values): real {
    var p := Present(vs);
    if |p| > 1 then p[|p| - 1] - p[|p| - 2] else 0.0
  }

  lemma PresentSnoc(vs: Values)
    requires vs != []
    ensures Present(vs) == Present(vs[..|vs| - 1]) + match vs[|vs| - 1] case None => [] case Some(x) => [x]
  {
  }

  /** An array has no present value exactly when it is all holes. */
  lemma {:induction false} PresentEmpty(vs: Values)
    ensures Present(vs) == [] <==> forall j :: 0 <= j < |vs| ==> vs[j].None?
  {
    if vs != [] {
      var n := |vs| - 1;
      PresentSnoc(vs);
      PresentEmpty(vs[..n]);
      assert forall j :: 0 <= j < n ==> vs[..n][j] == vs[j];
    }
  }

  /** Past the last value that is there, only holes follow: the present values are
      those before it, then it. */
  lemma {:induction false} PresentUpTo(vs: Values, i: nat)
    requires i < |vs| && vs[i].Some?
    requires forall j :: i < j < |vs| ==> vs[j].None?
    ensures Present(vs) == Present(vs[..i]) + [vs[i].value]
    decreases |vs|
  {
    var n := |vs| - 1;
    PresentSnoc(vs);
    if i < n {
      assert vs[..n][..i] == vs[..i];
      PresentUpTo(vs[..n], i);
    } else {
      assert vs[..n] == vs[..i];
    }
  }

  /** What the ranking reads off an array: the last value that is there, and the trend
      from the value before it (0 when no value precedes it). */
  lemma LastPresentAt(vs: Values, i: nat)
    requires i < |vs| && vs[i].Some?
    requires forall j :: i < j < |vs| ==> vs[j].None?
    ensures LastPresent(vs) == vs[i]
    ensures Trend(vs) == match LastPresent(vs[..i]) case None => 0.0 case Some(u) => vs[i].value - u
  {
    PresentUpTo(vs, i);
  }

  /** An array that is all holes has no last value. */
  lemma LastPresentNone(vs: Values)
    ensures LastPresent(vs).None? <==> forall j :: 0 <= j < |vs| ==> vs[j].None?
  {
    PresentEmpty(vs);
  }

  // ---------------------------------------------------------------------------
  // Ranking

  /** One bar of the ranking: candidate, last value and trend. */
  datatype RankEntry = RankEntry(candidate: string, value: real, trend: real)

  function ByValue(e: RankEntry): real {
    e.value
  }

  /** The entry of one candidate, dropped (`None`) when its array has no value. */
  function Entry(s: Series, c: string): Option<RankEntry> {
    if c !in s.data then None
    else
      match LastPresent(s.data[c])
      case None => None
      case Some(v) => Some(RankEntry(c, v, Trend(s.data[c])))
  }

  /** `Object.entries(data.data).map(...).filter(item => item.value != null)`. */
  function Entries(s: Series): seq<RankEntry> {
    FilterMap(s.candidates, c => Entry(s, c))
  }

  /** `rankingData`: the entries of pollster `p`, highest value first; empty when the
      pollster has no series. */
  function Ranking(d: Dataset, p: string): (r: seq<RankEntry>)
    ensures SortedDesc(r, ByValue)
    ensures p !in d.series ==> r == []
  {
    if p !in d.series then [] else SortDesc(Entries(d.series[p]), ByValue)
  }

  /** An entry is kept for a candidate exactly when its array has a value. */
  lemma EntriesMember(s: Series, e: RankEntry)
    requires ValidSeries(s)
    ensures e in Entries(s) <==>
      && e.candidate in s.data
      && LastPresent(s.data[e.candidate]) == Some(e.value)
      && e.trend == Trend(s.data[e.candidate])
  {
    FilterMapMember(s.candidates, c => Entry(s, c), e);
    if e.candidate in s.data && LastPresent(s.data[e.candidate]) == Some(e.value) && e.trend == Trend(s.data[e.candidate]) {
      var i :| 0 <= i < |s.candidates| && s.candidates[i] == e.candidate;
      assert Entry(s, s.candidates[i]) == Some(e);
    }
  }

  lemma {:induction false} EntriesDistinct(s: Series, cs: seq<string>)
    requires Distinct(cs)
    ensures Distinct(FilterMap(cs, c => Entry(s, c)))
  {
    if cs != [] {
      var n := |cs| - 1;
      var f := c => Entry(s, c);
      assert Distinct(cs[..n]) by {
        assert forall i :: 0 <= i < n ==> cs[..n][i] == cs[i];
      }
      EntriesDistinct(s, cs[..n]);
      if f(cs[n]).Some? {
        var e := f(cs[n]).value;
        FilterMapMember(cs[..n], f, e);
        forall i | 0 <= i < n
          ensures f(cs[..n][i]) != Some(e)
        {
          assert cs[..n][i] == cs[i] != cs[n] == e.candidate;
        }
        assert FilterMap(cs, f) == FilterMap(cs[..n], f) + [e];
      }
    }
  }

  /** The ranking of a pollster lists exactly the candidates whose array has a value,
      each once, with its last value and its trend, highest value first. */
  lemma RankingSpec(d: Dataset, p: string)
    requires WellFormed(d) && p in d.series
    ensures var s := d.series[p];
      && (forall e :: e in Ranking(d, p) ==>
            && e.candidate in s.data
            && LastPresent(s.data[e.candidate]) == Some(e.value)
            && e.trend == Trend(s.data[e.candidate]))
      && (forall c :: c in s.data && LastPresent(s.data[c]).Some? ==>
            RankEntry(c, LastPresent(s.data[c]).value, Trend(s.data[c])) in Ranking(d, p))
      && (forall i, j :: 0 <= i < j < |Ranking(d, p)| ==> Ranking(d, p)[i].candidate != Ranking(d, p)[j].candidate)
  {
    var s := d.series[p];
    var r := Ranking(d, p);
    assert multiset(r) == multiset(Entries(s));
    forall e | e in r
      ensures e.candidate in s.data && LastPresent(s.data[e.candidate]) == Some(e.value) && e.trend == Trend(s.data[e.candidate])
    {
      assert e in multiset(Entries(s));
      EntriesMember(s, e);
    }
    forall c | c in s.data && LastPresent(s.data[c]).Some?
      ensures RankEntry(c, LastPresent(s.data[c]).value, Trend(s.data[c])) in r
    {
      var e := RankEntry(c, LastPresent(s.data[c]).value, Trend(s.data[c]));
      EntriesMember(s, e);
      assert e in multiset(r);
    }
    EntriesDistinct(s, s.candidates);
    SortDescDistinct(Entries(s), ByValue);
  }

  /** Candidates with the same value keep the order of their first row. */
  lemma RankingTiesKeepOrder(d: Dataset, p: string, v: real)
    requires p in d.series
    ensures WithKey(Ranking(d, p), ByValue, v) == WithKey(Entries(d.series[p]), ByValue, v)
  {
    SortDescStable(Entries(d.series[p]), ByValue, v);
  }

  /** In an indexed series every candidate has a value (its array ends with the last
      one written), so every candidate of the pollster is ranked, with the value at
      the end of its array. */
  lemma RankingListsEveryCandidate(d: Dataset, p: string, c: string)
    requires WellFormed(d) && p in d.series && c in d.series[p].data
    ensures var a := d.series[p].data[c];
      RankEntry(c, a[|a| - 1].value, Trend(a)) in Ranking(d, p)
  {
    var s := d.series[p];
    var a := s.data[c];
    LastPresentAt(a, |a| - 1);
    var e := RankEntry(c, a[|a| - 1].value, Trend(a));
    EntriesMember(s, e);
    assert multiset(Ranking(d, p)) == multiset(Entries(s));
    assert e in multiset(Ranking(d, p));
  }

  // ---------------------------------------------------------------------------
  // JavaScript objects built by the views

  /** A property of the plain objects the views build: a label or a number that may be
      `null`/`undefined` (`Number(None)`). */
  datatype Field = Text(text: string) | Number(number: Option<real>)

  /** A plain object: its properties by key. */
  type Obj = map<string, Field>

  // ---------------------------------------------------------------------------
  // Evolution

  /** The point of period `i`: `{ name: period }`, then `point[c] = data[c][i]` for
      each selected candidate that has an array, in selection order. */
  function Point(s: Series, i: nat, selected: seq<string>): Obj
    requires i < |s.periods|
  {
    if selected == [] then map["name" := Text(s.periods[i])]
    else
      var c := selected[|selected| - 1];
      var point := Point(s, i, selected[..|selected| - 1]);
      if c in s.data then point[c := Number(At(s.data[c], i))] else point
  }

  /** `chartData`: one point per period of pollster `p`, empty when it has no series. */
  function Evolution(d: Dataset, p: string, selected: seq<string>): (r: seq<Obj>)
    ensures |r| == if p in d.series then |d.series[p].periods| else 0
  {
    if p !in d.series then []
    else
      var s := d.series[p];
      seq(|s.periods|, i requires 0 <= i < |s.periods| => Point(s, i, selected))
  }

  /** A point has the key `name` and one key per selected candidate with an array;
      each such key holds the array's entry at the point's index (possibly a hole),
      and `name` holds the period label unless a selected candidate is itself called
      `name`. */
  lemma {:induction false} PointSpec(s: Series, i: nat, selected: seq<string>)
    requires i < |s.periods|
    ensures forall k :: k in Point(s, i, selected) <==> k == "name" || (k in selected && k in s.data)
    ensures forall c :: c in selected && c in s.data ==> Point(s, i, selected)[c] == Number(At(s.data[c], i))
    ensures !("name" in selected && "name" in s.data) ==> Point(s, i, selected)["name"] == Text(s.periods[i])
  {
    if selected != [] {
      var n := |selected| - 1;
      PointSpec(s, i, selected[..n]);
      assert selected == selected[..n] + [selected[n]];
    }
  }

  /** The evolution chart of pollster `p` has one point per period, in period order;
      point `i` is labelled with period `i` and carries, for each selected candidate
      that has an array, the entry at index `i`. */
  lemma EvolutionSpec(d: Dataset, p: string, selected: seq<string>, i: nat)
    requires p in d.series && i < |d.series[p].periods|
    ensures var s := d.series[p];
      var point := Evolution(d, p, selected)[i];
      && (forall k :: k in point <==> k == "name" || (k in selected && k in s.data))
      && (forall c :: c in selected && c in s.data ==> point[c] == Number(At(s.data[c], i)))
      && (!("name" in selected && "name" in s.data) ==> point["name"] == Text(s.periods[i]))
  {
    PointSpec(d.series[p], i, selected);
  }

  /** In a well-formed dataset, point `i` of the evolution reads, for each selected
      candidate with an array, the value stored for period `i`. */
  lemma EvolutionReadsSlot(d: Dataset, p: string, selected: seq<string>, i: nat, c: string)
    requires WellFormed(d) && p in d.series && i < |d.series[p].periods|
    requires c in selected && c in d.series[p].data
    ensures var point := Evolution(d, p, selected)[i];
      c in point && point[c] == Number(Lookup(d, p, d.series[p].periods[i], c))
  {
    var s := d.series[p];
    IndexOfDistinct(s.periods, i);
    PointSpec(s, i, selected);
  }

  /** On an indexed sheet, point `i` of the evolution reports, for each selected
      candidate, the value of the last row for that pollster, period `i` and
      candidate, or a hole when there is none. */
  lemma EvolutionReportsLastWrite(rs: seq<Row>, p: string, selected: seq<string>, i: nat, c: string)
    requires p in Fold(rs).series && i < |Fold(rs).series[p].periods|
    requires c in selected && c in Fold(rs).series[p].data
    ensures var point := Evolution(Fold(rs), p, selected)[i];
      c in point && point[c] == Number(LastWrite(rs, p, Fold(rs).series[p].periods[i], c))
  {
    var d := Fold(rs);
    FoldWellFormed(rs);
    EvolutionReadsSlot(d, p, selected, i, c);
    FoldSlotIsLastWrite(rs, p, d.series[p].periods[i], c);
  }

  // ---------------------------------------------------------------------------
  // Comparison

  /** `pollster.data[candidate]?.filter(...)`, then its last element or `null`. */
  function LastOf(s: Series, c: string): Option<real> {
    if c in s.data then LastPresent(s.data[c]) else None
  }

  /** `{ candidate }`, then `row[key] = ` the candidate's last value at `key` for each
      pollster key in `keys`, in order. */
  function RowOver(d: Dataset, keys: seq<string>, c: string): Obj {
    if keys == [] then map["candidate" := Text(c)]
    else
      var k := keys[|keys| - 1];
      RowOver(d, keys[..|keys| - 1], c)[k := Number(LastOf(SeriesFor(d, k), c))]
  }

  /** The comparison row of candidate `c` over every pollster. */
  function RowFor(d: Dataset, c: string): Obj {
    RowOver(d, d.keys, c)
  }

  /** `Object.keys(pollData).map(k => row[k]).filter(v => v != null)`. */
  function Averaged(keys: seq<string>, row: Obj): seq<real> {
    if keys == [] then []
    else
      var k := keys[|keys| - 1];
      Averaged(keys[..|keys| - 1], row)
        + (if k in row && row[k].Number? && row[k].number.Some? then [row[k].number.value] else [])
  }

  function Sum(xs: seq<real>): real {
    if xs == [] then 0.0 else Sum(xs[..|xs| - 1]) + xs[|xs| - 1]
  }

  /** `xs.reduce((x, y) => x + y, 0) / xs.length`, 0 for no values. */
  function Average(xs: seq<real>): real {
    if |xs| > 0 then Sum(xs) / (|xs| as real) else 0.0
  }

  /** The mean of the present entries of a row over `keys`, 0 when there is none. */
  function Mean(keys: seq<string>, row: Obj): real {
    Average(Averaged(keys, row))
  }

  function ByMean(d: Dataset): Obj -> real {
    row => Mean(d.keys, row)
  }

  /** The rows in selection order, before sorting. */
  function Unsorted(d: Dataset, selected: seq<string>): seq<Obj> {
    seq(|selected|, i requires 0 <= i < |selected| => RowFor(d, selected[i]))
  }

  /** `comparisonData`: one row per selected candidate, highest mean first. */
  function Comparison(d: Dataset, selected: seq<string>): (r: seq<Obj>)
    ensures SortedDesc(r, ByMean(d)) && |r| == |selected|
    ensures multiset(r) == multiset(Unsorted(d, selected))
  {
    SortDesc(Unsorted(d, selected), ByMean(d))
  }

  /** A row has the key `candidate` and one key per pollster; each pollster key holds
      that pollster's last value for the candidate (`null` when it has none), and
      `candidate` holds the name unless a pollster is itself called `candidate`. */
  lemma {:induction false} RowOverSpec(d: Dataset, keys: seq<string>, c: string)
    ensures forall k :: k in RowOver(d, keys, c) <==> k == "candidate" || k in keys
    ensures forall k :: k in keys ==> RowOver(d, keys, c)[k] == Number(LastOf(SeriesFor(d, k), c))
    ensures "candidate" !in keys ==> RowOver(d, keys, c)["candidate"] == Text(c)
  {
    if keys != [] {
      var n := |keys| - 1;
      RowOverSpec(d, keys[..n], c);
      assert keys == keys[..n] + [keys[n]];
    }
  }

  /** The row of candidate `c` holds, under each pollster, that pollster's last value
      for `c`. */
  lemma RowForSpec(d: Dataset, c: string, k: string)
    requires k in d.keys
    ensures k in RowFor(d, c) && RowFor(d, c)[k] == Number(LastOf(SeriesFor(d, k), c))
  {
    RowOverSpec(d, d.keys, c);
  }

  /** The comparison has one row per selected candidate: the row of every selected
      candidate is in it, and every row in it is the row of a selected candidate. */
  lemma ComparisonRows(d: Dataset, selected: seq<string>)
    ensures forall i :: 0 <= i < |selected| ==> RowFor(d, selected[i]) in Comparison(d, selected)
    ensures forall row :: row in Comparison(d, selected) ==>
              exists i :: 0 <= i < |selected| && row == RowFor(d, selected[i])
  {
    var r := Comparison(d, selected);
    var u := Unsorted(d, selected);
    assert multiset(r) == multiset(u);
    forall i | 0 <= i < |selected|
      ensures RowFor(d, selected[i]) in r
    {
      assert u[i] in multiset(u);
    }
    forall row | row in r
      ensures exists i :: 0 <= i < |selected| && row == RowFor(d, selected[i])
    {
      assert row in multiset(u);
      var i :| 0 <= i < |u| && u[i] == row;
    }
  }

  /** Candidates with the same mean keep their selection order. */
  lemma ComparisonTiesKeepOrder(d: Dataset, selected: seq<string>, m: real)
    ensures WithKey(Comparison(d, selected), ByMean(d), m) == WithKey(Unsorted(d, selected), ByMean(d), m)
  {
    SortDescStable(Unsorted(d, selected), ByMean(d), m);
  }

  lemma {:induction false} SumBounds(xs: seq<real>, lo: real, hi: real)
    requires forall j :: 0 <= j < |xs| ==> lo <= xs[j] <= hi
    ensures (|xs| as real) * lo <= Sum(xs) <= (|xs| as real) * hi
  {
    if xs != [] {
      var n := |xs| - 1;
      SumBounds(xs[..n], lo, hi);
      assert xs[n] == xs[|xs| - 1];
    }
  }

  lemma DivBounds(a: real, n: real, lo: real, hi: real)
    requires n > 0.0 && n * lo <= a <= n * hi
    ensures lo <= a / n <= hi
  {
    var q := a / n;
    assert q * n == a;
    assert (q - lo) * n >= 0.0;
    assert (hi - q) * n >= 0.0;
  }

  /** An average lies between the smallest and the largest value. */
  lemma AverageBounds(xs: seq<real>, lo: real, hi: real)
    requires xs != []
    requires forall j :: 0 <= j < |xs| ==> lo <= xs[j] <= hi
    ensures lo <= Average(xs) <= hi
  {
    SumBounds(xs, lo, hi);
    DivBounds(Sum(xs), |xs| as real, lo, hi);
  }

  /** The mean of a comparison row lies between the smallest and the largest present
      entry. */
  lemma MeanBounds(keys: seq<string>, row: Obj, lo: real, hi: real)
    requires Averaged(keys, row) != []
    requires forall j :: 0 <= j < |Averaged(keys, row)| ==> lo <= Averaged(keys, row)[j] <= hi
    ensures lo <= Mean(keys, row) <= hi
  {
    AverageBounds(Averaged(keys, row), lo, hi);
  }
}
