/** The candidate selection (src/App.jsx): the toggle of the candidate buttons and the
    defaults chosen once the data has loaded. */
module Selection {
  import opened Wrappers
  import opened Seqs
  import opened Indexer

  /** `selected.filter(c => c !== candidate)`. */
  function Without(s: seq<string>, c: string): (r: seq<string>)
    ensures c !in r
    ensures forall x :: x != c ==> multiset(r)[x] == multiset(s)[x]
    ensures c !in s ==> r == s
  {
    if s == [] then []
    else
      var n := |s| - 1;
      assert s == s[..n] + [s[n]];
      Without(s[..n], c) + (if s[n] != c then [s[n]] else [])
  }

  /** Removing keeps the order of what stays: it distributes over concatenation. */
  lemma {:induction false} WithoutAppend(a: seq<string>, b: seq<string>, c: string)
    ensures Without(a + b, c) == Without(a, c) + Without(b, c)
    decreases |b|
  {
    if b == [] {
      assert a + b == a;
    } else {
      var n := |b| - 1;
      assert (a + b)[..|a + b| - 1] == a + b[..n];
      WithoutAppend(a, b[..n], c);
    }
  }

  /** Removing keeps a list without duplicates free of them. */
  lemma {:induction false} WithoutDistinct(s: seq<string>, c: string)
    requires Distinct(s)
    ensures Distinct(Without(s, c))
  {
    if s != [] {
      var n := |s| - 1;
      assert Distinct(s[..n]) by {
        assert forall i :: 0 <= i < n ==> s[..n][i] == s[i];
      }
      WithoutDistinct(s[..n], c);
      assert s[n] !in s[..n];
      assert s[n] !in multiset(Without(s[..n], c)) by {
        assert multiset(s[..n])[s[n]] == 0;
      }
    }
  }

  /** A button click: a selected candidate is removed (every occurrence of it), any
      other candidate is appended at the end. */
  function Toggle(selected: seq<string>, c: string): (r: seq<string>)
    ensures c in r <==> c !in selected
    ensures c !in selected ==> r == selected + [c]
    ensures forall x :: x != c ==> multiset(r)[x] == multiset(selected)[x]
    ensures Distinct(selected) ==> Distinct(r)
  {
    if c in selected then
      if Distinct(selected) then WithoutDistinct(selected, c); Without(selected, c)
      else Without(selected, c)
    else
      assert Distinct(selected) ==> Distinct(selected + [c]);
      selected + [c]
  }

  /** Clicking an unselected candidate twice restores the selection. */
  lemma ToggleTwiceAbsent(selected: seq<string>, c: string)
    requires c !in selected
    ensures Toggle(Toggle(selected, c), c) == selected
  {
    WithoutAppend(selected, [c], c);
    assert Without([c], c) == [] by {
      assert [c][..0] == [];
    }
  }

  /** Clicking a selected candidate twice moves it to the end. */
  lemma ToggleTwicePresent(selected: seq<string>, c: string)
    requires c in selected
    ensures Toggle(Toggle(selected, c), c) == Without(selected, c) + [c]
  {
  }

  // ---------------------------------------------------------------------------
  // Defaults

  /** The candidate names of the pollsters `keys`, pollster after pollster, each in
      the order of its own candidates (`Object.values`, then `Object.keys`). */
  function AllCandidates(d: Dataset, keys: seq<string>): seq<string> {
    if keys == [] then []
    else AllCandidates(d, keys[..|keys| - 1]) + SeriesFor(d, keys[|keys| - 1]).candidates
  }

  lemma AllCandidatesSnoc(d: Dataset, keys: seq<string>, i: nat)
    requires i < |keys|
    ensures AllCandidates(d, keys[..i + 1]) == AllCandidates(d, keys[..i]) + SeriesFor(d, keys[i]).candidates
  {
    assert keys[..i + 1][..i] == keys[..i];
  }

  lemma ExtendPrefix(a: seq<string>, s: seq<string>, j: nat)
    requires j < |s|
    ensures a + s[..j + 1] == (a + s[..j]) + [s[j]]
  {
    assert s[..j + 1] == s[..j] + [s[j]];
  }

  /** `s.slice(0, n)`. */
  function Take(s: seq<string>, n: nat): (r: seq<string>)
    ensures |r| == if |s| <= n then |s| else n
    ensures r == s[..|r|]
  {
    if |s| <= n then s else s[..n]
  }

  /** The default selection: the first five distinct candidates across pollsters. */
  function DefaultCandidates(d: Dataset): seq<string> {
    Take(Dedup(AllCandidates(d, d.keys)), 5)
  }

  /** `!selectedPollster`: no pollster chosen yet (a name is never empty). */
  predicate Unset(pollster: Option<string>) {
    pollster.None? || pollster.value == ""
  }

  /** The effect run when the data arrives: with no pollster chosen the first one is,
      and with no candidate selected the first five distinct candidates met while
      going through the pollsters' candidate lists are. */
  method InitialSelection(d: Dataset, selectedPollster: Option<string>, selected: seq<string>)
    returns (pollster: Option<string>, candidates: seq<string>)
    ensures pollster == if d.keys != [] && Unset(selectedPollster) then Some(d.keys[0]) else selectedPollster
    ensures candidates == if selected == [] then DefaultCandidates(d) else selected
  {
    pollster := selectedPollster;
    if |d.keys| > 0 && Unset(selectedPollster) {
      pollster := Some(d.keys[0]);
    }
    candidates := selected;
    if |selected| == 0 {
      var seen: seq<string> := [];
      ghost var met: seq<string> := [];
      for i := 0 to |d.keys|
        invariant met == AllCandidates(d, d.keys[..i]) && seen == Dedup(met)
      {
        var cs := SeriesFor(d, d.keys[i]).candidates;
        AllCandidatesSnoc(d, d.keys, i);
        ghost var before := met;
        assert before + cs[..0] == before;
        for j := 0 to |cs|
          invariant met == before + cs[..j] && seen == Dedup(met)
        {
          DedupSnoc(met, cs[j]);
          ExtendPrefix(before, cs, j);
          met := met + [cs[j]];
          if cs[j] !in seen {
            seen := seen + [cs[j]];
          }
        }
        assert cs[..|cs|] == cs;
      }
      assert d.keys[..|d.keys|] == d.keys;
      candidates := Take(seen, 5);
    }
  }

  lemma {:induction false} AllCandidatesMember(d: Dataset, keys: seq<string>, c: string)
    ensures c in AllCandidates(d, keys) <==> exists k :: k in keys && c in SeriesFor(d, k).candidates
  {
    if keys != [] {
      var n := |keys| - 1;
      AllCandidatesMember(d, keys[..n], c);
      assert keys == keys[..n] + [keys[n]];
    }
  }

  /** The default selection is the first five distinct candidates met (all of them
      when there are fewer): none twice, each a candidate of some pollster, in the
      order in which they were first met; when there are at most five candidates in
      all, it holds every one of them. */
  lemma DefaultCandidatesSpec(d: Dataset)
    ensures var r := DefaultCandidates(d);
      var u := Dedup(AllCandidates(d, d.keys));
      && |r| == (if |u| <= 5 then |u| else 5) && r == u[..|r|] && Distinct(r)
      && (forall c :: c in r ==> exists k :: k in d.keys && c in SeriesFor(d, k).candidates)
      && (forall i, j :: 0 <= i < j < |r| ==>
            IndexOf(AllCandidates(d, d.keys), r[i]) < IndexOf(AllCandidates(d, d.keys), r[j]))
      && (|Dedup(AllCandidates(d, d.keys))| <= 5 ==>
            forall k, c :: k in d.keys && c in SeriesFor(d, k).candidates ==> c in r)
  {
    var all := AllCandidates(d, d.keys);
    var u := Dedup(all);
    var r := DefaultCandidates(d);
    assert r == u[..|r|];
    assert forall i :: 0 <= i < |r| ==> r[i] == u[i];
    DedupFirstSeen(all);
    forall c | c in r
      ensures exists k :: k in d.keys && c in SeriesFor(d, k).candidates
    {
      AllCandidatesMember(d, d.keys, c);
    }
    forall k, c | k in d.keys && c in SeriesFor(d, k).candidates && |u| <= 5
      ensures c in r
    {
      AllCandidatesMember(d, d.keys, c);
    }
  }
}
