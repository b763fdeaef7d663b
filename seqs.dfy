/** The optional value used for JavaScript's `null`/`undefined` and for holes in arrays. */
module Wrappers {
  datatype Option<+T> = None | Some(value: T)
}

/** Sequence helpers that stand for the JavaScript built-ins the dashboard relies on:
    `Array.prototype.includes`/`indexOf`, and a `Set` (or a `push` guarded by
    `includes`) that keeps its elements in insertion order. */
module Seqs {
  import opened Wrappers

  /** No element occurs twice. */
  predicate Distinct<T(==)>(s: seq<T>) {
    forall i, j :: 0 <= i < j < |s| ==> s[i] != s[j]
  }

  /** `s.indexOf(x)`: the position of the first occurrence of `x`, or -1. */
  function IndexOf<T(==)>(s: seq<T>, x: T): (i: int)
    ensures -1 <= i < |s|
    ensures i == -1 <==> x !in s
    ensures 0 <= i ==> s[i] == x && x !in s[..i]
  {
    if |s| == 0 then -1
    else if s[0] == x then 0
    else
      var j := IndexOf(s[1..], x);
      assert 0 <= j ==> s[..j + 1] == [s[0]] + s[1..][..j];
      if j == -1 then -1 else j + 1
  }

  /** In a sequence without duplicates, `indexOf` finds the position an element is at. */
  lemma IndexOfDistinct<T>(s: seq<T>, i: nat)
    requires Distinct(s) && i < |s|
    ensures IndexOf(s, s[i]) == i
  {
    var k := IndexOf(s, s[i]);
    assert forall m :: 0 <= m < k ==> s[..k][m] == s[m];
  }

  /** The first occurrence of an element of a prefix is found in the prefix. */
  lemma IndexOfPrefix<T>(s: seq<T>, n: nat, x: T)
    requires n <= |s| && x in s[..n]
    ensures IndexOf(s, x) == IndexOf(s[..n], x)
  {
    var i, k := IndexOf(s, x), IndexOf(s[..n], x);
    assert forall m :: 0 <= m < n ==> s[..n][m] == s[m];
    assert forall m :: 0 <= m < i ==> s[..i][m] == s[m];
    assert forall m :: 0 <= m < k ==> s[..n][..k][m] == s[m];
  }

  /** `if (!s.includes(x)) s.push(x)`, and `Set.prototype.add` on an insertion-ordered set. */
  function AppendNew<T(==,!new)>(s: seq<T>, x: T): (r: seq<T>)
    ensures forall y :: y in r <==> y in s || y == x
    ensures Distinct(s) ==> Distinct(r)
    ensures |s| <= |r| <= |s| + 1 && r[..|s|] == s
  {
    if x in s then s else s + [x]
  }

  /** The distinct elements of `s`, each where it was first seen. */
  function Dedup<T(==,!new)>(s: seq<T>): (r: seq<T>)
    ensures Distinct(r)
    ensures forall x :: x in r <==> x in s
  {
    if s == [] then [] else AppendNew(Dedup(s[..|s| - 1]), s[|s| - 1])
  }

  /** Seeing one more element appends it when it is new. */
  lemma DedupSnoc<T(!new)>(s: seq<T>, x: T)
    ensures Dedup(s + [x]) == AppendNew(Dedup(s), x)
  {
    assert (s + [x])[..|s|] == s;
  }

  /** `Dedup` keeps first-seen order: an element listed earlier in `Dedup(s)` occurs
      earlier in `s` for the first time. */
  lemma {:induction false} DedupFirstSeen<T(!new)>(s: seq<T>)
    ensures forall i, j :: 0 <= i < j < |Dedup(s)| ==> IndexOf(s, Dedup(s)[i]) < IndexOf(s, Dedup(s)[j])
  {
    if s != [] {
      var n := |s| - 1;
      var p := Dedup(s[..n]);
      DedupFirstSeen(s[..n]);
      assert s[..n] + [s[n]] == s;
      forall i, j | 0 <= i < j < |Dedup(s)|
        ensures IndexOf(s, Dedup(s)[i]) < IndexOf(s, Dedup(s)[j])
      {
        assert Dedup(s)[i] == p[i];
        assert p[i] in s[..n];
        IndexOfPrefix(s, n, p[i]);
        if j < |p| {
          assert Dedup(s)[j] == p[j];
          IndexOfPrefix(s, n, p[j]);
        } else {
          assert Dedup(s)[j] == s[n] && s[n] !in s[..n];
          assert forall m :: 0 <= m < n ==> s[..n][m] == s[m];
          assert IndexOf(s, s[n]) == n;
        }
      }
    }
  }

  /** The values `f` yields for the elements of `xs`, in order; elements for which it
      yields `None` are skipped. */
  function FilterMap<A, B>(xs: seq<A>, f: A -> Option<B>): seq<B> {
    if xs == [] then []
    else FilterMap(xs[..|xs| - 1], f) + match f(xs[|xs| - 1]) case None => [] case Some(y) => [y]
  }

  /** `y` is kept exactly when `f` yields it for some element. */
  lemma {:induction false} FilterMapMember<A, B>(xs: seq<A>, f: A -> Option<B>, y: B)
    ensures y in FilterMap(xs, f) <==> exists i :: 0 <= i < |xs| && f(xs[i]) == Some(y)
  {
    if xs != [] {
      var n := |xs| - 1;
      var last: seq<B> := match f(xs[n]) case None => [] case Some(z) => [z];
      assert FilterMap(xs, f) == FilterMap(xs[..n], f) + last;
      FilterMapMember(xs[..n], f, y);
      assert forall i :: 0 <= i < n ==> xs[..n][i] == xs[i];
      assert y in last <==> f(xs[n]) == Some(y);
    }
  }

  lemma {:induction false} FilterMapAppend<A, B>(xs: seq<A>, ys: seq<A>, f: A -> Option<B>)
    ensures FilterMap(xs + ys, f) == FilterMap(xs, f) + FilterMap(ys, f)
    decreases |ys|
  {
    if ys == [] {
      assert xs + ys == xs;
    } else {
      var n := |ys| - 1;
      var zs := xs + ys;
      var last: seq<B> := match f(ys[n]) case None => [] case Some(y) => [y];
      assert zs[..|zs| - 1] == xs + ys[..n];
      assert zs[|zs| - 1] == ys[n];
      FilterMapAppend(xs, ys[..n], f);
      calc {
        FilterMap(zs, f);
        FilterMap(xs + ys[..n], f) + last;
        (FilterMap(xs, f) + FilterMap(ys[..n], f)) + last;
        FilterMap(xs, f) + (FilterMap(ys[..n], f) + last);
        FilterMap(xs, f) + FilterMap(ys, f);
      }
    }
  }
}

/** `Array.prototype.sort` with a comparator `(a, b) => key(b) - key(a)`: highest key
    first. The sort the standard requires since ES2019 is stable, so elements with equal
    keys keep their original relative order. */
module Sorting {
  import opened Seqs

  predicate SortedDesc<T>(s: seq<T>, key: T -> real) {
    forall i, j :: 0 <= i < j < |s| ==> key(s[i]) >= key(s[j])
  }

  /** The head of a sorted sequence stays in front of any rearrangement of its tail
      with an element of no greater key added. */
  lemma ConsSorted<T>(s: seq<T>, x: T, t: seq<T>, key: T -> real)
    requires SortedDesc(s, key) && s != [] && key(s[0]) >= key(x)
    requires SortedDesc(t, key) && multiset(t) == multiset(s[1..]) + multiset{x}
    ensures SortedDesc([s[0]] + t, key)
  {
    forall j | 0 <= j < |t|
      ensures key(s[0]) >= key(t[j])
    {
      assert t[j] in multiset(t);
      if t[j] != x {
        var m :| 0 <= m < |s[1..]| && s[1..][m] == t[j];
        assert s[m + 1] == t[j];
      }
    }
  }

  /** Places `x` after every element whose key is at least `key(x)`. */
  function Insert<T>(x: T, s: seq<T>, key: T -> real): (r: seq<T>)
    requires SortedDesc(s, key)
    ensures SortedDesc(r, key)
    ensures multiset(r) == multiset(s) + multiset{x}
    ensures |r| == |s| + 1
  {
    if s == [] then [x]
    else if key(s[0]) >= key(x) then
      assert s == [s[0]] + s[1..];
      var t := Insert(x, s[1..], key);
      ConsSorted(s, x, t, key);
      [s[0]] + t
    else [x] + s
  }

  /** A stable sort, highest key first. */
  function SortDesc<T>(s: seq<T>, key: T -> real): (r: seq<T>)
    ensures SortedDesc(r, key)
    ensures multiset(r) == multiset(s)
    ensures |r| == |s|
  {
    if s == [] then []
    else
      var n := |s| - 1;
      assert s == s[..n] + [s[n]];
      Insert(s[n], SortDesc(s[..n], key), key)
  }

  lemma {:induction false} InsertDistinct<T>(x: T, s: seq<T>, key: T -> real)
    requires SortedDesc(s, key) && Distinct(s) && x !in s
    ensures Distinct(Insert(x, s, key))
    decreases |s|
  {
    if s != [] && key(s[0]) >= key(x) {
      var t := Insert(x, s[1..], key);
      assert s == [s[0]] + s[1..];
      InsertDistinct(x, s[1..], key);
      assert multiset(t) == multiset(s[1..]) + multiset{x};
      assert s[0] !in multiset(t);
    }
  }

  /** Sorting a sequence without duplicates yields one without duplicates. */
  lemma {:induction false} SortDescDistinct<T>(s: seq<T>, key: T -> real)
    requires Distinct(s)
    ensures Distinct(SortDesc(s, key))
    decreases |s|
  {
    if s != [] {
      var n := |s| - 1;
      var p := s[..n];
      var q := SortDesc(p, key);
      assert SortDesc(s, key) == Insert(s[n], q, key);
      assert Distinct(p) by {
        assert forall i :: 0 <= i < n ==> p[i] == s[i];
      }
      SortDescDistinct(p, key);
      assert s[n] !in multiset(q) by {
        assert multiset(q) == multiset(p);
        assert s[n] !in p;
      }
      InsertDistinct(s[n], q, key);
    }
  }

  /** The elements whose key is `k`, in order. */
  function WithKey<T>(s: seq<T>, key: T -> real, k: real): seq<T> {
    if s == [] then []
    else (if key(s[0]) == k then [s[0]] else []) + WithKey(s[1..], key, k)
  }

  lemma WithKeyCons<T>(x: T, s: seq<T>, key: T -> real, k: real)
    ensures WithKey([x] + s, key, k) == (if key(x) == k then [x] else []) + WithKey(s, key, k)
  {
    assert ([x] + s)[1..] == s;
  }

  /** Looking at the last element: the elements of key `k` of a prefix, then possibly
      the last element. */
  lemma {:induction false} WithKeySnoc<T>(s: seq<T>, key: T -> real, k: real)
    requires s != []
    ensures WithKey(s, key, k) == WithKey(s[..|s| - 1], key, k) + (if key(s[|s| - 1]) == k then [s[|s| - 1]] else [])
    decreases |s|
  {
    var n := |s| - 1;
    if n == 0 {
      assert s[1..] == [] && s[..0] == [];
    } else {
      var h := if key(s[0]) == k then [s[0]] else [];
      var tail := if key(s[n]) == k then [s[n]] else [];
      WithKeySnoc(s[1..], key, k);
      assert s[1..][..n - 1] == s[..n][1..];
      assert s[..n][0] == s[0];
      calc {
        WithKey(s, key, k);
        h + WithKey(s[1..], key, k);
        h + (WithKey(s[..n][1..], key, k) + tail);
        (h + WithKey(s[..n][1..], key, k)) + tail;
        WithKey(s[..n], key, k) + tail;
      }
    }
  }

  /** No element of a sorted sequence has a key above that of its head. */
  lemma {:induction false} WithKeyAboveHead<T>(s: seq<T>, key: T -> real, k: real)
    requires SortedDesc(s, key) && s != [] && k > key(s[0])
    ensures WithKey(s, key, k) == []
    decreases |s|
  {
    if |s| > 1 {
      assert SortedDesc(s[1..], key) && k > key(s[1..][0]);
      WithKeyAboveHead(s[1..], key, k);
    } else {
      assert s[1..] == [];
    }
  }

  /** Inserting in front of a sorted sequence: every element after `x` has a lower key. */
  lemma WithKeyInsertFront<T>(x: T, s: seq<T>, key: T -> real, k: real)
    requires SortedDesc(s, key) && (s == [] || key(s[0]) < key(x))
    ensures WithKey(Insert(x, s, key), key, k) == WithKey(s, key, k) + (if key(x) == k then [x] else [])
  {
    WithKeyCons(x, s, key, k);
    if s != [] && key(x) == k {
      WithKeyAboveHead(s, key, k);
    }
  }

  lemma InsertBehind<T>(x: T, s: seq<T>, key: T -> real)
    requires SortedDesc(s, key) && s != [] && key(s[0]) >= key(x)
    ensures SortedDesc(s[1..], key)
    ensures Insert(x, s, key) == [s[0]] + Insert(x, s[1..], key)
  {
  }

  /** Putting the head of `u` in front of `t`, where `t` has the elements of key `k`
      of the tail of `u` followed by `tail`. */
  lemma WithKeyBehindHead<T>(t: seq<T>, u: seq<T>, key: T -> real, k: real, tail: seq<T>)
    requires u != [] && WithKey(t, key, k) == WithKey(u[1..], key, k) + tail
    ensures WithKey([u[0]] + t, key, k) == WithKey(u, key, k) + tail
  {
    var h := if key(u[0]) == k then [u[0]] else [];
    WithKeyCons(u[0], t, key, k);
    calc {
      WithKey([u[0]] + t, key, k);
      h + WithKey(t, key, k);
      h + (WithKey(u[1..], key, k) + tail);
      (h + WithKey(u[1..], key, k)) + tail;
      WithKey(u, key, k) + tail;
    }
  }

  /** Inserting behind the head, given the property for the tail. */
  lemma WithKeyInsertBehind<T>(x: T, s: seq<T>, key: T -> real, k: real)
    requires SortedDesc(s, key) && s != [] && key(s[0]) >= key(x)
    requires SortedDesc(s[1..], key)
    requires WithKey(Insert(x, s[1..], key), key, k) == WithKey(s[1..], key, k) + (if key(x) == k then [x] else [])
    ensures WithKey(Insert(x, s, key), key, k) == WithKey(s, key, k) + (if key(x) == k then [x] else [])
  {
    InsertBehind(x, s, key);
    WithKeyBehindHead(Insert(x, s[1..], key), s, key, k, if key(x) == k then [x] else []);
  }

  /** Inserting adds `x` behind the elements of its key already there. */
  lemma {:induction false} WithKeyInsert<T>(x: T, s: seq<T>, key: T -> real, k: real)
    requires SortedDesc(s, key)
    ensures WithKey(Insert(x, s, key), key, k) == WithKey(s, key, k) + (if key(x) == k then [x] else [])
    decreases |s|
  {
    if s != [] && key(s[0]) >= key(x) {
      assert SortedDesc(s[1..], key);
      WithKeyInsert(x, s[1..], key, k);
      WithKeyInsertBehind(x, s, key, k);
    } else {
      WithKeyInsertFront(x, s, key, k);
    }
  }

  /** The sort is stable: among elements with the same key the original order is kept. */
  lemma {:induction false} SortDescStable<T>(s: seq<T>, key: T -> real, k: real)
    ensures WithKey(SortDesc(s, key), key, k) == WithKey(s, key, k)
    decreases |s|
  {
    if s != [] {
      var n := |s| - 1;
      SortDescStable(s[..n], key, k);
      WithKeyInsert(s[n], SortDesc(s[..n], key), key, k);
      WithKeySnoc(s, key, k);
    }
  }
}
