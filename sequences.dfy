/** Filtering and the stable sort that JavaScript's `Array.prototype.filter`
    and `Array.prototype.sort` provide. Sorting is by an integer key, which is
    what every comparator in the modelled code computes (`a.start - b.start`,
    a priority rank difference). */
module Sequences {

  /** The elements of `s` that satisfy `p`, in their original order. */
  function Filter<T>(s: seq<T>, p: T -> bool): (r: seq<T>)
    ensures |r| <= |s|
    ensures forall i :: 0 <= i < |r| ==> r[i] in s
    ensures forall i :: 0 <= i < |s| && p(s[i]) ==> s[i] in r
    ensures forall i :: 0 <= i < |r| ==> p(r[i])
    ensures multiset(r) <= multiset(s)
  {
    if s == [] then []
    else
      assert s == [s[0]] + s[1..];
      if p(s[0]) then [s[0]] + Filter(s[1..], p)
      else Filter(s[1..], p)
  }

  /** Filtering keeps every passing element as often as it occurs, and no
      other element. */
  lemma {:induction false} FilterCount<T>(s: seq<T>, p: T -> bool, x: T)
    ensures multiset(Filter(s, p))[x] == if p(x) then multiset(s)[x] else 0
  {
    if s != [] {
      assert s == [s[0]] + s[1..];
      FilterCount(s[1..], p, x);
    }
  }

  /** Filtering a concatenation filters each part, keeping their order. */
  lemma {:induction false} FilterAppend<T>(a: seq<T>, b: seq<T>, p: T -> bool)
    ensures Filter(a + b, p) == Filter(a, p) + Filter(b, p)
  {
    if a == [] {
      assert a + b == b;
    } else {
      assert (a + b)[0] == a[0] && (a + b)[1..] == a[1..] + b;
      FilterAppend(a[1..], b, p);
    }
  }

  /** Filtering a non-empty sequence filters all but its last element, then that one. */
  lemma {:induction false} FilterSnoc<T>(s: seq<T>, p: T -> bool)
    requires s != []
    ensures Filter(s, p) == Filter(s[..|s| - 1], p) + (if p(s[|s| - 1]) then [s[|s| - 1]] else [])
  {
    if |s| == 1 {
      assert s[1..] == [] && s[..0] == [];
    } else {
      var tail := s[1..];
      FilterSnoc(tail, p);
      assert tail[..|tail| - 1] == s[..|s| - 1][1..];
      assert s[..|s| - 1][0] == s[0];
    }
  }

  /** A filter that every element passes changes nothing. */
  lemma {:induction false} FilterAll<T>(s: seq<T>, p: T -> bool)
    requires forall i :: 0 <= i < |s| ==> p(s[i])
    ensures Filter(s, p) == s
  {
    if s != [] {
      FilterAll(s[1..], p);
    }
  }

  ghost predicate SortedBy<T>(s: seq<T>, key: T -> int) {
    forall i, j :: 0 <= i < j < |s| ==> key(s[i]) <= key(s[j])
  }

  /** Inserts `x` before the first element whose key is not smaller than its
      own, so that `x` stays ahead of the elements with an equal key. */
  function Insert<T>(x: T, t: seq<T>, key: T -> int): (r: seq<T>)
    ensures multiset(r) == multiset(t) + multiset{x}
    ensures |r| == |t| + 1
  {
    if t == [] || key(x) <= key(t[0]) then [x] + t
    else
      assert t == [t[0]] + t[1..];
      [t[0]] + Insert(x, t[1..], key)
  }

  /** Stable insertion sort by `key`. */
  function SortBy<T>(s: seq<T>, key: T -> int): (r: seq<T>)
    ensures multiset(r) == multiset(s)
    ensures |r| == |s|
  {
    if s == [] then []
    else
      assert s == [s[0]] + s[1..];
      Insert(s[0], SortBy(s[1..], key), key)
  }

  /** The subsequence of elements whose key is `k`: what a stable sort keeps in order. */
  function WithKey<T>(s: seq<T>, key: T -> int, k: int): (r: seq<T>)
    ensures forall i :: 0 <= i < |r| ==> key(r[i]) == k
    ensures forall i :: 0 <= i < |r| ==> r[i] in s
  {
    if s == [] then []
    else if key(s[0]) == k then [s[0]] + WithKey(s[1..], key, k)
    else WithKey(s[1..], key, k)
  }

  lemma {:induction false} InsertSorted<T>(x: T, t: seq<T>, key: T -> int)
    requires SortedBy(t, key)
    ensures SortedBy(Insert(x, t, key), key)
  {
    var r := Insert(x, t, key);
    if t == [] || key(x) <= key(t[0]) {
      assert r == [x] + t;
      forall i, j | 0 <= i < j < |r| ensures key(r[i]) <= key(r[j]) {
        if i == 0 {
          assert key(t[0]) <= key(t[j - 1]);
        }
      }
    } else {
      var rest := Insert(x, t[1..], key);
      assert SortedBy(t[1..], key);
      InsertSorted(x, t[1..], key);
      assert r == [t[0]] + rest;
      forall j | 0 <= j < |rest| ensures key(t[0]) <= key(rest[j]) {
        assert rest[j] in multiset(rest);
        assert rest[j] == x || rest[j] in multiset(t[1..]);
        if rest[j] != x {
          var m :| 0 <= m < |t[1..]| && t[1..][m] == rest[j];
          assert key(t[0]) <= key(t[m + 1]);
        }
      }
    }
  }

  /** The result of SortBy is ordered by key. */
  lemma {:induction false} SortBySorted<T>(s: seq<T>, key: T -> int)
    ensures SortedBy(SortBy(s, key), key)
  {
    if s != [] {
      SortBySorted(s[1..], key);
      InsertSorted(s[0], SortBy(s[1..], key), key);
    }
  }

  lemma {:induction false} WithKeyAppend<T>(a: seq<T>, b: seq<T>, key: T -> int, k: int)
    ensures WithKey(a + b, key, k) == WithKey(a, key, k) + WithKey(b, key, k)
  {
    if a != [] {
      assert (a + b)[0] == a[0] && (a + b)[1..] == a[1..] + b;
      WithKeyAppend(a[1..], b, key, k);
    } else {
      assert a + b == b;
    }
  }

  lemma {:induction false} InsertStable<T>(x: T, t: seq<T>, key: T -> int, k: int)
    ensures WithKey(Insert(x, t, key), key, k) == WithKey([x] + t, key, k)
  {
    if t == [] || key(x) <= key(t[0]) {
    } else {
      var rest := Insert(x, t[1..], key);
      assert Insert(x, t, key) == [t[0]] + rest;
      InsertStable(x, t[1..], key, k);
      var wx, wh, wt := WithKey([x], key, k), WithKey([t[0]], key, k), WithKey(t[1..], key, k);
      WithKeyAppend([t[0]], rest, key, k);
      WithKeyAppend([x], t[1..], key, k);
      assert WithKey(Insert(x, t, key), key, k) == wh + (wx + wt);
      assert [t[0]] + t[1..] == t;
      WithKeyAppend([t[0]], t[1..], key, k);
      WithKeyAppend([x], t, key, k);
      assert WithKey([x] + t, key, k) == wx + (wh + wt);
      // x and t[0] have different keys, so at most one of them is kept
      assert wx == [] || wh == [];
    }
  }

  /** SortBy is stable: the elements sharing any one key keep their relative order. */
  lemma {:induction false} SortByStable<T>(s: seq<T>, key: T -> int, k: int)
    ensures WithKey(SortBy(s, key), key, k) == WithKey(s, key, k)
  {
    if s != [] {
      SortByStable(s[1..], key, k);
      InsertStable(s[0], SortBy(s[1..], key), key, k);
      WithKeyAppend([s[0]], SortBy(s[1..], key), key, k);
      WithKeyAppend([s[0]], s[1..], key, k);
      assert [s[0]] + s[1..] == s;
    }
  }

  /** `f` applied to each element of `s`, the results concatenated in order:
      a loop that pushes zero or more outputs per element. */
  function FlatMap<T, U>(s: seq<T>, f: T -> seq<U>): seq<U> {
    if s == [] then [] else FlatMap(s[..|s| - 1], f) + f(s[|s| - 1])
  }

  lemma FlatMapSnoc<T, U>(s: seq<T>, i: nat, f: T -> seq<U>)
    requires i < |s|
    ensures FlatMap(s[..i + 1], f) == FlatMap(s[..i], f) + f(s[i])
  {
    assert s[..i + 1][..i] == s[..i];
  }

  /** A flat-map in which each element yields one output when `p` holds of it
      and none otherwise lists, in order, the one output of each element that
      passes `p`. */
  lemma {:induction false} FlatMapAtMostOne<T, U>(s: seq<T>, f: T -> seq<U>, p: T -> bool)
    requires forall t :: |f(t)| == if p(t) then 1 else 0
    ensures |FlatMap(s, f)| == |Filter(s, p)| <= |s|
    ensures forall i :: 0 <= i < |Filter(s, p)| ==> FlatMap(s, f)[i] == f(Filter(s, p)[i])[0]
  {
    if s == [] {
      assert FlatMap(s, f) == [] && Filter(s, p) == [];
    } else {
      var init, t := s[..|s| - 1], s[|s| - 1];
      FlatMapAtMostOne(init, f, p);
      FilterSnoc(s, p);
      assert FlatMap(s, f) == FlatMap(init, f) + f(t);
    }
  }

  /** Every output comes from some element. */
  lemma {:induction false} FlatMapSources<T, U>(s: seq<T>, f: T -> seq<U>)
    ensures forall k :: 0 <= k < |FlatMap(s, f)| ==> exists j :: 0 <= j < |s| && FlatMap(s, f)[k] in f(s[j])
  {
    if s != [] {
      var init := s[..|s| - 1];
      FlatMapSources(init, f);
      var r := FlatMap(s, f);
      var prev := FlatMap(init, f);
      assert r == prev + f(s[|s| - 1]);
      forall k | 0 <= k < |r| ensures exists j :: 0 <= j < |s| && r[k] in f(s[j]) {
        if k < |prev| {
          var j :| 0 <= j < |init| && prev[k] in f(init[j]);
          assert init[j] == s[j] && r[k] == prev[k];
        } else {
          assert r[k] == f(s[|s| - 1])[k - |prev|];
        }
      }
    } else {
      assert FlatMap(s, f) == [];
    }
  }

  /** Every output of every element is kept. */
  lemma {:induction false} FlatMapCovers<T, U>(s: seq<T>, f: T -> seq<U>)
    ensures forall j, x :: 0 <= j < |s| && x in f(s[j]) ==> x in FlatMap(s, f)
  {
    if s != [] {
      var init := s[..|s| - 1];
      FlatMapCovers(init, f);
      var r := FlatMap(s, f);
      assert r == FlatMap(init, f) + f(s[|s| - 1]);
      forall j, x | 0 <= j < |s| && x in f(s[j]) ensures x in r {
        if j < |init| {
          assert init[j] == s[j];
        }
      }
    }
  }
}
