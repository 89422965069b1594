/**
 * Sequence operations the SQL statements and the React list updates are
 * built from: `WHERE`-style filtering (`Array.prototype.filter`),
 * `ORDER BY … DESC`, and summing (`Array.prototype.reduce`).
 */
module Sequences {

  // -------------------------------------------------------------- filter

  /** The elements of `s` that satisfy `keep`, in their original order. */
  function Filter<T(==)>(s: seq<T>, keep: T -> bool): (r: seq<T>)
    ensures |r| <= |s|
    ensures forall i :: 0 <= i < |r| ==> keep(r[i]) && r[i] in s
    ensures forall i :: 0 <= i < |s| && keep(s[i]) ==> s[i] in r
    ensures multiset(r) <= multiset(s)
  {
    if s == [] then []
    else
      var rest := Filter(s[1..], keep);
      assert s == [s[0]] + s[1..];
      FilterStep(s[0], s[1..], rest, keep);
      (if keep(s[0]) then [s[0]] else []) + rest
  }

  /** The contract of `Filter` carries over from the tail to the whole sequence. */
  lemma FilterStep<T>(x: T, t: seq<T>, rest: seq<T>, keep: T -> bool)
    requires |rest| <= |t|
    requires forall i :: 0 <= i < |rest| ==> keep(rest[i]) && rest[i] in t
    requires forall i :: 0 <= i < |t| && keep(t[i]) ==> t[i] in rest
    requires multiset(rest) <= multiset(t)
    ensures var r, s := (if keep(x) then [x] else []) + rest, [x] + t;
      |r| <= |s| &&
      (forall i :: 0 <= i < |r| ==> keep(r[i]) && r[i] in s) &&
      (forall i :: 0 <= i < |s| && keep(s[i]) ==> s[i] in r) &&
      multiset(r) <= multiset(s)
  {
    var r, s := (if keep(x) then [x] else []) + rest, [x] + t;
    var h := |r| - |rest|;
    forall i | 0 <= i < |r| ensures keep(r[i]) && r[i] in s {
      if i >= h {
        assert r[i] == rest[i - h];
      }
    }
    forall i | 0 <= i < |s| && keep(s[i]) ensures s[i] in r {
      if i > 0 {
        assert s[i] == t[i - 1];
      }
    }
    assert multiset(s) == multiset{x} + multiset(t);
  }

  /** Filtering distributes over concatenation: the kept elements keep their relative order. */
  lemma {:induction false} FilterAppend<T>(s: seq<T>, t: seq<T>, keep: T -> bool)
    ensures Filter(s + t, keep) == Filter(s, keep) + Filter(t, keep)
  {
    if s == [] {
      assert s + t == t;
    } else {
      assert (s + t)[1..] == s[1..] + t;
      FilterAppend(s[1..], t, keep);
    }
  }

  /** One step of the filter. */
  lemma FilterCons<T>(x: T, t: seq<T>, keep: T -> bool)
    ensures Filter([x] + t, keep) == if keep(x) then [x] + Filter(t, keep) else Filter(t, keep)
  {
    assert ([x] + t)[1..] == t;
  }

  /** A filter that rejects nothing is the identity. */
  lemma {:induction false} FilterKeepsAll<T>(s: seq<T>, keep: T -> bool)
    requires forall i :: 0 <= i < |s| ==> keep(s[i])
    ensures Filter(s, keep) == s
  {
    if s != [] {
      FilterKeepsAll(s[1..], keep);
    }
  }

  /** A filter that rejects everything gives the empty sequence. */
  lemma {:induction false} FilterKeepsNone<T>(s: seq<T>, keep: T -> bool)
    requires forall i :: 0 <= i < |s| ==> !keep(s[i])
    ensures Filter(s, keep) == []
  {
    if s != [] {
      FilterKeepsNone(s[1..], keep);
    }
  }

  /**
   * Filtering by a stronger condition after a weaker one is filtering by the
   * stronger one alone. With `narrow == wide` this is idempotence.
   */
  lemma {:induction false} FilterNarrows<T>(s: seq<T>, wide: T -> bool, narrow: T -> bool)
    requires forall x :: narrow(x) ==> wide(x)
    ensures Filter(Filter(s, wide), narrow) == Filter(s, narrow)
  {
    if s != [] {
      var t := s[1..];
      var w := Filter(t, wide);
      FilterNarrows(t, wide, narrow);
      if wide(s[0]) {
        var sw := [s[0]] + w;
        assert Filter(s, wide) == sw;
        assert sw[1..] == w;
      } else {
        assert Filter(s, wide) == w;
      }
    }
  }

  /** An element survives a filter exactly when it was there and passes. */
  lemma FilterMembers<T>(s: seq<T>, keep: T -> bool)
    ensures forall x :: x in Filter(s, keep) <==> x in s && keep(x)
  {
    var r := Filter(s, keep);
    forall x ensures x in r <==> x in s && keep(x) {
      if x in r {
        var i :| 0 <= i < |r| && r[i] == x;
      }
      if x in s && keep(x) {
        var i :| 0 <= i < |s| && s[i] == x;
      }
    }
  }

  /** Two conditions that never hold together split the length of the filter by either. */
  lemma {:induction false} FilterSplitCount<T>(s: seq<T>, either: T -> bool, p: T -> bool, q: T -> bool)
    requires forall x :: either(x) <==> p(x) || q(x)
    requires forall x :: !(p(x) && q(x))
    ensures |Filter(s, either)| == |Filter(s, p)| + |Filter(s, q)|
  {
    if s != [] {
      FilterSplitCount(s[1..], either, p, q);
    }
  }

  /** `Array.prototype.map` / a `foreach` that builds one output row per input row. */
  function Map<T, U>(s: seq<T>, f: T -> U): (r: seq<U>)
    ensures |r| == |s|
    ensures forall i :: 0 <= i < |s| ==> r[i] == f(s[i])
  {
    seq(|s|, i requires 0 <= i < |s| => f(s[i]))
  }

  lemma MapCons<T, U>(x: T, t: seq<T>, f: T -> U)
    ensures Map([x] + t, f) == [f(x)] + Map(t, f)
  {
    var l, r := Map([x] + t, f), [f(x)] + Map(t, f);
    forall i | 0 <= i < |l| ensures l[i] == r[i] {
      if i > 0 {
        assert ([x] + t)[i] == t[i - 1];
      }
    }
  }

  /** No two elements share a key. */
  predicate UniqueBy<T, K(==)>(s: seq<T>, key: T -> K) {
    forall i, j :: 0 <= i < j < |s| ==> key(s[i]) != key(s[j])
  }

  /** A filter keeps a subsequence, so distinct keys stay distinct. */
  lemma {:induction false} FilterKeepsUnique<T, K>(s: seq<T>, keep: T -> bool, key: T -> K)
    requires UniqueBy(s, key)
    ensures UniqueBy(Filter(s, keep), key)
  {
    if s != [] {
      var rest := s[1..];
      UniqueTail(s, key);
      FilterKeepsUnique(rest, keep, key);
      var f := Filter(rest, keep);
      assert s == [s[0]] + rest;
      FilterCons(s[0], rest, keep);
      if keep(s[0]) {
        forall k | 0 <= k < |f| ensures key(f[k]) != key(s[0]) {
          var j :| 0 <= j < |rest| && rest[j] == f[k];
          assert s[j + 1] == f[k];
        }
        UniqueCons(s[0], f, key);
      }
    }
  }

  lemma UniqueTail<T, K>(s: seq<T>, key: T -> K)
    requires s != [] && UniqueBy(s, key)
    ensures UniqueBy(s[1..], key)
  {
    var rest := s[1..];
    forall i, j | 0 <= i < j < |rest| ensures key(rest[i]) != key(rest[j]) {
      assert rest[i] == s[i + 1] && rest[j] == s[j + 1];
    }
  }

  lemma UniqueCons<T, K>(x: T, f: seq<T>, key: T -> K)
    requires UniqueBy(f, key)
    requires forall k :: 0 <= k < |f| ==> key(f[k]) != key(x)
    ensures UniqueBy([x] + f, key)
  {
    var g := [x] + f;
    forall i, j | 0 <= i < j < |g| ensures key(g[i]) != key(g[j]) {
      assert g[j] == f[j - 1];
      if i > 0 {
        assert g[i] == f[i - 1];
      }
    }
  }

  /** Two filters can be applied in either order. */
  lemma {:induction false} FilterCommutes<T>(s: seq<T>, p: T -> bool, q: T -> bool)
    ensures Filter(Filter(s, p), q) == Filter(Filter(s, q), p)
  {
    if s != [] {
      var x, t := s[0], s[1..];
      assert s == [x] + t;
      FilterCommutes(t, p, q);
      FilterCons(x, t, p);
      FilterCons(x, t, q);
      if p(x) {
        FilterCons(x, Filter(t, p), q);
      }
      if q(x) {
        FilterCons(x, Filter(t, q), p);
      }
    }
  }

  /** Mapping after filtering is filtering after mapping, when `f` carries what `p` looks at. */
  lemma {:induction false} MapFilter<T, U>(s: seq<T>, p: T -> bool, f: T -> U, q: U -> bool)
    requires forall x :: p(x) == q(f(x))
    ensures Map(Filter(s, p), f) == Filter(Map(s, f), q)
  {
    if s != [] {
      var x, t := s[0], s[1..];
      assert s == [x] + t;
      MapFilter(t, p, f, q);
      FilterCons(x, t, p);
      MapCons(x, t, f);
      FilterCons(f(x), Map(t, f), q);
      if p(x) {
        MapCons(x, Filter(t, p), f);
      }
    }
  }

  /** `a` is `b` with some elements left out, the rest in their order. */
  predicate Subsequence<T(==)>(a: seq<T>, b: seq<T>)
    decreases |b|
  {
    if a == [] then true
    else if b == [] then false
    else (a[0] == b[0] && Subsequence(a[1..], b[1..])) || Subsequence(a, b[1..])
  }

  /** What a filter keeps is a subsequence of what it was given. */
  lemma {:induction false} FilterIsSubsequence<T>(s: seq<T>, keep: T -> bool)
    ensures Subsequence(Filter(s, keep), s)
  {
    if s != [] {
      var x, t := s[0], s[1..];
      assert s == [x] + t;
      FilterIsSubsequence(t, keep);
      FilterCons(x, t, keep);
      var rest := Filter(t, keep);
      if keep(x) {
        assert ([x] + rest)[0] == x && ([x] + rest)[1..] == rest;
      } else if rest != [] {
        assert Subsequence(rest, s);
      }
    }
  }

  // ---------------------------------------------------------------- order

  /** Non-increasing by `key`: newest first when `key` is a timestamp. */
  predicate SortedDesc<T>(s: seq<T>, key: T -> int) {
    forall i, j :: 0 <= i < j < |s| ==> key(s[i]) >= key(s[j])
  }

  function Insert<T(==)>(x: T, s: seq<T>, key: T -> int): (r: seq<T>)
    requires SortedDesc(s, key)
    ensures |r| == |s| + 1
    ensures multiset(r) == multiset(s) + multiset{x}
    ensures SortedDesc(r, key)
  {
    if s == [] then [x]
    else if key(x) >= key(s[0]) then [x] + s
    else
      var rest := Insert(x, s[1..], key);
      assert s == [s[0]] + s[1..];
      assert forall k :: 0 <= k < |rest| ==> key(s[0]) >= key(rest[k]) by {
        forall k | 0 <= k < |rest| ensures key(s[0]) >= key(rest[k]) {
          assert rest[k] in multiset(rest);
          if rest[k] != x {
            assert rest[k] in multiset(s[1..]);
            var j :| 0 <= j < |s[1..]| && s[1..][j] == rest[k];
            assert s[j + 1] == rest[k];
          }
        }
      }
      [s[0]] + rest
  }

  /**
   * `ORDER BY key DESC`: a permutation of `s`, non-increasing by `key`. Which
   * of several equal-keyed rows comes first is the model's choice (SQL leaves
   * it open); every property stated about it holds whatever the choice.
   */
  function SortDesc<T(==)>(s: seq<T>, key: T -> int): (r: seq<T>)
    ensures |r| == |s|
    ensures multiset(r) == multiset(s)
    ensures SortedDesc(r, key)
  {
    if s == [] then []
    else
      assert s == [s[0]] + s[1..];
      Insert(s[0], SortDesc(s[1..], key), key)
  }

  /** Sorting neither adds nor drops elements. */
  lemma SortDescMembers<T>(s: seq<T>, key: T -> int)
    ensures forall x :: x in SortDesc(s, key) <==> x in s
  {
    var r := SortDesc(s, key);
    forall x ensures x in r <==> x in s {
      assert x in r <==> x in multiset(r);
      assert x in s <==> x in multiset(s);
    }
  }

  /** `[x] + t` is sorted when `t` is and `x` comes first by key. */
  lemma SortedCons<T>(x: T, t: seq<T>, key: T -> int)
    requires SortedDesc(t, key)
    requires forall k :: 0 <= k < |t| ==> key(x) >= key(t[k])
    ensures SortedDesc([x] + t, key)
  {
    var g := [x] + t;
    forall i, j | 0 <= i < j < |g| ensures key(g[i]) >= key(g[j]) {
      assert g[j] == t[j - 1];
      if i > 0 {
        assert g[i] == t[i - 1];
      }
    }
  }

  /** The tail of a sorted sequence is sorted and no greater than its head. */
  lemma SortedTail<T>(s: seq<T>, key: T -> int)
    requires SortedDesc(s, key) && s != []
    ensures SortedDesc(s[1..], key)
    ensures forall k :: 0 <= k < |s| - 1 ==> key(s[0]) >= key(s[1..][k])
  {
    var t := s[1..];
    forall i, j | 0 <= i < j < |t| ensures key(t[i]) >= key(t[j]) {
      assert t[i] == s[i + 1] && t[j] == s[j + 1];
    }
    forall k | 0 <= k < |t| ensures key(s[0]) >= key(t[k]) {
      assert t[k] == s[k + 1];
    }
  }

  lemma {:induction false} FilterKeepsSorted<T>(s: seq<T>, keep: T -> bool, key: T -> int)
    requires SortedDesc(s, key)
    ensures SortedDesc(Filter(s, keep), key)
  {
    if s != [] {
      var x, t := s[0], s[1..];
      assert s == [x] + t;
      SortedTail(s, key);
      FilterKeepsSorted(t, keep, key);
      FilterCons(x, t, keep);
      var f := Filter(t, keep);
      if keep(x) {
        forall k | 0 <= k < |f| ensures key(x) >= key(f[k]) {
          var j :| 0 <= j < |t| && t[j] == f[k];
        }
        SortedCons(x, f, key);
      }
    }
  }

  // ------------------------------------------------------------------ sum

  function SumOf<T>(s: seq<T>, f: T -> nat): nat {
    if s == [] then 0 else f(s[0]) + SumOf(s[1..], f)
  }

  lemma {:induction false} SumAppend<T>(a: seq<T>, b: seq<T>, f: T -> nat)
    ensures SumOf(a + b, f) == SumOf(a, f) + SumOf(b, f)
  {
    if a == [] {
      assert a + b == b;
    } else {
      assert (a + b)[1..] == a[1..] + b;
      SumAppend(a[1..], b, f);
    }
  }

  /** A sum does not depend on the order of its terms. */
  lemma {:induction false} SumPermutation<T>(a: seq<T>, b: seq<T>, f: T -> nat)
    requires multiset(a) == multiset(b)
    ensures SumOf(a, f) == SumOf(b, f)
  {
    if a == [] {
      assert |b| == |multiset(b)| == 0;
    } else {
      var x := a[0];
      assert x in multiset(b);
      var j :| 0 <= j < |b| && b[j] == x;
      var rest := b[..j] + b[j + 1..];
      assert b == b[..j] + [x] + b[j + 1..];
      assert a == [x] + a[1..];
      assert multiset(rest) == multiset(b) - multiset{x};
      assert multiset(a[1..]) == multiset(a) - multiset{x};
      SumPermutation(a[1..], rest, f);
      SumAppend(b[..j] + [x], b[j + 1..], f);
      SumAppend(b[..j], [x], f);
      SumAppend(b[..j], b[j + 1..], f);
    }
  }

  /** A sum splits along a condition and its negation. */
  lemma {:induction false} SumFilterSplit<T>(s: seq<T>, f: T -> nat, p: T -> bool, q: T -> bool)
    requires forall x :: q(x) <==> !p(x)
    ensures SumOf(s, f) == SumOf(Filter(s, p), f) + SumOf(Filter(s, q), f)
  {
    if s != [] {
      var x, t := s[0], s[1..];
      assert s == [x] + t;
      SumFilterSplit(t, f, p, q);
      FilterCons(x, t, p);
      FilterCons(x, t, q);
      if p(x) {
        assert ([x] + Filter(t, p))[1..] == Filter(t, p);
      } else {
        assert ([x] + Filter(t, q))[1..] == Filter(t, q);
      }
    }
  }
}
