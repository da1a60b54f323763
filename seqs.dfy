/**
 * Order-preserving filtering of sequences: the one operation behind a pandas
 * boolean mask, `dropna()` and an SQL `DELETE ... WHERE`.
 */
module Seqs {

  /** The elements of `s` that satisfy `p`, in their original order. */
  function Filter<T>(s: seq<T>, p: T -> bool): (r: seq<T>)
    ensures |r| <= |s|
    ensures forall i :: 0 <= i < |r| ==> p(r[i])
  {
    if s == [] then [] else (if p(s[0]) then [s[0]] else []) + Filter(s[1..], p)
  }

  /** `a` is obtained from `b` by deleting elements, without reordering. */
  predicate IsSubsequence<T(==)>(a: seq<T>, b: seq<T>)
    decreases |b|
  {
    if a == [] then true
    else if b == [] then false
    else if a[0] == b[0] then IsSubsequence(a[1..], b[1..])
    else IsSubsequence(a, b[1..])
  }

  lemma {:induction false} FilterIsSubsequence<T>(s: seq<T>, p: T -> bool)
    ensures IsSubsequence(Filter(s, p), s)
  {
    if s != [] {
      FilterIsSubsequence(s[1..], p);
      if p(s[0]) {
        var r := Filter(s, p);
        assert r == [s[0]] + Filter(s[1..], p);
        assert r[1..] == Filter(s[1..], p);
      } else {
        assert Filter(s, p) == Filter(s[1..], p);
      }
    }
  }

  lemma {:induction false} FilterMembership<T>(s: seq<T>, p: T -> bool, x: T)
    ensures x in Filter(s, p) <==> x in s && p(x)
  {
    if s != [] {
      FilterMembership(s[1..], p, x);
      assert s == [s[0]] + s[1..];
    }
  }

  lemma {:induction false} FilterAppend<T>(s: seq<T>, t: seq<T>, p: T -> bool)
    ensures Filter(s + t, p) == Filter(s, p) + Filter(t, p)
  {
    if s == [] {
      assert s + t == t;
    } else {
      assert (s + t)[0] == s[0];
      assert (s + t)[1..] == s[1..] + t;
      FilterAppend(s[1..], t, p);
    }
  }

  lemma {:induction false} FilterKeepsAll<T>(s: seq<T>, p: T -> bool)
    requires forall i :: 0 <= i < |s| ==> p(s[i])
    ensures Filter(s, p) == s
  {
    if s != [] {
      FilterKeepsAll(s[1..], p);
      assert s == [s[0]] + s[1..];
    }
  }

  lemma FilterIdempotent<T>(s: seq<T>, p: T -> bool)
    ensures Filter(Filter(s, p), p) == Filter(s, p)
  {
    FilterKeepsAll(Filter(s, p), p);
  }

  /** Applying two filters in turn is filtering once by both conditions. */
  lemma {:induction false} FilterFusion<T>(s: seq<T>, p: T -> bool, q: T -> bool, pq: T -> bool)
    requires forall x :: pq(x) == (p(x) && q(x))
    ensures Filter(Filter(s, p), q) == Filter(s, pq)
  {
    if s != [] {
      FilterFusion(s[1..], p, q, pq);
      var f := Filter(s, p);
      assert pq(s[0]) == (p(s[0]) && q(s[0]));
      if p(s[0]) {
        assert f == [s[0]] + Filter(s[1..], p);
        assert f != [] && f[0] == s[0] && f[1..] == Filter(s[1..], p);
      } else {
        assert f == Filter(s[1..], p);
      }
    }
  }

  /** Filtering keeps any property every element already has. */
  lemma {:induction false} FilterKeepsProperty<T>(s: seq<T>, p: T -> bool, q: T -> bool)
    requires forall i :: 0 <= i < |s| ==> q(s[i])
    ensures forall i :: 0 <= i < |Filter(s, p)| ==> q(Filter(s, p)[i])
  {
    if s != [] {
      FilterKeepsProperty(s[1..], p, q);
      var f := Filter(s, p);
      var tail := Filter(s[1..], p);
      assert f == (if p(s[0]) then [s[0]] else []) + tail;
      forall i | 0 <= i < |f|
        ensures q(f[i])
      {
        if p(s[0]) && i == 0 {
          assert f[0] == s[0];
        } else if p(s[0]) {
          assert f[i] == tail[i - 1];
        } else {
          assert f[i] == tail[i];
        }
      }
    }
  }

  /** A filtered sequence stays strictly increasing in any key the original increases in. */
  lemma {:induction false} FilterKeepsIncreasing<T>(s: seq<T>, p: T -> bool, key: T -> int)
    requires forall i, j :: 0 <= i < j < |s| ==> key(s[i]) < key(s[j])
    ensures forall i, j :: 0 <= i < j < |Filter(s, p)| ==> key(Filter(s, p)[i]) < key(Filter(s, p)[j])
  {
    if s != [] {
      var rest := s[1..];
      var above := (x: T) => key(s[0]) < key(x);
      IncreasingTail(s, key);
      FilterKeepsIncreasing(rest, p, key);
      FilterKeepsProperty(rest, p, above);
      if p(s[0]) {
        IncreasingCons(s[0], Filter(rest, p), key);
        assert Filter(s, p) == [s[0]] + Filter(rest, p);
      } else {
        assert Filter(s, p) == Filter(rest, p);
      }
    }
  }

  /** The tail of an increasing sequence is increasing and lies above its head. */
  lemma IncreasingTail<T>(s: seq<T>, key: T -> int)
    requires s != [] && forall i, j :: 0 <= i < j < |s| ==> key(s[i]) < key(s[j])
    ensures forall i, j :: 0 <= i < j < |s[1..]| ==> key(s[1..][i]) < key(s[1..][j])
    ensures forall i :: 0 <= i < |s[1..]| ==> key(s[0]) < key(s[1..][i])
  {
    forall i, j | 0 <= i < j < |s[1..]|
      ensures key(s[1..][i]) < key(s[1..][j])
    {
      assert s[1..][i] == s[i + 1] && s[1..][j] == s[j + 1];
    }
    forall i | 0 <= i < |s[1..]|
      ensures key(s[0]) < key(s[1..][i])
    {
      assert s[1..][i] == s[i + 1];
    }
  }

  /** An element below every element of an increasing sequence extends it at the front. */
  lemma IncreasingCons<T>(x: T, t: seq<T>, key: T -> int)
    requires forall i, j :: 0 <= i < j < |t| ==> key(t[i]) < key(t[j])
    requires forall i :: 0 <= i < |t| ==> key(x) < key(t[i])
    ensures forall i, j :: 0 <= i < j < |[x] + t| ==> key(([x] + t)[i]) < key(([x] + t)[j])
  {
    var f := [x] + t;
    forall j | 0 < j < |f|
      ensures key(f[0]) < key(f[j])
    {
      assert f[0] == x && f[j] == t[j - 1];
    }
    forall i, j | 0 < i < j < |f|
      ensures key(f[i]) < key(f[j])
    {
      assert f[i] == t[i - 1] && f[j] == t[j - 1];
    }
  }
}
