/** Finite counting: a list of n distinct numbers below n contains every number below n. */
module Pigeonhole {

  ghost predicate Distinct<T>(s: seq<T>) {
    forall a, b :: 0 <= a < b < |s| ==> s[a] != s[b]
  }

  predicate Below(s: seq<nat>, n: nat) {
    forall a :: 0 <= a < |s| ==> s[a] < n
  }

  function Elements<T(==)>(s: seq<T>): set<T> {
    set x | x in s
  }

  lemma {:induction false} DistinctCard<T>(s: seq<T>)
    requires Distinct(s)
    ensures |Elements(s)| == |s|
    decreases |s|
  {
    if s == [] {
      assert Elements(s) == {};
    } else {
      var t, x := s[..|s| - 1], s[|s| - 1];
      DistinctCard(t);
      assert s == t + [x];
      assert Elements(s) == Elements(t) + {x};
      assert x !in Elements(t);
    }
  }

  predicate InRange(x: nat, n: nat) {
    x < n
  }

  function Range(n: nat): set<nat> {
    set x: nat {:trigger InRange(x, n)} | x < n && InRange(x, n)
  }

  lemma {:induction false} RangeCard(n: nat)
    ensures |Range(n)| == n
  {
    if n == 0 {
      assert Range(n) == {};
    } else {
      RangeCard(n - 1);
      assert Range(n) == Range(n - 1) + {n - 1};
    }
  }

  lemma {:induction false} SubsetCard<T>(a: set<T>, b: set<T>)
    requires a <= b
    ensures |a| <= |b|
    ensures |a| == |b| ==> a == b
    decreases b
  {
    if x :| x in b {
      if x in a {
        SubsetCard(a - {x}, b - {x});
        assert a == a - {x} + {x} && b == b - {x} + {x};
      } else {
        SubsetCard(a, b - {x});
      }
    }
  }

  /** n distinct numbers below n are all of them. */
  lemma Covers(s: seq<nat>, n: nat, v: nat)
    requires Distinct(s) && Below(s, n) && |s| == n && v < n
    ensures v in s
  {
    DistinctCard(s);
    RangeCard(n);
    SubsetCard(Elements(s), Range(n));
    assert v in Range(n);
  }

  /** Distinct numbers that are exactly those below n are n in number. */
  lemma CountOfCover(s: seq<nat>, n: nat)
    requires Distinct(s) && Below(s, n) && forall v: nat :: v < n ==> v in s
    ensures |s| == n
  {
    DistinctCard(s);
    RangeCard(n);
    assert Elements(s) == Range(n);
  }

  /** The elements of s at the given indices. */
  function Pick<T>(s: seq<T>, idxs: seq<nat>): (r: seq<T>)
    requires Below(idxs, |s|)
    ensures |r| == |idxs| && forall i :: 0 <= i < |r| ==> r[i] == s[idxs[i]]
  {
    if idxs == [] then [] else [s[idxs[0]]] + Pick(s, idxs[1..])
  }

  function Without<T>(s: seq<T>, p: nat): (r: seq<T>)
    requires p < |s|
    ensures |r| == |s| - 1
    ensures forall i :: 0 <= i < |r| ==> r[i] == if i < p then s[i] else s[i + 1]
  {
    s[..p] + s[p + 1..]
  }

  lemma WithoutMultiset<T>(s: seq<T>, p: nat)
    requires p < |s|
    ensures multiset(s) == multiset(Without(s, p)) + multiset{s[p]}
  {
    assert s == s[..p] + [s[p]] + s[p + 1..];
  }

  lemma WithoutLargest(idxs: seq<nat>, n: nat, p: nat)
    requires Distinct(idxs) && Below(idxs, n) && p < |idxs| && idxs[p] == n - 1
    ensures Distinct(Without(idxs, p)) && Below(Without(idxs, p), n - 1)
  {}

  lemma PickWithout<T>(s: seq<T>, idxs: seq<nat>, p: nat)
    requires Below(idxs, |s|) && p < |idxs| && |s| > 0 && Below(Without(idxs, p), |s| - 1)
    ensures Pick(s[..|s| - 1], Without(idxs, p)) == Without(Pick(s, idxs), p)
  {}

  lemma PickStep<T>(s: seq<T>, idxs: seq<nat>, p: nat)
    requires Below(idxs, |s|) && p < |idxs| && |s| > 0 && idxs[p] == |s| - 1
    requires Below(Without(idxs, p), |s| - 1)
    requires multiset(Pick(s[..|s| - 1], Without(idxs, p))) == multiset(s[..|s| - 1])
    ensures multiset(Pick(s, idxs)) == multiset(s)
  {
    var picks := Pick(s, idxs);
    PickWithout(s, idxs, p);
    WithoutMultiset(picks, p);
    WithoutMultiset(s, |s| - 1);
    assert Without(s, |s| - 1) == s[..|s| - 1];
  }

  /** Picking every index once, in any order, keeps the multiset. */
  lemma {:induction false} PickPermutes<T>(s: seq<T>, idxs: seq<nat>)
    requires Distinct(idxs) && Below(idxs, |s|) && |idxs| == |s|
    ensures multiset(Pick(s, idxs)) == multiset(s)
    decreases |s|
  {
    var n := |s|;
    if n > 0 {
      Covers(idxs, n, n - 1);
      var p :| 0 <= p < n && idxs[p] == n - 1;
      WithoutLargest(idxs, n, p);
      PickPermutes(s[..n - 1], Without(idxs, p));
      PickStep(s, idxs, p);
    }
  }
}
