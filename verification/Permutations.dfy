/** Permutations of 0..n-1, held as sequences. */
module Permutations {

  ghost predicate Distinct<T(!new)>(s: seq<T>) {
    forall i, j :: 0 <= i < j < |s| ==> s[i] != s[j]
  }

  /** s lists every number below |s| exactly once. */
  ghost predicate IsPermutation(s: seq<int>) {
    && Distinct(s)
    && forall i :: 0 <= i < |s| ==> 0 <= s[i] < |s|
  }

  ghost function Elements<T>(s: seq<T>): set<T> {
    set x | x in s
  }

  ghost function Below(n: nat): (r: set<int>)
    ensures forall x :: x in r <==> 0 <= x < n
  {
    if n == 0 then {} else Below(n - 1) + {n - 1}
  }

  lemma {:induction false} DistinctCardinality<T(!new)>(s: seq<T>)
    requires Distinct(s)
    ensures |Elements(s)| == |s|
  {
    if s == [] {
      assert Elements(s) == {};
    } else {
      var last := |s| - 1;
      DistinctCardinality(s[..last]);
      assert Elements(s) == Elements(s[..last]) + {s[last]};
    }
  }

  lemma {:induction false} BelowCardinality(n: nat)
    ensures |Below(n)| == n
  {
    if n > 0 { BelowCardinality(n - 1); }
  }

  lemma SubsetCardinality<T>(a: set<T>, b: set<T>)
    requires a <= b
    ensures |a| <= |b|
    ensures |a| == |b| ==> a == b
  {
    assert b == a + (b - a);
    assert |b| == |a| + |b - a|;
  }

  /** A permutation reaches every number below its length. */
  lemma Surjective(s: seq<int>)
    requires IsPermutation(s)
    ensures Elements(s) == Below(|s|)
    ensures forall v :: 0 <= v < |s| ==> v in s
  {
    DistinctCardinality(s);
    BelowCardinality(|s|);
    assert Elements(s) <= Below(|s|);
    SubsetCardinality(Elements(s), Below(|s|));
    forall v | 0 <= v < |s|
      ensures v in s
    {
      assert v in Below(|s|);
    }
  }

  /** inv undoes p. */
  ghost predicate Inverse(p: seq<int>, inv: seq<int>) {
    && |inv| == |p|
    && (forall i :: 0 <= i < |p| ==> 0 <= p[i] < |p| && inv[p[i]] == i)
    && (forall i :: 0 <= i < |p| ==> 0 <= inv[i] < |p| && p[inv[i]] == i)
  }

  /** An in-range left inverse of a permutation is also its right inverse. */
  lemma LeftInverseIsInverse(p: seq<int>, inv: seq<int>)
    requires IsPermutation(p) && |inv| == |p|
    requires forall i :: 0 <= i < |p| ==> inv[p[i]] == i
    ensures Inverse(p, inv) && IsPermutation(inv)
  {
    Surjective(p);
    forall k | 0 <= k < |p|
      ensures 0 <= inv[k] < |p| && p[inv[k]] == k
    {
      assert k in p;
      var i :| 0 <= i < |p| && p[i] == k;
    }
  }
}
