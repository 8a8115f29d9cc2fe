/** Rearranging part of a sequence in place. */
module Permuting {
  import opened Permutations

  /** t is s with the entries in lo..hi-1 rearranged. */
  ghost predicate Permuted<T>(s: seq<T>, t: seq<T>, lo: int, hi: int) {
    && |s| == |t| && 0 <= lo <= hi <= |s|
    && (forall i :: 0 <= i < lo ==> s[i] == t[i])
    && (forall i :: hi <= i < |s| ==> s[i] == t[i])
    && multiset(s[lo..hi]) == multiset(t[lo..hi])
  }

  lemma PermutedReflexive<T>(s: seq<T>, lo: int, hi: int)
    requires 0 <= lo <= hi <= |s|
    ensures Permuted(s, s, lo, hi)
  {
  }

  lemma PermutedTransitive<T>(s: seq<T>, t: seq<T>, u: seq<T>, lo: int, hi: int)
    requires Permuted(s, t, lo, hi) && Permuted(t, u, lo, hi)
    ensures Permuted(s, u, lo, hi)
  {
  }

  /** A rearrangement inside a part of the range is a rearrangement of the range. */
  lemma PermutedWiden<T>(s: seq<T>, t: seq<T>, lo: int, hi: int, lo': int, hi': int)
    requires Permuted(s, t, lo, hi) && 0 <= lo' <= lo && hi <= hi' <= |s|
    ensures Permuted(s, t, lo', hi')
  {
    assert s[lo'..hi'] == s[lo'..lo] + s[lo..hi] + s[hi..hi'];
    assert t[lo'..hi'] == t[lo'..lo] + t[lo..hi] + t[hi..hi'];
    assert s[lo'..lo] == t[lo'..lo] && s[hi..hi'] == t[hi..hi'];
  }

  function Swap<T>(s: seq<T>, i: int, j: int): (t: seq<T>)
    requires 0 <= i < |s| && 0 <= j < |s|
  {
    s[i := s[j]][j := s[i]]
  }

  lemma SwapPermutes<T>(s: seq<T>, i: int, j: int, lo: int, hi: int)
    requires 0 <= lo <= i < hi <= |s| && lo <= j < hi
    ensures Permuted(s, Swap(s, i, j), lo, hi)
  {
    var t, u := s[lo..hi], Swap(s, i, j)[lo..hi];
    assert u == t[i - lo := t[j - lo]][j - lo := t[i - lo]];
    assert multiset(u) == multiset(t);
  }

  /** Every entry of the rearranged range was somewhere in that range before. */
  lemma PermutedFrom<T>(s: seq<T>, t: seq<T>, lo: int, hi: int, q: int) returns (p: int)
    requires Permuted(s, t, lo, hi) && lo <= q < hi
    ensures lo <= p < hi && s[p] == t[q]
  {
    assert t[q] == t[lo..hi][q - lo];
    assert t[q] in multiset(s[lo..hi]);
    p :| 0 <= p < hi - lo && s[lo..hi][p] == t[q];
    p := p + lo;
  }

  lemma {:induction false} DistinctMultiplicity<T>(s: seq<T>, x: T)
    requires forall i, j :: 0 <= i < j < |s| ==> s[i] != s[j]
    ensures multiset(s)[x] <= 1
  {
    if s != [] {
      var last := |s| - 1;
      assert s == s[..last] + [s[last]];
      DistinctMultiplicity(s[..last], x);
      if x == s[last] { assert x !in s[..last]; }
    }
  }

  lemma RepeatedMultiplicity<T>(s: seq<T>, i: int, j: int)
    requires 0 <= i < j < |s| && s[i] == s[j]
    ensures multiset(s)[s[i]] >= 2
  {
    assert s == s[..i] + [s[i]] + s[i + 1..j] + [s[j]] + s[j + 1..];
  }

  /** Rearranging a permutation gives a permutation. */
  lemma PermutedPermutation(s: seq<int>, t: seq<int>, lo: int, hi: int)
    requires Permuted(s, t, lo, hi) && IsPermutation(s)
    ensures IsPermutation(t)
  {
    PermutedWiden(s, t, lo, hi, 0, |s|);
    assert s[0..|s|] == s && t[0..|t|] == t;
    forall i, j | 0 <= i < j < |t|
      ensures t[i] != t[j]
    {
      if t[i] == t[j] {
        RepeatedMultiplicity(t, i, j);
        DistinctMultiplicity(s, t[i]);
        assert false;
      }
    }
    forall i | 0 <= i < |t|
      ensures 0 <= t[i] < |t|
    {
      var p := PermutedFrom(s, t, 0, |s|, i);
    }
  }
}
