/** The cyclic rotations of a block and their lexicographic order. */
module Rotations {
  import opened Words
  import opened Permutations

  /** The i-th byte of the block repeated for ever. */
  function At(b: seq<byte>, i: nat): byte
    requires b != []
    decreases i
  {
    if i < |b| then b[i] else At(b, i - |b|)
  }

  /** Orders the first h bytes of the rotations starting at i and j: -1, 0 or 1. */
  function Compare(b: seq<byte>, i: nat, j: nat, h: nat): (c: int)
    requires b != []
    ensures -1 <= c <= 1
    decreases h
  {
    if h == 0 then 0
    else if At(b, i) < At(b, j) then -1
    else if At(b, i) > At(b, j) then 1
    else Compare(b, i + 1, j + 1, h - 1)
  }

  /** The first h bytes of the rotation starting at i. */
  function Row(b: seq<byte>, i: nat, h: nat): (r: seq<byte>)
    requires b != []
    ensures |r| == h
    ensures forall k :: 0 <= k < h ==> r[k] == At(b, i + k)
  {
    seq<byte>(h, k requires 0 <= k < h => At(b, i + k))
  }

  /** s and t first differ at position k, where s has the smaller byte. */
  ghost predicate LessAt(s: seq<byte>, t: seq<byte>, k: nat) {
    k < |s| && k < |t| && s[k] < t[k] && forall m :: 0 <= m < k ==> s[m] == t[m]
  }

  ghost predicate LexLess(s: seq<byte>, t: seq<byte>) {
    exists k: nat :: LessAt(s, t, k)
  }

  lemma {:induction false} LexLessCons(c: byte, s: seq<byte>, t: seq<byte>)
    ensures LexLess([c] + s, [c] + t) <==> LexLess(s, t)
  {
    if k: nat :| LessAt(s, t, k) {
      assert LessAt([c] + s, [c] + t, k + 1);
    }
    if k: nat :| LessAt([c] + s, [c] + t, k) {
      assert forall m :: 0 <= m < k - 1 ==> s[m] == ([c] + s)[m + 1] == ([c] + t)[m + 1] == t[m];
      assert LessAt(s, t, k - 1);
    }
  }

  lemma LexLessHeads(s: seq<byte>, t: seq<byte>)
    requires s != [] && t != [] && s[0] != t[0]
    ensures LexLess(s, t) <==> s[0] < t[0]
  {
    if s[0] < t[0] {
      assert LessAt(s, t, 0);
    }
  }

  lemma RowCons(b: seq<byte>, i: nat, h: nat)
    requires b != [] && h > 0
    ensures Row(b, i, h) == [At(b, i)] + Row(b, i + 1, h - 1)
  {
  }

  /** Compare is the lexicographic order of the rows. */
  lemma {:induction false} CompareMeaning(b: seq<byte>, i: nat, j: nat, h: nat)
    requires b != []
    ensures Compare(b, i, j, h) == 0 <==> Row(b, i, h) == Row(b, j, h)
    ensures Compare(b, i, j, h) < 0 <==> LexLess(Row(b, i, h), Row(b, j, h))
    decreases h
  {
    if h > 0 {
      var s', t' := Row(b, i + 1, h - 1), Row(b, j + 1, h - 1);
      RowCons(b, i, h); RowCons(b, j, h);
      if At(b, i) == At(b, j) {
        CompareMeaning(b, i + 1, j + 1, h - 1);
        LexLessCons(At(b, i), s', t');
        assert Row(b, i, h)[1..] == s' && Row(b, j, h)[1..] == t';
      } else {
        LexLessHeads(Row(b, i, h), Row(b, j, h));
      }
    }
  }

  lemma CompareAntisymmetric(b: seq<byte>, i: nat, j: nat, h: nat)
    requires b != []
    ensures Compare(b, i, j, h) == -Compare(b, j, i, h)
    decreases h
  {
    if h > 0 { CompareAntisymmetric(b, i + 1, j + 1, h - 1); }
  }

  lemma CompareTransitive(b: seq<byte>, i: nat, j: nat, k: nat, h: nat)
    requires b != []
    requires Compare(b, i, j, h) <= 0 && Compare(b, j, k, h) <= 0
    ensures Compare(b, i, k, h) <= 0
    ensures Compare(b, i, j, h) < 0 || Compare(b, j, k, h) < 0 ==> Compare(b, i, k, h) < 0
    decreases h
  {
    if h > 0 && At(b, i) == At(b, j) == At(b, k) { CompareTransitive(b, i + 1, j + 1, k + 1, h - 1); }
  }

  /** The first h + g bytes compare by the first h, and by the next g when those agree. */
  lemma CompareSplit(b: seq<byte>, i: nat, j: nat, h: nat, g: nat)
    requires b != []
    ensures Compare(b, i, j, h + g) ==
            if Compare(b, i, j, h) != 0 then Compare(b, i, j, h) else Compare(b, i + h, j + h, g)
    decreases h
  {
    if h > 0 && At(b, i) == At(b, j) { CompareSplit(b, i + 1, j + 1, h - 1, g); }
  }

  /** A whole turn of the block leads back to the same rotation. */
  lemma {:induction false} CompareTurn(b: seq<byte>, i: nat, j: nat, h: nat)
    requires b != []
    ensures Compare(b, i + |b|, j, h) == Compare(b, i, j, h)
    ensures Compare(b, i, j + |b|, h) == Compare(b, i, j, h)
    decreases h
  {
    if h > 0 {
      assert At(b, i + |b|) == At(b, i) && At(b, j + |b|) == At(b, j);
      CompareTurn(b, i + 1, j + 1, h - 1);
      assert i + |b| + 1 == i + 1 + |b| && j + |b| + 1 == j + 1 + |b|;
    }
  }

  /** Rotations that agree over a whole turn agree for ever. */
  lemma {:induction false} CompareSaturates(b: seq<byte>, i: nat, j: nat, h: nat)
    requires b != [] && h >= |b|
    ensures Compare(b, i, j, h) == Compare(b, i, j, |b|)
    decreases h
  {
    var n := |b|;
    CompareSplit(b, i, j, n, h - n);
    if h > n && Compare(b, i, j, n) == 0 {
      CompareTurn(b, i, j + n, h - n);
      CompareTurn(b, i, j, h - n);
      if h - n <= n {
        CompareSplit(b, i, j, h - n, n - (h - n));
      } else {
        CompareSaturates(b, i, j, h - n);
      }
    }
  }

  /** ptr lists all start positions so that the first h bytes of the rotations never decrease. */
  ghost predicate SortedTo(b: seq<byte>, ptr: seq<int>, h: nat)
    requires b != []
  {
    && |ptr| == |b|
    && IsPermutation(ptr)
    && forall i, j :: 0 <= i < j < |ptr| ==> Compare(b, ptr[i], ptr[j], h) <= 0
  }

  /** ptr is a sort of the rotations; equal rotations may stand in any order. */
  ghost predicate SortsRotations(b: seq<byte>, ptr: seq<int>)
    requires b != []
  {
    SortedTo(b, ptr, |b|)
  }
}
