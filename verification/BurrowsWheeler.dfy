/** The Burrows-Wheeler last column and why following the decoder's vector rebuilds the block. */
module BurrowsWheeler {
  import opened Words
  import opened Permutations
  import opened Rotations

  /** One place back in the block, cyclically. */
  function Before(n: nat, x: nat): (r: nat)
    requires x < n
    ensures r < n
  {
    var j := x - 1;
    if j < 0 then j + n else j
  }

  /** The byte before each sorted rotation, as the compressor reads it off `ptr`. */
  function LastColumn(b: seq<byte>, ptr: seq<int>): (l: seq<byte>)
    requires |ptr| == |b|
    requires forall i :: 0 <= i < |ptr| ==> 0 <= ptr[i] < |b|
    ensures |l| == |b|
    ensures forall i :: 0 <= i < |l| ==> l[i] == b[Before(|b|, ptr[i])]
  {
    seq<byte>(|b|, i requires 0 <= i < |b| => b[Before(|b|, ptr[i])])
  }

  // ---------- The stable counting sort of a column ----------

  /** How many of the first m bytes equal c. */
  function Count(l: seq<byte>, c: int, m: nat): (r: nat)
    requires m <= |l|
    ensures r <= m
  {
    if m == 0 then 0 else Count(l, c, m - 1) + if l[m - 1] == c then 1 else 0
  }

  /** How many of the first m bytes are smaller than c. */
  function Smaller(l: seq<byte>, c: int, m: nat): (r: nat)
    requires m <= |l|
    ensures r <= m
  {
    if m == 0 then 0 else Smaller(l, c, m - 1) + if l[m - 1] < c then 1 else 0
  }

  /** Where a stable sort of the column puts entry i. */
  function SortedPosition(l: seq<byte>, i: nat): nat
    requires i < |l|
  {
    Smaller(l, l[i], |l|) + Count(l, l[i], i)
  }

  lemma {:induction false} CountMonotone(l: seq<byte>, c: int, m: nat, m': nat)
    requires m <= m' <= |l|
    ensures Count(l, c, m) <= Count(l, c, m')
    ensures m < m' && l[m] == c ==> Count(l, c, m) < Count(l, c, m')
  {
    if m < m' { CountMonotone(l, c, m, m' - 1); }
  }

  lemma {:induction false} SmallerStep(l: seq<byte>, c: int, m: nat)
    requires m <= |l|
    ensures Smaller(l, c + 1, m) == Smaller(l, c, m) + Count(l, c, m)
  {
    if m > 0 { SmallerStep(l, c, m - 1); }
  }

  lemma {:induction false} SmallerMonotone(l: seq<byte>, c: int, d: int, m: nat)
    requires m <= |l| && c <= d
    ensures Smaller(l, c, m) <= Smaller(l, d, m)
  {
    if m > 0 { SmallerMonotone(l, c, d, m - 1); }
  }

  lemma {:induction false} SmallerThanAll(l: seq<byte>, m: nat)
    requires m <= |l|
    ensures Smaller(l, 256, m) == m && Smaller(l, 0, m) == 0
  {
    if m > 0 { SmallerThanAll(l, m - 1); }
  }

  /** Entry i lands inside the bucket of its own byte. */
  lemma SortedPositionInBucket(l: seq<byte>, i: nat)
    requires i < |l|
    ensures Smaller(l, l[i], |l|) <= SortedPosition(l, i) < Smaller(l, l[i] as int + 1, |l|) <= |l|
  {
    CountMonotone(l, l[i], i, |l|);
    SmallerStep(l, l[i], |l|);
  }

  /** The sort orders by byte, then by original place. */
  lemma SortedPositionOrder(l: seq<byte>, i: nat, j: nat)
    requires i < |l| && j < |l|
    requires l[i] < l[j] || (l[i] == l[j] && i < j)
    ensures SortedPosition(l, i) < SortedPosition(l, j)
  {
    if l[i] < l[j] {
      SortedPositionInBucket(l, i);
      SortedPositionInBucket(l, j);
      SmallerMonotone(l, l[i] as int + 1, l[j], |l|);
    } else {
      CountMonotone(l, l[i], i, j);
    }
  }

  /** The sorted position of every entry. */
  ghost function SortedPositions(l: seq<byte>): (f: seq<int>)
    ensures |f| == |l|
    ensures forall i :: 0 <= i < |l| ==> f[i] == SortedPosition(l, i)
  {
    seq(|l|, i requires 0 <= i < |l| => SortedPosition(l, i))
  }

  lemma SortedPositionsPermutation(l: seq<byte>)
    ensures IsPermutation(SortedPositions(l))
  {
    var f := SortedPositions(l);
    forall i | 0 <= i < |l|
      ensures 0 <= f[i] < |f|
    {
      SortedPositionInBucket(l, i);
    }
    forall i, j | 0 <= i < j < |l|
      ensures f[i] != f[j]
    {
      if l[i] <= l[j] { SortedPositionOrder(l, i, j); } else { SortedPositionOrder(l, j, i); }
    }
  }

  /** The decoder's vector: it sends each sorted position back to the entry that the sort puts there. */
  ghost function Transform(l: seq<byte>): (t: seq<int>)
    ensures |t| == |l| && forall i :: 0 <= i < |l| ==> 0 <= t[i] < |l|
  {
    var f := SortedPositions(l);
    SortedPositionsPermutation(l);
    Surjective(f);
    seq(|l|, k requires 0 <= k < |l| => assert k in f; var i :| 0 <= i < |f| && f[i] == k; i)
  }

  lemma TransformInverts(l: seq<byte>)
    ensures Inverse(SortedPositions(l), Transform(l)) && IsPermutation(Transform(l))
  {
    var f, t := SortedPositions(l), Transform(l);
    SortedPositionsPermutation(l);
    Surjective(f);
    forall i | 0 <= i < |l|
      ensures t[f[i]] == i
    {
      assert f[t[f[i]]] == f[i];
    }
    LeftInverseIsInverse(f, t);
  }

  /** Reading the column through the transform gives the sorted column, ties in original order. */
  lemma TransformSorts(l: seq<byte>, j: nat, k: nat)
    requires j < k < |l|
    ensures var t := Transform(l);
            l[t[j]] < l[t[k]] || (l[t[j]] == l[t[k]] && t[j] < t[k])
  {
    var t, f := Transform(l), SortedPositions(l);
    TransformInverts(l);
    assert f[t[j]] == j && f[t[k]] == k;
    if l[t[k]] < l[t[j]] || (l[t[k]] == l[t[j]] && t[k] < t[j]) {
      SortedPositionOrder(l, t[k], t[j]);
    }
  }

  /** Position reached from p after k applications of t. */
  ghost function Walk(t: seq<int>, p: int, k: nat): (r: int)
    requires 0 <= p < |t| && forall i :: 0 <= i < |t| ==> 0 <= t[i] < |t|
    ensures 0 <= r < |t|
  {
    if k == 0 then p else t[Walk(t, p, k - 1)]
  }

  /** The k-th byte the decoder fetches from last column l when it starts at row origPtr. */
  ghost function Fetched(l: seq<byte>, origPtr: int, k: nat): byte
    requires 0 <= origPtr < |l|
  {
    l[Walk(Transform(l), origPtr, k + 1)]
  }

  /** The first n bytes fetched. */
  ghost function Unsorted(l: seq<byte>, origPtr: int, n: nat): (r: seq<byte>)
    requires 0 <= origPtr < |l|
    ensures |r| == n && forall k :: 0 <= k < n ==> r[k] == Fetched(l, origPtr, k)
  {
    seq<byte>(n, k requires 0 <= k < n => Fetched(l, origPtr, k))
  }

  // ---------- Inversion ----------

  /** Prepending equal bytes keeps the order of rotations. */
  lemma PrependKeepsOrder(b: seq<byte>, x: nat, y: nat)
    requires b != [] && At(b, x) == At(b, y)
    requires Compare(b, x + 1, y + 1, |b|) <= 0
    ensures Compare(b, x, y, |b|) <= 0
  {
    CompareSplit(b, x + 1, y + 1, |b| - 1, 1);
  }

  /** Equal rotations stay equal when both move one place on. */
  lemma AdvanceKeepsEquality(b: seq<byte>, x: nat, y: nat)
    requires b != [] && Compare(b, x, y, |b|) == 0
    ensures Compare(b, x + 1, y + 1, |b|) == 0 && At(b, x) == At(b, y)
  {
    CompareSaturates(b, x, y, |b| + 1);
    CompareSplit(b, x, y, 1, |b|);
    assert Compare(b, x + 1, y + 1, 0) == 0;
    assert Compare(b, x, y, 1) == 0;
  }

  /** Two sorted listings of the same rotations show equal rotations at every place. */
  lemma SortsAgree(b: seq<byte>, p: seq<int>, q: seq<int>, k: nat)
    requires b != [] && SortsRotations(b, p) && SortsRotations(b, q) && k < |b|
    ensures Compare(b, p[k], q[k], |b|) == 0
  {
    SortsOrdered(b, p, q, k);
    SortsOrdered(b, q, p, k);
    CompareAntisymmetric(b, p[k], q[k], |b|);
  }

  lemma SortsOrdered(b: seq<byte>, p: seq<int>, q: seq<int>, k: nat)
    requires b != [] && SortsRotations(b, p) && SortsRotations(b, q) && k < |b|
    ensures Compare(b, p[k], q[k], |b|) >= 0
  {
    if Compare(b, p[k], q[k], |b|) < 0 {
      // everything up to p[k] is below q[k], so it stands before place k in q
      forall x | x in Elements(p[..k + 1])
        ensures x in Elements(q[..k])
      {
        var i :| 0 <= i <= k && p[i] == x;
        StandsBefore(b, p, q, i, k);
      }
      DistinctCardinality(p[..k + 1]);
      DistinctCardinality(q[..k]);
      SubsetCardinality(Elements(p[..k + 1]), Elements(q[..k]));
      assert false;
    }
  }

  lemma StandsBefore(b: seq<byte>, p: seq<int>, q: seq<int>, i: nat, k: nat)
    requires b != [] && SortsRotations(b, p) && SortsRotations(b, q) && i <= k < |b|
    requires Compare(b, p[k], q[k], |b|) < 0
    ensures p[i] in Elements(q[..k])
  {
    Surjective(q);
    if i < k { CompareTransitive(b, p[i], p[k], q[k], |b|); }
    assert p[i] in q;
    var j :| 0 <= j < |q| && q[j] == p[i];
    CompareAntisymmetric(b, q[j], q[k], |b|);
    if j < k {
      assert q[..k][j] == p[i];
    }
  }

  /** Comparing from one place after Before(x) is comparing from x. */
  lemma CompareAfterBefore(b: seq<byte>, x: nat, y: nat, h: nat)
    requires x < |b|
    ensures Compare(b, Before(|b|, x) + 1, y, h) == Compare(b, x, y, h)
    ensures Compare(b, y, Before(|b|, x) + 1, h) == Compare(b, y, x, h)
  {
    if x == 0 {
      CompareTurn(b, 0, y, h);
      CompareTurn(b, y, 0, h);
    }
  }

  /** The starts of the rotations that the transform lists, each one place before its row. */
  ghost function ShiftedRows(b: seq<byte>, ptr: seq<int>): (q: seq<int>)
    requires b != [] && SortsRotations(b, ptr)
    ensures |q| == |b|
    ensures var t := Transform(LastColumn(b, ptr));
            forall k :: 0 <= k < |b| ==> q[k] == Before(|b|, ptr[t[k]])
  {
    var t := Transform(LastColumn(b, ptr));
    seq(|b|, k requires 0 <= k < |b| => Before(|b|, ptr[t[k]]))
  }

  lemma ShiftedRowsSort(b: seq<byte>, ptr: seq<int>)
    requires b != [] && SortsRotations(b, ptr)
    ensures SortsRotations(b, ShiftedRows(b, ptr))
  {
    var n, l, q := |b|, LastColumn(b, ptr), ShiftedRows(b, ptr);
    var t := Transform(l);
    TransformInverts(l);
    forall j, k | 0 <= j < k < n
      ensures q[j] != q[k]
    {
      assert t[j] != t[k] && ptr[t[j]] != ptr[t[k]];
    }
    forall j, k | 0 <= j < k < n
      ensures Compare(b, q[j], q[k], n) <= 0
    {
      ShiftedRowsOrdered(b, ptr, j, k);
    }
  }

  lemma ShiftedRowsOrdered(b: seq<byte>, ptr: seq<int>, j: nat, k: nat)
    requires b != [] && SortsRotations(b, ptr) && j < k < |b|
    ensures var q := ShiftedRows(b, ptr); Compare(b, q[j], q[k], |b|) <= 0
  {
    var t := Transform(LastColumn(b, ptr));
    TransformSorts(LastColumn(b, ptr), j, k);
    OrderOneBefore(b, ptr[t[j]], ptr[t[k]]);
  }

  lemma OrderOneBefore(b: seq<byte>, x: nat, y: nat)
    requires x < |b| && y < |b|
    requires var c, d := b[Before(|b|, x)], b[Before(|b|, y)];
             c < d || (c == d && Compare(b, x, y, |b|) <= 0)
    ensures Compare(b, Before(|b|, x), Before(|b|, y), |b|) <= 0
  {
    var n := |b|;
    if b[Before(n, x)] == b[Before(n, y)] {
      CompareAfterBefore(b, x, y, n);
      CompareAfterBefore(b, y, Before(n, x) + 1, n);
      PrependKeepsOrder(b, Before(n, x), Before(n, y));
    }
  }

  /** Rotations x and y are the same string. */
  ghost predicate SameRotation(b: seq<byte>, x: nat, y: nat)
    requires b != []
  {
    Compare(b, x, y, |b|) == 0
  }

  lemma SameRotationTransitive(b: seq<byte>, x: nat, y: nat, z: nat)
    requires b != [] && SameRotation(b, x, y) && SameRotation(b, y, z)
    ensures SameRotation(b, x, z)
  {
    CompareTransitive(b, x, y, z, |b|);
    CompareAntisymmetric(b, x, y, |b|);
    CompareAntisymmetric(b, y, z, |b|);
    CompareTransitive(b, z, y, x, |b|);
    CompareAntisymmetric(b, x, z, |b|);
  }

  /** Row k followed through the transform is, as a string, row k turned by one byte. */
  lemma TransformAdvances(b: seq<byte>, ptr: seq<int>, k: nat)
    requires b != [] && SortsRotations(b, ptr) && k < |b|
    ensures SameRotation(b, ptr[k] + 1, ptr[Transform(LastColumn(b, ptr))[k]])
  {
    var q := ShiftedRows(b, ptr);
    ShiftedRowsSort(b, ptr);
    SortsAgree(b, ptr, q, k);
    AdvanceKeepsEquality(b, ptr[k], q[k]);
    CompareAfterBefore(b, ptr[Transform(LastColumn(b, ptr))[k]], ptr[k] + 1, |b|);
  }

  lemma {:induction false} WalkFollowsBlock(b: seq<byte>, ptr: seq<int>, origPtr: nat, k: nat)
    requires b != [] && SortsRotations(b, ptr) && origPtr < |b| && ptr[origPtr] == 0
    ensures SameRotation(b, k, ptr[Walk(Transform(LastColumn(b, ptr)), origPtr, k)])
  {
    var t := Transform(LastColumn(b, ptr));
    if k == 0 {
      CompareAntisymmetric(b, 0, 0, |b|);
    } else {
      WalkFollowsBlock(b, ptr, origPtr, k - 1);
      var row := Walk(t, origPtr, k - 1);
      AdvanceKeepsEquality(b, k - 1, ptr[row]);
      TransformAdvances(b, ptr, row);
      SameRotationTransitive(b, k, ptr[row] + 1, ptr[t[row]]);
    }
  }

  /** Rotations that are the same string end in the same byte. */
  lemma SameLastByte(b: seq<byte>, k: nat, x: nat)
    requires b != [] && x < |b| && SameRotation(b, k + 1, x)
    ensures At(b, k) == b[Before(|b|, x)]
  {
    var n := |b|;
    CompareMeaning(b, k + 1, x, n);
    assert Row(b, k + 1, n)[n - 1] == Row(b, x, n)[n - 1];
    assert At(b, k + n) == At(b, k);
    assert x > 0 ==> At(b, x - 1 + n) == At(b, x - 1);
  }

  /** The decoder fetches the block, over and over, whatever order equal rotations were sorted in. */
  lemma FetchesBlock(b: seq<byte>, ptr: seq<int>, origPtr: nat, k: nat)
    requires b != [] && SortsRotations(b, ptr) && origPtr < |b| && ptr[origPtr] == 0
    ensures Fetched(LastColumn(b, ptr), origPtr, k) == At(b, k)
  {
    var row := Walk(Transform(LastColumn(b, ptr)), origPtr, k + 1);
    WalkFollowsBlock(b, ptr, origPtr, k + 1);
    SameLastByte(b, k, ptr[row]);
  }

  /** Inverting the last column of any sort of the rotations gives the block back. */
  lemma InversionRebuildsBlock(b: seq<byte>, ptr: seq<int>, origPtr: nat)
    requires b != [] && SortsRotations(b, ptr) && origPtr < |b| && ptr[origPtr] == 0
    ensures Unsorted(LastColumn(b, ptr), origPtr, |b|) == b
  {
    forall k | 0 <= k < |b|
      ensures Unsorted(LastColumn(b, ptr), origPtr, |b|)[k] == b[k]
    {
      FetchesBlock(b, ptr, origPtr, k);
    }
  }
}
