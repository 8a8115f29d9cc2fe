/**
 * The fallback block sorter: a radix sort by first byte, then repeated doubling of the number of
 * bytes the rotations are sorted by, with header bits where neighbouring rotations differ.
 */
module FallbackSort {
  import opened Words
  import opened Permutations
  import opened Permuting
  import opened Rotations
  import opened BurrowsWheeler
  import opened HeaderBits
  import opened FallbackQSort

  // ---------- Theory of one doubling pass ----------

  /** The first h bytes of x and y agree. */
  ghost predicate SameTo(b: seq<byte>, x: nat, y: nat, h: nat)
    requires b != []
  {
    Compare(b, x, y, h) == 0
  }

  /** Comparing equal strings instead gives the same result. */
  lemma {:induction false} CompareSame(b: seq<byte>, x: nat, x': nat, y: nat, y': nat, h: nat)
    requires b != [] && SameTo(b, x, x', h) && SameTo(b, y, y', h)
    ensures Compare(b, x, y, h) == Compare(b, x', y', h)
    decreases h
  {
    if h > 0 { CompareSame(b, x + 1, x' + 1, y + 1, y' + 1, h - 1); }
  }

  lemma {:induction false} SameToReflexive(b: seq<byte>, x: nat, h: nat)
    requires b != []
    ensures SameTo(b, x, x, h)
  {
    CompareAntisymmetric(b, x, x, h);
  }

  ghost predicate Indices(b: seq<byte>, f: seq<int>) {
    |f| == |b| && forall i :: 0 <= i < |f| ==> 0 <= f[i] < |b|
  }

  /** f is in order by the first h bytes, and flag i says whether row i differs there from row i-1. */
  ghost predicate Headed(b: seq<byte>, f: seq<int>, flags: seq<bool>, h: nat) {
    && b != [] && Indices(b, f) && |b| < |flags| && flags[0]
    && forall i {:trigger flags[i]} :: 0 < i < |f| ==> Compare(b, f[i - 1], f[i], h) == if flags[i] then -1 else 0
  }

  /** Every row stands in the bucket of its first byte. */
  ghost predicate InByteBuckets(b: seq<byte>, f: seq<int>) {
    Indices(b, f) && forall i :: 0 <= i < |f| ==> Smaller(b, b[f[i]], |b|) <= i < Smaller(b, b[f[i]] as int + 1, |b|)
  }

  /** The last flagged position up to p. */
  function Head(flags: seq<bool>, p: nat): (r: nat)
    requires p < |flags|
    ensures r <= p
  {
    if p == 0 || flags[p] then p else Head(flags, p - 1)
  }

  /** Heads rank the rows by their first h bytes. */
  lemma {:induction false} HeadOrder(b: seq<byte>, f: seq<int>, flags: seq<bool>, h: nat, p: nat, q: nat)
    requires Headed(b, f, flags, h) && p <= q < |f|
    ensures Head(flags, p) <= Head(flags, q)
    ensures Head(flags, p) == Head(flags, q) <==> Compare(b, f[p], f[q], h) == 0
    ensures Compare(b, f[p], f[q], h) <= 0
    decreases q
  {
    SameToReflexive(b, f[p], h);
    if p < q {
      HeadOrder(b, f, flags, h, p, q - 1);
      assert Compare(b, f[q - 1], f[q], h) == if flags[q] then -1 else 0;
      if flags[q] {
        CompareTransitive(b, f[p], f[q - 1], f[q], h);
      } else {
        CompareSame(b, f[p], f[p], f[q - 1], f[q], h);
      }
    }
  }

  /** e ranks position x by the h bytes that start h places after x. */
  ghost predicate Classes(b: seq<byte>, e: seq<int>, h: nat) {
    && b != [] && |e| == |b|
    && forall x, y :: 0 <= x < |b| && 0 <= y < |b| ==> (e[x] < e[y] <==> Compare(b, x + h, y + h, h) < 0)
  }

  /** h places back in the block, cyclically. */
  function Back(n: nat, x: int, h: int): int {
    var k := x - h;
    if k < 0 then k + n else k
  }

  /** Every row has given its head to the position h places before it. */
  ghost predicate HeadsStored(b: seq<byte>, f: seq<int>, flags: seq<bool>, e: seq<int>, h: nat, m: nat) {
    && Indices(b, f) && |e| == |b| < |flags| && m <= |b| && h <= |b|
    && forall p :: 0 <= p < m ==> e[Back(|b|, f[p], h)] == Head(flags, p)
  }

  lemma ClassesFromHeads(b: seq<byte>, f: seq<int>, flags: seq<bool>, e: seq<int>, h: nat)
    requires Headed(b, f, flags, h) && IsPermutation(f) && HeadsStored(b, f, flags, e, h, |b|)
    ensures Classes(b, e, h)
  {
    forall x, y | 0 <= x < |b| && 0 <= y < |b|
      ensures e[x] < e[y] <==> Compare(b, x + h, y + h, h) < 0
    {
      ClassesOfPair(b, f, flags, e, h, x, y);
    }
  }

  lemma ClassesOfPair(b: seq<byte>, f: seq<int>, flags: seq<bool>, e: seq<int>, h: nat, x: nat, y: nat)
    requires Headed(b, f, flags, h) && IsPermutation(f) && HeadsStored(b, f, flags, e, h, |b|) && x < |b| && y < |b|
    ensures e[x] < e[y] <==> Compare(b, x + h, y + h, h) < 0
  {
    hide Compare, Headed, IsPermutation, At;
    var p := RowAhead(b, f, h, x);
    var q := RowAhead(b, f, h, y);
    TurnBoth(b, x + h, y + h, f[p], f[q], h);
    if p <= q {
      HeadOrder(b, f, flags, h, p, q);
    } else {
      HeadOrder(b, f, flags, h, q, p);
      CompareAntisymmetric(b, f[p], f[q], h);
    }
  }

  lemma RowAhead(b: seq<byte>, f: seq<int>, h: nat, x: nat) returns (p: nat)
    requires b != [] && Indices(b, f) && IsPermutation(f) && h <= |b| && x < |b|
    ensures p < |f| && Back(|b|, f[p], h) == x && (f[p] == x + h || f[p] + |b| == x + h)
  {
    Surjective(f);
    var y := if x + h < |b| then x + h else x + h - |b|;
    assert y in f;
    p :| 0 <= p < |f| && f[p] == y;
  }

  lemma TurnBoth(b: seq<byte>, x: nat, y: nat, x': nat, y': nat, h: nat)
    requires b != [] && (x == x' || x == x' + |b|) && (y == y' || y == y' + |b|)
    ensures Compare(b, x, y, h) == Compare(b, x', y', h)
  {
    CompareTurn(b, x', y, h);
    CompareTurn(b, x', y', h);
  }

  /** Rows that agree on h bytes are ordered on 2h bytes by the classes. */
  lemma ClassesRefine(b: seq<byte>, e: seq<int>, h: nat, x: nat, y: nat)
    requires Classes(b, e, h) && x < |b| && y < |b| && Compare(b, x, y, h) == 0
    ensures Compare(b, x, y, 2 * h) == if e[x] < e[y] then -1 else if e[x] > e[y] then 1 else 0
  {
    CompareSplit(b, x, y, h, h);
    CompareAntisymmetric(b, x + h, y + h, h);
  }

  /** Halfway through a pass: rows up to r are in order by 2h bytes, the later ones as at its start. */
  ghost predicate Refining(b: seq<byte>, f0: seq<int>, flags0: seq<bool>, f: seq<int>, flags: seq<bool>, h: nat, r: int) {
    && b != [] && Indices(b, f0) && Indices(b, f) && IsPermutation(f) && |flags| == |flags0| > |b|
    && (forall i :: 0 <= i < |b| ==> SameTo(b, f[i], f0[i], h))
    && (forall i {:trigger flags[i]} :: 0 < i <= r && i < |b| ==> Compare(b, f[i - 1], f[i], 2 * h) == if flags[i] then -1 else 0)
    && (forall i {:trigger flags[i]} :: r < i && 0 <= i < |flags| ==> flags[i] == flags0[i])
    && flags[0] && flags0[0]
  }

  lemma RefiningStart(b: seq<byte>, f: seq<int>, flags: seq<bool>, h: nat)
    requires Headed(b, f, flags, h) && IsPermutation(f)
    ensures Refining(b, f, flags, f, flags, h, -1)
  {
    forall i | 0 <= i < |b|
      ensures SameTo(b, f[i], f[i], h)
    {
      SameToReflexive(b, f[i], h);
    }
  }

  lemma RefiningEnd(b: seq<byte>, f0: seq<int>, flags0: seq<bool>, f: seq<int>, flags: seq<bool>, h: nat, r: int)
    requires Refining(b, f0, flags0, f, flags, h, r) && r >= |b| - 1
    ensures Headed(b, f, flags, 2 * h) && IsPermutation(f)
  {
  }

  /** Rows l..i of one bucket agree on h bytes. */
  lemma {:induction false} BucketAgrees(b: seq<byte>, f: seq<int>, flags: seq<bool>, h: nat, l: nat, i: nat)
    requires Headed(b, f, flags, h) && l <= i < |f|
    requires forall k :: l < k <= i ==> !flags[k]
    ensures SameTo(b, f[l], f[i], h)
    decreases i
  {
    SameToReflexive(b, f[l], h);
    if l < i {
      BucketAgrees(b, f, flags, h, l, i - 1);
      assert !flags[i];
      SameToReflexive(b, f[i], h);
      CompareSame(b, f[l], f[i - 1], f[i], f[i], h);
    }
  }

  /** Row i is of another class than row i-1. */
  ghost predicate ClassChanges(e: seq<int>, f: seq<int>, i: int) {
    0 < i < |f| && Key(e, f[i - 1]) != Key(e, f[i])
  }

  /** What marking the headers of rows l..m-1 of a bucket does to the flags. */
  ghost predicate Marked(e: seq<int>, f: seq<int>, flags: seq<bool>, flags': seq<bool>, l: int, m: int) {
    && |flags'| == |flags| && 0 <= l <= m <= |f| < |flags|
    && (forall i :: 0 <= i < |flags| && !(l < i < m) ==> flags'[i] == flags[i])
    && (forall i {:trigger flags'[i]} :: l < i < m ==> flags'[i] == (flags[i] || ClassChanges(e, f, i)))
  }

  /** Rearranging inside a bucket leaves every row in its class of the first h bytes. */
  lemma BucketKeepsClass(b: seq<byte>, f0: seq<int>, flags0: seq<bool>, f: seq<int>, f': seq<int>, h: nat, l: int, r: int, i: int)
    requires Headed(b, f0, flags0, h) && Indices(b, f) && 0 <= l <= i <= r < |b|
    requires forall k :: l < k <= r ==> !flags0[k]
    requires forall k :: 0 <= k < |b| ==> SameTo(b, f[k], f0[k], h)
    requires Permuted(f, f', l, r + 1)
    ensures 0 <= f'[i] < |b| && SameTo(b, f'[i], f0[i], h)
  {
    var p := PermutedFrom(f, f', l, r + 1, i);
    BucketAgrees(b, f0, flags0, h, l, p);
    BucketAgrees(b, f0, flags0, h, l, i);
    SameToReflexive(b, f0[i], h);
    SameToReflexive(b, f0[l], h);
    CompareSame(b, f[p], f0[p], f0[i], f0[i], h);
    CompareSame(b, f0[l], f0[p], f0[l], f0[i], h);
  }

  /** One row of a refined bucket, or of the single rows before it, against the row before. */
  lemma RowRefined(b: seq<byte>, f0: seq<int>, flags0: seq<bool>, f: seq<int>, h: nat, e: seq<int>, i: int, flag: bool)
    requires Headed(b, f0, flags0, h) && Indices(b, f) && Classes(b, e, h) && 0 < i < |b|
    requires SameTo(b, f[i - 1], f0[i - 1], h) && SameTo(b, f[i], f0[i], h)
    requires if flags0[i] then flag else e[f[i - 1]] <= e[f[i]] && flag == (e[f[i - 1]] != e[f[i]])
    ensures Compare(b, f[i - 1], f[i], 2 * h) == if flag then -1 else 0
  {
    CompareSame(b, f[i - 1], f0[i - 1], f[i], f0[i], h);
    if flags0[i] {
      CompareSplit(b, f[i - 1], f[i], h, h);
    } else {
      ClassesRefine(b, e, h, f[i - 1], f[i]);
    }
  }

  /** Sorting one bucket by class and marking its new headers refines it. */
  lemma BucketRefined(b: seq<byte>, f0: seq<int>, flags0: seq<bool>, f: seq<int>, flags: seq<bool>, h: nat, r0: int,
                      l: int, r: int, e: seq<int>, f': seq<int>, flags': seq<bool>)
    requires Headed(b, f0, flags0, h) && Refining(b, f0, flags0, f, flags, h, r0) && Classes(b, e, h)
    requires -1 <= r0 < l <= r < |b|
    requires (forall i :: r0 < i <= l ==> flags[i]) && (forall i :: l < i <= r ==> !flags[i])
    requires Permuted(f, f', l, r + 1) && SortedKeys(e, f', l, r + 1) && Marked(e, f', flags, flags', l, r + 1)
    ensures Refining(b, f0, flags0, f', flags', h, r)
  {
    PermutedPermutation(f, f', l, r + 1);
    assert forall k :: l < k <= r ==> flags[k] == flags0[k];
    forall i | 0 <= i < |b|
      ensures 0 <= f'[i] < |b| && SameTo(b, f'[i], f0[i], h)
    {
      if l <= i <= r { BucketKeepsClass(b, f0, flags0, f, f', h, l, r, i); } else { assert f'[i] == f[i]; }
    }
    forall i {:trigger flags'[i]} | 0 < i <= r && i < |b|
      ensures Compare(b, f'[i - 1], f'[i], 2 * h) == if flags'[i] then -1 else 0
    {
      if i <= r0 {
        assert f'[i - 1] == f[i - 1] && f'[i] == f[i] && flags'[i] == flags[i];
      } else {
        RowRefined(b, f0, flags0, f', h, e, i, flags'[i]);
      }
    }
  }

  // ---------- The sorter ----------

  /** The row h places before the i-th gets the head of its bucket. */
  method StoreHead(fmap: array<int>, eclass: array<int>, h: nat, i: nat, j: nat, ghost b: seq<byte>, ghost flags: seq<bool>)
    requires fmap != eclass && fmap.Length == eclass.Length == |b| && 0 < h <= |b| && i < |b|
    requires HeadsStored(b, fmap[..], flags, eclass[..], h, i) && IsPermutation(fmap[..]) && j == Head(flags, i)
    modifies eclass
    ensures HeadsStored(b, fmap[..], flags, eclass[..], h, i + 1)
  {
    hide IsPermutation, Head;
    BackInjective(b, fmap[..], h, i);
    var k := fmap[i] - h;
    if k < 0 { k := k + fmap.Length; }
    eclass[k] := j;
  }

  /** eclass[k] becomes the bucket head of the row that starts h places after k. */
  method AssignClasses(fmap: array<int>, eclass: array<int>, bh: HeaderTable, h: nat, ghost b: seq<byte>)
    requires fmap != eclass && fmap.Length == eclass.Length == |b| && 0 < h <= |b|
    requires eclass as object != bh.bhtab && fmap as object != bh.bhtab
    requires Headed(b, fmap[..], bh.Flags(), h) && IsPermutation(fmap[..])
    modifies eclass
    ensures Classes(b, eclass[..], h)
    ensures forall i :: 0 <= i < eclass.Length ==> 0 <= eclass[i]
  {
    hide Headed, IsPermutation, Compare, Classes;
    ghost var f, flags := fmap[..], bh.Flags();
    HeadedShape(b, f, flags, h);
    var n := fmap.Length;
    var j := 0;
    for i := 0 to n
      invariant fmap[..] == f && bh.Flags() == flags
      invariant i > 0 ==> j == Head(flags, i - 1)
      invariant i == 0 ==> j == 0
      invariant HeadsStored(b, f, flags, eclass[..], h, i)
    {
      if bh.IsSet(i) { j := i; }
      assert j == Head(flags, i);
      StoreHead(fmap, eclass, h, i, j, b, flags);
    }
    ClassesFromHeads(b, f, flags, eclass[..], h);
    HeadsCover(b, f, flags, eclass[..], h);
  }

  lemma HeadedShape(b: seq<byte>, f: seq<int>, flags: seq<bool>, h: nat)
    requires Headed(b, f, flags, h)
    ensures b != [] && Indices(b, f) && |b| < |flags| && flags[0]
  {
  }

  lemma BackInjective(b: seq<byte>, f: seq<int>, h: nat, i: nat)
    requires Indices(b, f) && IsPermutation(f) && 0 < h <= |b| && i < |b|
    ensures forall p :: 0 <= p < i ==> Back(|b|, f[p], h) != Back(|b|, f[i], h)
    ensures 0 <= Back(|b|, f[i], h) < |b|
  {
  }

  lemma HeadsCover(b: seq<byte>, f: seq<int>, flags: seq<bool>, e: seq<int>, h: nat)
    requires b != [] && IsPermutation(f) && HeadsStored(b, f, flags, e, h, |b|)
    ensures forall x :: 0 <= x < |e| ==> 0 <= e[x]
  {
    forall x | 0 <= x < |e|
      ensures 0 <= e[x]
    {
      var p := RowAhead(b, f, h, x);
    }
  }

  /** Sets a header bit wherever the class changes inside the bucket. */
  method MarkHeaders(fmap: array<int>, eclass: array<int>, bh: HeaderTable, l: nat, r: nat)
    requires l <= r < fmap.Length < |bh.Flags()| && fmap as object != bh.bhtab && eclass as object != bh.bhtab
    requires InRange(fmap[..], eclass.Length) && bh.IsSet(l)
    requires forall i :: 0 <= i < eclass.Length ==> 0 <= eclass[i]
    modifies bh.bhtab
    ensures Marked(eclass[..], fmap[..], old(bh.Flags()), bh.Flags(), l, r + 1)
  {
    hide Marked;
    ghost var e, f, flags := eclass[..], fmap[..], bh.Flags();
    MarkedNone(e, f, flags, l);
    var cc := -1;
    for i := l to r + 1
      invariant cc == if i == l then -1 else Key(e, f[i - 1])
      invariant eclass[..] == e && fmap[..] == f && |bh.Flags()| == |flags|
      invariant Marked(e, f, flags, bh.Flags(), l, i)
    {
      var cc1 := eclass[fmap[i]];
      MarkedStep(e, f, flags, bh.Flags(), l, i);
      if cc != cc1 {
        bh.SetBh(i);
        cc := cc1;
      }
    }
  }

  lemma MarkedNone(e: seq<int>, f: seq<int>, flags: seq<bool>, l: nat)
    requires l <= |f| < |flags|
    ensures Marked(e, f, flags, flags, l, l)
  {
  }

  lemma MarkedStep(e: seq<int>, f: seq<int>, flags: seq<bool>, cur: seq<bool>, l: nat, i: nat)
    requires Marked(e, f, flags, cur, l, i) && l <= i < |f| && flags[l]
    ensures i == l || ClassChanges(e, f, i) ==> Marked(e, f, flags, cur[i := true], l, i + 1)
    ensures i > l && !ClassChanges(e, f, i) ==> Marked(e, f, flags, cur, l, i + 1)
  {
    assert cur[i] == flags[i];
  }

  /** The flags just past the last row: set, then clear, so that every scan stops. */
  ghost predicate Sentinels(flags: seq<bool>, n: nat) {
    n + 1 < |flags| && flags[n] && !flags[n + 1]
  }

  ghost predicate Ready(b: seq<byte>, fmap: array<int>, eclass: array<int>, bh: HeaderTable) {
    && fmap != eclass && fmap.Length == eclass.Length == |b| <= 900_000
    && eclass as object != bh.bhtab && fmap as object != bh.bhtab
  }

  /** Sorts and marks one bucket. */
  method RefineBucket(fmap: array<int>, eclass: array<int>, bh: HeaderTable, l: nat, r: nat, h: nat,
                      ghost b: seq<byte>, ghost f0: seq<int>, ghost flags0: seq<bool>, ghost r0: int)
    requires Ready(b, fmap, eclass, bh) && -1 <= r0 < l <= r < |b|
    requires Headed(b, f0, flags0, h) && Refining(b, f0, flags0, fmap[..], bh.Flags(), h, r0) && Sentinels(bh.Flags(), |b|)
    requires Classes(b, eclass[..], h) && forall i :: 0 <= i < eclass.Length ==> 0 <= eclass[i]
    requires (forall i :: r0 < i <= l ==> bh.Flags()[i]) && (forall i :: l < i <= r ==> !bh.Flags()[i])
    modifies fmap, bh.bhtab
    ensures Refining(b, f0, flags0, fmap[..], bh.Flags(), h, r) && Sentinels(bh.Flags(), |b|)
    ensures forall i :: 0 <= i <= r0 && i < |b| ==> bh.Flags()[i] == old(bh.Flags()[i])
  {
    hide Headed, Classes, Permuted, SortedKeys, IsPermutation, Compare;
    ghost var e, f, flags := eclass[..], fmap[..], bh.Flags();
    RefiningShape(b, f0, flags0, f, flags, h, r0);
    FallbackQSort3(fmap, eclass, l, r);
    PermutedInRange(f, fmap[..], l, r + 1, |b|);
    MarkHeaders(fmap, eclass, bh, l, r);
    BucketRefined(b, f0, flags0, f, flags, h, r0, l, r, e, fmap[..], bh.Flags());
  }

  lemma RefiningShape(b: seq<byte>, f0: seq<int>, flags0: seq<bool>, f: seq<int>, flags: seq<bool>, h: nat, r: int)
    requires Refining(b, f0, flags0, f, flags, h, r)
    ensures b != [] && Indices(b, f) && |b| < |flags| == |flags0| && flags[0] && IsPermutation(f)
    ensures forall i :: r < i && 0 <= i < |flags| ==> flags[i] == flags0[i]
  {
  }

  /** Single rows, each its own bucket, need no work. */
  lemma SinglesRefined(b: seq<byte>, f0: seq<int>, flags0: seq<bool>, f: seq<int>, flags: seq<bool>, h: nat, r0: int, m: int, e: seq<int>)
    requires Headed(b, f0, flags0, h) && Refining(b, f0, flags0, f, flags, h, r0) && Classes(b, e, h)
    requires -1 <= r0 <= m < |b| && forall i :: r0 < i <= m ==> flags[i]
    ensures Refining(b, f0, flags0, f, flags, h, m)
  {
    forall i {:trigger flags[i]} | 0 < i <= m && i < |b|
      ensures Compare(b, f[i - 1], f[i], 2 * h) == if flags[i] then -1 else 0
    {
      if i > r0 { RowRefined(b, f0, flags0, f, h, e, i, flags[i]); }
    }
  }

  lemma KeepsByteBuckets(b: seq<byte>, f0: seq<int>, flags0: seq<bool>, f: seq<int>, flags: seq<bool>, h: nat, r: int)
    requires Refining(b, f0, flags0, f, flags, h, r) && h > 0 && InByteBuckets(b, f0)
    ensures InByteBuckets(b, f)
  {
    forall i | 0 <= i < |b|
      ensures b[f[i]] == b[f0[i]]
    {
      assert SameTo(b, f[i], f0[i], h);
    }
  }

  /** The next bucket l..end of more than one row after row r, or l >= nblock when there is none. */
  method FindBucket(bh: HeaderTable, r: int, nblock: nat) returns (l: int, end: int)
    requires -1 <= r < nblock && Sentinels(bh.Flags(), nblock) && bh.Flags()[r + 1]
    ensures l > r && forall i :: r < i <= l ==> i < |bh.Flags()| && bh.Flags()[i]
    ensures l < nblock ==> l < end < nblock && bh.Flags()[end + 1] && forall i :: l < i <= end ==> !bh.Flags()[i]
  {
    var k := bh.NextClear(r + 1, nblock + 1);
    l, end := k - 1, nblock;
    if l >= nblock { return; }
    k := bh.NextSet(k, nblock);
    end := k - 1;
  }

  /** One doubling of the sorted length: finds every bucket of several rows and refines it. */
  method RefinePass(fmap: array<int>, eclass: array<int>, bh: HeaderTable, h: nat, ghost b: seq<byte>) returns (nNotDone: nat)
    requires Ready(b, fmap, eclass, bh) && 0 < h <= |b|
    requires Headed(b, fmap[..], bh.Flags(), h) && IsPermutation(fmap[..]) && InByteBuckets(b, fmap[..]) && Sentinels(bh.Flags(), |b|)
    modifies fmap, eclass, bh.bhtab
    ensures Headed(b, fmap[..], bh.Flags(), 2 * h) && IsPermutation(fmap[..]) && InByteBuckets(b, fmap[..]) && Sentinels(bh.Flags(), |b|)
    ensures nNotDone == 0 ==> forall i :: 0 <= i < |b| ==> bh.Flags()[i]
  {
    hide Headed, Classes, Refining, IsPermutation, InByteBuckets;
    ghost var f0, flags0 := fmap[..], bh.Flags();
    AssignClasses(fmap, eclass, bh, h, b);
    RefiningStart(b, f0, flags0, h);
    HeadedShape(b, f0, flags0, h);
    assert fmap[..] == f0 && bh.Flags() == flags0;
    var nblock := fmap.Length;
    nNotDone := 0;
    var r := -1;
    while true
      invariant -1 <= r < nblock
      invariant Refining(b, f0, flags0, fmap[..], bh.Flags(), h, r) && Sentinels(bh.Flags(), |b|)
      invariant Classes(b, eclass[..], h) && forall i :: 0 <= i < eclass.Length ==> 0 <= eclass[i]
      invariant bh.Flags()[r + 1]
      invariant nNotDone == 0 ==> forall i :: 0 <= i <= r ==> bh.Flags()[i]
      decreases nblock - r
    {
      RefiningShape(b, f0, flags0, fmap[..], bh.Flags(), h, r);
      ghost var r0 := r;
      var l, end := FindBucket(bh, r, nblock);
      if l >= nblock { break; }
      r := end;
      if r >= nblock { break; }
      if r > l {
        nNotDone := nNotDone + (r - l + 1);
        RefineBucket(fmap, eclass, bh, l, r, h, b, f0, flags0, r0);
        RefiningShape(b, f0, flags0, fmap[..], bh.Flags(), h, r);
      }
    }
    SinglesRefined(b, f0, flags0, fmap[..], bh.Flags(), h, r, nblock - 1, eclass[..]);
    RefiningEnd(b, f0, flags0, fmap[..], bh.Flags(), h, nblock - 1);
    KeepsByteBuckets(b, f0, flags0, fmap[..], bh.Flags(), h, nblock - 1);
  }

  // ---------- The initial radix sort ----------

  /** Where the radix sort puts position i: its bucket is filled from the top. */
  ghost function DownPosition(b: seq<byte>, i: nat): int
    requires i < |b|
  {
    Smaller(b, b[i] as int + 1, |b|) - Count(b, b[i], i) - 1
  }

  lemma DownPositionInBucket(b: seq<byte>, i: nat)
    requires i < |b|
    ensures Smaller(b, b[i], |b|) <= DownPosition(b, i) < Smaller(b, b[i] as int + 1, |b|) <= |b|
  {
    CountMonotone(b, b[i], i, |b|);
    SmallerStep(b, b[i], |b|);
  }

  lemma DownPositionsDiffer(b: seq<byte>, i: nat, j: nat)
    requires i < j < |b|
    ensures DownPosition(b, i) != DownPosition(b, j)
  {
    DownPositionInBucket(b, i);
    DownPositionInBucket(b, j);
    if b[i] < b[j] {
      SmallerMonotone(b, b[i] as int + 1, b[j], |b|);
    } else if b[j] < b[i] {
      SmallerMonotone(b, b[j] as int + 1, b[i], |b|);
    } else {
      CountMonotone(b, b[i], i, j);
    }
  }

  /** The first m positions are in their places. */
  ghost predicate Distributed(b: seq<byte>, f: seq<int>, m: nat) {
    |f| == |b| && m <= |b| && forall i :: 0 <= i < m ==> 0 <= DownPosition(b, i) < |f| && f[DownPosition(b, i)] == i
  }

  lemma DistributeStep(b: seq<byte>, f: seq<int>, m: nat)
    requires Distributed(b, f, m) && m < |b|
    ensures 0 <= DownPosition(b, m) < |f| && Distributed(b, f[DownPosition(b, m) := m], m + 1)
  {
    DownPositionInBucket(b, m);
    forall i | 0 <= i < m
      ensures DownPosition(b, i) != DownPosition(b, m)
    {
      DownPositionsDiffer(b, i, m);
    }
  }

  lemma DistributedAll(b: seq<byte>, f: seq<int>)
    requires Distributed(b, f, |b|)
    ensures IsPermutation(f) && InByteBuckets(b, f)
  {
    var d := seq(|b|, i requires 0 <= i < |b| => DownPosition(b, i));
    forall i, j | 0 <= i < j < |b|
      ensures d[i] != d[j]
    {
      DownPositionsDiffer(b, i, j);
    }
    LeftInverseIsInverse(d, f);
    forall k | 0 <= k < |b|
      ensures Smaller(b, b[f[k]], |b|) <= k < Smaller(b, b[f[k]] as int + 1, |b|)
    {
      assert d[f[k]] == k;
      DownPositionInBucket(b, f[k]);
    }
  }

  /** ftab[c] becomes the end of the bucket of byte c, ftabCopy[c] its size. */
  method CountBytes(eclass8: array<byte>, ftab: array<int>, ftabCopy: array<int>, ghost b: seq<byte>)
    requires eclass8[..] == b && ftab.Length == 257 && ftabCopy.Length == 256 && ftab != ftabCopy
    requires ftab as object != eclass8 && ftabCopy as object != eclass8
    modifies ftab, ftabCopy
    ensures forall c :: 0 <= c < 256 ==> ftab[c] == Smaller(b, c + 1, |b|) && ftabCopy[c] == Count(b, c, |b|)
  {
    var nblock := eclass8.Length;
    for i := 0 to 257
      invariant forall c :: 0 <= c < i ==> ftab[c] == 0
    {
      ftab[i] := 0;
    }
    for i := 0 to nblock
      invariant forall c :: 0 <= c < 256 ==> ftab[c] == Count(b, c, i)
      invariant eclass8[..] == b
    {
      assert eclass8[i] == b[i];
      ftab[eclass8[i]] := ftab[eclass8[i]] + 1;
    }
    for i := 0 to 256
      invariant forall c :: 0 <= c < i ==> ftabCopy[c] == ftab[c]
      invariant forall c :: 0 <= c < 256 ==> ftab[c] == Count(b, c, nblock)
    {
      ftabCopy[i] := ftab[i];
    }
    SmallerThanAll(b, nblock);
    SmallerStep(b, 0, nblock);
    for i := 1 to 257
      invariant forall c :: 0 <= c < 256 ==> ftabCopy[c] == Count(b, c, nblock)
      invariant forall c :: 0 <= c < i && c < 256 ==> ftab[c] == Smaller(b, c + 1, nblock)
      invariant forall c :: i <= c < 256 ==> ftab[c] == Count(b, c, nblock)
    {
      SmallerStep(b, i, nblock);
      ftab[i] := ftab[i] + ftab[i - 1];
    }
  }

  /** Places every position in its bucket; ftab[c] ends as the start of the bucket of c. */
  method Distribute(eclass8: array<byte>, fmap: array<int>, ftab: array<int>, ghost b: seq<byte>)
    requires eclass8[..] == b && fmap.Length == |b| && ftab.Length == 257 && fmap != ftab
    requires ftab as object != eclass8 && fmap as object != eclass8
    requires forall c :: 0 <= c < 256 ==> ftab[c] == Smaller(b, c + 1, |b|)
    modifies fmap, ftab
    ensures IsPermutation(fmap[..]) && InByteBuckets(b, fmap[..])
    ensures forall c :: 0 <= c < 256 ==> ftab[c] == Smaller(b, c, |b|)
  {
    hide IsPermutation, InByteBuckets, Distributed, Smaller;
    DistributedNone(b, fmap[..]);
    for i := 0 to fmap.Length
      invariant eclass8[..] == b
      invariant forall c :: 0 <= c < 256 ==> ftab[c] == Smaller(b, c + 1, |b|) - Count(b, c, i)
      invariant Distributed(b, fmap[..], i)
    {
      DistributeStep(b, fmap[..], i);
      ghost var before := fmap[..];
      assert eclass8[i] == b[i];
      var j := eclass8[i];
      var k := ftab[j] - 1;
      ftab[j] := k;
      fmap[k] := i;
      assert fmap[..] == before[k := i];
    }
    DistributedAll(b, fmap[..]);
    forall c | 0 <= c < 256
      ensures ftab[c] == Smaller(b, c, |b|)
    {
      SmallerStep(b, c, |b|);
    }
  }

  lemma DistributedNone(b: seq<byte>, f: seq<int>)
    requires |f| == |b|
    ensures Distributed(b, f, 0)
  {
  }

  /** z is the start of the bucket of one of the first m bytes. */
  ghost predicate IsBucketStart(b: seq<byte>, m: int, z: int) {
    exists c :: 0 <= c < m && Smaller(b, c, |b|) == z
  }

  lemma HeadedByFirstByte(b: seq<byte>, f: seq<int>, flags: seq<bool>)
    requires b != [] && InByteBuckets(b, f) && |b| < |flags|
    requires forall z :: 0 <= z < |b| ==> flags[z] == IsBucketStart(b, 256, z)
    ensures Headed(b, f, flags, 1)
  {
    SmallerThanAll(b, |b|);
    assert Smaller(b, 0, |b|) == 0;
    assert IsBucketStart(b, 256, 0);
    forall i {:trigger flags[i]} | 0 < i < |f|
      ensures Compare(b, f[i - 1], f[i], 1) == if flags[i] then -1 else 0
    {
      NeighboursByFirstByte(b, f, i);
    }
  }

  lemma NeighboursByFirstByte(b: seq<byte>, f: seq<int>, i: nat)
    requires InByteBuckets(b, f) && 0 < i < |f|
    ensures Compare(b, f[i - 1], f[i], 1) == if IsBucketStart(b, 256, i) then -1 else 0
  {
    var c, d := b[f[i - 1]], b[f[i]];
    assert Smaller(b, c, |b|) <= i - 1 < Smaller(b, c as int + 1, |b|);
    assert Smaller(b, d, |b|) <= i < Smaller(b, d as int + 1, |b|);
    if c < d {
      SmallerMonotone(b, c as int + 1, d, |b|);
      assert Smaller(b, d, |b|) == i;
    } else if d < c {
      SmallerMonotone(b, d as int + 1, c, |b|);
    } else if x :| 0 <= x < 256 && Smaller(b, x, |b|) == i {
      if x <= c { SmallerMonotone(b, x, c, |b|); } else { SmallerMonotone(b, c as int + 1, x, |b|); }
    }
  }

  /** Flags the bucket starts, and the alternating flags past the end. */
  method MarkBuckets(bh: HeaderTable, ftab: array<int>, nblock: nat, ghost b: seq<byte>)
    requires ftab.Length == 257 && ftab as object != bh.bhtab && nblock == |b| && (nblock + 63) / 32 < bh.bhtab.Length
    requires forall c :: 0 <= c < 256 ==> ftab[c] == Smaller(b, c, |b|)
    modifies bh.bhtab
    ensures forall z :: 0 <= z < nblock ==> bh.Flags()[z] == IsBucketStart(b, 256, z)
    ensures Sentinels(bh.Flags(), nblock)
  {
    var nBhtab := 2 + nblock / 32;
    bh.ClearWords(nBhtab);
    for i := 0 to 256
      invariant forall z :: 0 <= z < nblock ==> bh.Flags()[z] == IsBucketStart(b, i, z)
      invariant forall c :: 0 <= c < 256 ==> ftab[c] == Smaller(b, c, |b|)
    {
      ghost var before := bh.Flags();
      var start := ftab[i];
      bh.SetBh(start);
      forall z | 0 <= z < nblock
        ensures bh.Flags()[z] == IsBucketStart(b, i + 1, z)
      {
        assert IsBucketStart(b, i, z) ==> IsBucketStart(b, i + 1, z);
      }
    }
    for i := 0 to 32
      invariant forall z :: 0 <= z < nblock ==> bh.Flags()[z] == IsBucketStart(b, 256, z)
      invariant i > 0 ==> Sentinels(bh.Flags(), nblock)
    {
      bh.SetBh(nblock + 2 * i);
      bh.ClearBh(nblock + 2 * i + 1);
    }
  }

  // ---------- The whole sort ----------

  lemma BucketUnique(b: seq<byte>, i: nat, c: byte, j: int)
    requires Smaller(b, c, |b|) <= i < Smaller(b, c as int + 1, |b|) && Smaller(b, j, |b|) <= i < Smaller(b, j + 1, |b|)
    ensures c == j
  {
    if c < j { SmallerMonotone(b, c as int + 1, j, |b|); }
    if j < c { SmallerMonotone(b, j + 1, c, |b|); }
  }

  /** Restores the block bytes from the bucket sizes and the sorted order alone. */
  method RebuildBlock(fmap: array<int>, ftabCopy: array<int>, eclass8: array<byte>, ghost b: seq<byte>)
    requires fmap.Length == eclass8.Length == |b| && ftabCopy.Length == 256 && fmap != ftabCopy
    requires fmap as object != eclass8 && ftabCopy as object != eclass8
    requires IsPermutation(fmap[..]) && InByteBuckets(b, fmap[..])
    requires forall c :: 0 <= c < 256 ==> ftabCopy[c] == Count(b, c, |b|)
    modifies ftabCopy, eclass8
    ensures eclass8[..] == b
  {
    hide Smaller, Count;
    ghost var f, n := fmap[..], |b|;
    SmallerThanAll(b, n);
    SmallerStep(b, 0, n);
    var j := 0;
    for i := 0 to fmap.Length
      invariant 0 <= j < 256 && fmap[..] == f
      invariant Smaller(b, j, n) <= i && ftabCopy[j] == Smaller(b, j + 1, n) - i >= 0
      invariant forall c :: j < c < 256 ==> ftabCopy[c] == Count(b, c, n)
      invariant forall p :: 0 <= p < i ==> eclass8[f[p]] == b[f[p]]
    {
      while ftabCopy[j] == 0
        invariant 0 <= j < 256
        invariant Smaller(b, j, n) <= i && ftabCopy[j] == Smaller(b, j + 1, n) - i >= 0
        invariant forall c :: j < c < 256 ==> ftabCopy[c] == Count(b, c, n)
        invariant forall p :: 0 <= p < i ==> eclass8[f[p]] == b[f[p]]
        decreases 256 - j
      {
        SmallerStep(b, j + 1, n);
        j := j + 1;
      }
      BucketUnique(b, i, b[f[i]], j);
      ftabCopy[j] := ftabCopy[j] - 1;
      eclass8[fmap[i]] := j;
    }
    Surjective(f);
    forall x | 0 <= x < n
      ensures eclass8[x] == b[x]
    {
      assert x in f;
    }
  }

  /** When the sorted length covers the block, or every row has its own bucket, the sort is complete. */
  lemma HeadedSorts(b: seq<byte>, f: seq<int>, flags: seq<bool>, h: nat)
    requires Headed(b, f, flags, h) && IsPermutation(f)
    requires h >= |b| || forall i :: 0 <= i < |b| ==> flags[i]
    ensures SortsRotations(b, f)
  {
    forall i, j | 0 <= i < j < |f|
      ensures Compare(b, f[i], f[j], |b|) <= 0
    {
      HeadOrder(b, f, flags, h, i, j);
      if h >= |b| {
        CompareSaturates(b, f[i], f[j], h);
      } else {
        CompareSplit(b, f[i], f[j], h, |b| - h);
      }
    }
  }

  /** The classes are stored over the block bytes: nothing is known of the bytes afterwards. */
  method Overlay(eclass8: array<byte>)
    modifies eclass8
  {
    for i := 0 to eclass8.Length {
      eclass8[i] := 0;
    }
  }

  method SortByDoubling(fmap: array<int>, eclass: array<int>, bh: HeaderTable, ghost b: seq<byte>)
    requires Ready(b, fmap, eclass, bh)
    requires Headed(b, fmap[..], bh.Flags(), 1) && IsPermutation(fmap[..]) && InByteBuckets(b, fmap[..]) && Sentinels(bh.Flags(), |b|)
    modifies fmap, eclass, bh.bhtab
    ensures SortsRotations(b, fmap[..]) && IsPermutation(fmap[..]) && InByteBuckets(b, fmap[..])
  {
    HeadedShape(b, fmap[..], bh.Flags(), 1);
    hide Headed, IsPermutation, InByteBuckets, SortsRotations;
    var nblock := fmap.Length;
    var h := 1;
    while true
      invariant 0 < h <= nblock
      invariant Headed(b, fmap[..], bh.Flags(), h) && IsPermutation(fmap[..]) && InByteBuckets(b, fmap[..]) && Sentinels(bh.Flags(), |b|)
      decreases nblock - h
    {
      var nNotDone := RefinePass(fmap, eclass, bh, h, b);
      h := h * 2;
      if h > nblock || nNotDone == 0 { break; }
    }
    HeadedSorts(b, fmap[..], bh.Flags(), h);
  }

  /** The rows in the buckets of their first bytes, with the headers flagged. */
  method SortByFirstByte(fmap: array<int>, ftab: array<int>, eclass8: array<byte>, bh: HeaderTable, ghost b: seq<byte>)
    requires eclass8[..] == b != [] && fmap.Length == |b| && ftab.Length == 257 && fmap != ftab && (|b| + 63) / 32 < bh.bhtab.Length
    requires ftab as object != eclass8 && fmap as object != eclass8 && fmap as object != bh.bhtab && ftab as object != bh.bhtab && eclass8 as object != bh.bhtab
    requires forall c :: 0 <= c < 256 ==> ftab[c] == Smaller(b, c + 1, |b|)
    modifies fmap, ftab, bh.bhtab
    ensures Headed(b, fmap[..], bh.Flags(), 1) && IsPermutation(fmap[..]) && InByteBuckets(b, fmap[..]) && Sentinels(bh.Flags(), |b|)
  {
    hide IsPermutation, InByteBuckets, Headed, Smaller, IsBucketStart, Sentinels;
    Distribute(eclass8, fmap, ftab, b);
    MarkBuckets(bh, ftab, eclass8.Length, b);
    HeadedByFirstByte(b, fmap[..], bh.Flags());
  }

  /**
   * Leaves in fmap the start positions of all rotations in non-decreasing order, and the block as
   * it was, although its bytes are overwritten in between.
   */
  method FallbackSort(fmap: array<int>, eclass: array<int>, eclass8: array<byte>, bh: HeaderTable)
    requires 0 < eclass8.Length == fmap.Length == eclass.Length <= 900_000 && fmap != eclass
    requires fmap as object != eclass8 && eclass as object != eclass8 && bh.bhtab as object != eclass8
    requires eclass as object != bh.bhtab && fmap as object != bh.bhtab
    requires (eclass8.Length + 63) / 32 < bh.bhtab.Length
    modifies fmap, eclass, eclass8, bh.bhtab
    ensures SortsRotations(eclass8[..], fmap[..])
    ensures eclass8[..] == old(eclass8[..])
  {
    hide IsPermutation, InByteBuckets, SortsRotations, Headed, Smaller, Count, IsBucketStart, Sentinels;
    ghost var b := eclass8[..];
    var ftab, ftabCopy := new int[257], new int[256];
    CountBytes(eclass8, ftab, ftabCopy, b);
    SortByFirstByte(fmap, ftab, eclass8, bh, b);
    Overlay(eclass8);
    SortByDoubling(fmap, eclass, bh, b);
    RebuildBlock(fmap, ftabCopy, eclass8, b);
  }

  /** The row of the unrotated block; assertion 1003 never fires. */
  method FindOrigPtr(ptr: array<int>, ghost b: seq<byte>) returns (origPtr: int)
    requires b != [] && SortsRotations(b, ptr[..])
    ensures 0 <= origPtr < ptr.Length && ptr[origPtr] == 0
  {
    Surjective(ptr[..]);
    assert 0 in ptr[..];
    origPtr := -1;
    for i := 0 to ptr.Length
      invariant origPtr == -1 && forall k :: 0 <= k < i ==> ptr[k] != 0
    {
      if ptr[i] == 0 { return i; }
    }
  }
}
