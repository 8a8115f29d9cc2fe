/** The three-way quicksort of the fallback block sorter, with its explicit interval stack. */
module FallbackQSort {
  import opened Permuting
  import opened Powers

  /** The equivalence class of entry x. */
  ghost function Key(eclass: seq<int>, x: int): int {
    if 0 <= x < |eclass| then eclass[x] else 0
  }

  ghost predicate InRange(s: seq<int>, n: nat) {
    forall i :: 0 <= i < |s| ==> 0 <= s[i] < n
  }

  /** The keys never decrease over positions lo..hi-1. */
  ghost predicate SortedKeys(eclass: seq<int>, s: seq<int>, lo: int, hi: int) {
    forall p, q :: 0 <= lo <= p < q < hi <= |s| ==> Key(eclass, s[p]) <= Key(eclass, s[q])
  }

  lemma PermutedInRange(s: seq<int>, t: seq<int>, lo: int, hi: int, n: nat)
    requires Permuted(s, t, lo, hi) && InRange(s, n)
    ensures InRange(t, n)
  {
    forall i | 0 <= i < |t|
      ensures 0 <= t[i] < n
    {
      if lo <= i < hi { var p := PermutedFrom(s, t, lo, hi, i); }
    }
  }

  // ---------- Insertion sort of short intervals ----------

  /** One step of the hole moving up during an insertion. */
  lemma HoleMoves(s: seq<int>, f: seq<int>, tmp: int, j: int, gap: int, lo: int, hi: int)
    requires gap > 0 && 0 <= lo <= j - gap && j < hi <= |f| && Permuted(s, f[j - gap := tmp], lo, hi)
    ensures Permuted(s, f[j - gap := f[j]][j := tmp], lo, hi)
  {
    hide Permuted;
    var g := f[j - gap := tmp];
    SwapPermutes(g, j - gap, j, lo, hi);
    assert Swap(g, j - gap, j) == f[j - gap := f[j]][j := tmp];
    PermutedTransitive(s, g, f[j - gap := f[j]][j := tmp], lo, hi);
  }

  /** Moves entry i up in steps of gap, past all smaller keys. */
  method InsertWithGap(fmap: array<int>, eclass: array<int>, lo: int, hi: int, i: int, gap: int)
    requires fmap != eclass && 0 <= lo <= i <= hi - gap && hi < fmap.Length && gap > 0
    requires InRange(fmap[..], eclass.Length)
    modifies fmap
    ensures Permuted(old(fmap[..]), fmap[..], lo, hi + 1)
    ensures gap == 1 && SortedKeys(eclass[..], old(fmap[..]), i + 1, hi + 1) ==> SortedKeys(eclass[..], fmap[..], i, hi + 1)
  {
    hide Permuted, SortedKeys;
    ghost var s := fmap[..];
    var tmp := fmap[i];
    var ecTmp := eclass[tmp];
    var j := i + gap;
    assert fmap[..][i := tmp] == s;
    PermutedReflexive(s, lo, hi + 1);
    while j <= hi && ecTmp > eclass[fmap[j]]
      invariant i + gap <= j <= hi + gap
      invariant Permuted(s, fmap[..][j - gap := tmp], lo, hi + 1)
      invariant forall p :: j <= p <= hi ==> fmap[p] == s[p]
      invariant gap == 1 ==> forall p :: i <= p < j - 1 ==> fmap[p] == s[p + 1] && Key(eclass[..], fmap[p]) < ecTmp
    {
      HoleMoves(s, fmap[..], tmp, j, gap, lo, hi + 1);
      ghost var before := fmap[..];
      fmap[j - gap] := fmap[j];
      assert fmap[..] == before[j - gap := before[j]];
      j := j + gap;
    }

    ghost var before := fmap[..];
    fmap[j - gap] := tmp;
    assert fmap[..] == before[j - gap := tmp];
    if gap == 1 && SortedKeys(eclass[..], s, i + 1, hi + 1) {
      Inserted(eclass[..], s, fmap[..], i, j - 1, hi);
    }
  }

  /** Moving entry i behind the smaller keys that follow it leaves a sorted interval sorted. */
  lemma Inserted(e: seq<int>, s: seq<int>, t: seq<int>, i: int, j: int, hi: int)
    requires 0 <= i <= j <= hi < |s| == |t|
    requires SortedKeys(e, s, i + 1, hi + 1)
    requires forall p :: i <= p < j ==> t[p] == s[p + 1] && Key(e, t[p]) < Key(e, s[i])
    requires t[j] == s[i]
    requires forall p :: j < p <= hi ==> t[p] == s[p]
    requires j < hi ==> Key(e, s[i]) <= Key(e, s[j + 1])
    ensures SortedKeys(e, t, i, hi + 1)
  {
  }

  /** Inserts every entry of the interval, last first, in steps of gap. */
  method InsertAll(fmap: array<int>, eclass: array<int>, lo: int, hi: int, gap: int)
    requires fmap != eclass && 0 <= lo <= hi < fmap.Length && gap > 0
    requires InRange(fmap[..], eclass.Length)
    modifies fmap
    ensures Permuted(old(fmap[..]), fmap[..], lo, hi + 1) && InRange(fmap[..], eclass.Length)
    ensures gap == 1 ==> SortedKeys(eclass[..], fmap[..], lo, hi + 1)
  {
    ghost var s := fmap[..];
    PermutedReflexive(s, lo, hi + 1);
    hide Permuted, InRange;
    var i := hi - gap;
    while i >= lo
      invariant i <= hi - gap && (lo <= hi - gap ==> lo - 1 <= i)
      invariant Permuted(s, fmap[..], lo, hi + 1) && InRange(fmap[..], eclass.Length)
      invariant gap == 1 ==> SortedKeys(eclass[..], fmap[..], i + 1, hi + 1)
    {
      InsertOne(fmap, eclass, lo, hi, i, gap, s);
      i := i - 1;
    }
  }

  method InsertOne(fmap: array<int>, eclass: array<int>, lo: int, hi: int, i: int, gap: int, ghost s: seq<int>)
    requires fmap != eclass && 0 <= lo <= i <= hi - gap && hi < fmap.Length && gap > 0
    requires Permuted(s, fmap[..], lo, hi + 1) && InRange(fmap[..], eclass.Length)
    modifies fmap
    ensures Permuted(s, fmap[..], lo, hi + 1) && InRange(fmap[..], eclass.Length)
    ensures gap == 1 && SortedKeys(eclass[..], old(fmap[..]), i + 1, hi + 1) ==> SortedKeys(eclass[..], fmap[..], i, hi + 1)
  {
    hide Permuted, InRange, SortedKeys;
    ghost var before := fmap[..];
    InsertWithGap(fmap, eclass, lo, hi, i, gap);
    PermutedTransitive(s, before, fmap[..], lo, hi + 1);
    PermutedInRange(before, fmap[..], lo, hi + 1, eclass.Length);
  }

  method FallbackSimpleSort(fmap: array<int>, eclass: array<int>, lo: int, hi: int)
    requires fmap != eclass && 0 <= lo <= hi + 1 <= fmap.Length
    requires InRange(fmap[..], eclass.Length)
    modifies fmap
    ensures Permuted(old(fmap[..]), fmap[..], lo, hi + 1)
    ensures SortedKeys(eclass[..], fmap[..], lo, hi + 1)
  {
    ghost var s := fmap[..];
    PermutedReflexive(s, lo, hi + 1);
    if lo >= hi { return; }
    hide Permuted;
    if hi - lo > 3 { InsertAll(fmap, eclass, lo, hi, 4); }
    ghost var before := fmap[..];
    InsertAll(fmap, eclass, lo, hi, 1);
    PermutedTransitive(s, before, fmap[..], lo, hi + 1);
  }

  // ---------- Three-way partitioning ----------

  /** t is s with lo..hi rearranged, and every entry is a valid index of the n classes. */
  ghost predicate Kept(s: seq<int>, t: seq<int>, lo: int, hi: int, n: nat) {
    Permuted(s, t, lo, hi + 1) && InRange(t, n)
  }

  /** The four known regions around the unknown one: equal, less, (unknown), greater, equal. */
  ghost predicate Regions(e: seq<int>, s: seq<int>, med: int, lo: int, hi: int, ltLo: int, unLo: int, unHi: int, gtHi: int) {
    && 0 <= lo <= ltLo <= unLo <= unHi + 1 && unHi <= gtHi <= hi < |s|
    && (forall p :: lo <= p < ltLo ==> Key(e, s[p]) == med)
    && (forall p :: ltLo <= p < unLo ==> Key(e, s[p]) < med)
    && (forall p :: unHi < p <= gtHi ==> Key(e, s[p]) > med)
    && (forall p :: gtHi < p <= hi ==> Key(e, s[p]) == med)
  }

  lemma KeptSwap(s: seq<int>, t: seq<int>, lo: int, hi: int, n: nat, i: int, j: int)
    requires Kept(s, t, lo, hi, n) && lo <= i <= hi && lo <= j <= hi
    ensures Kept(s, Swap(t, i, j), lo, hi, n)
  {
    SwapPermutes(t, i, j, lo, hi + 1);
    PermutedTransitive(s, t, Swap(t, i, j), lo, hi + 1);
  }

  method SwapEntries(fmap: array<int>, i: int, j: int, lo: int, hi: int, ghost n: nat, ghost s: seq<int>)
    requires 0 <= lo <= i <= hi && lo <= j <= hi < fmap.Length && Kept(s, fmap[..], lo, hi, n)
    modifies fmap
    ensures fmap[..] == Swap(old(fmap[..]), i, j)
    ensures Kept(s, fmap[..], lo, hi, n)
  {
    hide Kept;
    KeptSwap(s, fmap[..], lo, hi, n, i, j);
    fmap[i], fmap[j] := fmap[j], fmap[i];
    assert fmap[..] == Swap(old(fmap[..]), i, j);
  }

  lemma RegionsGrowLow(e: seq<int>, s: seq<int>, med: int, lo: int, hi: int, ltLo: int, unLo: int, unHi: int, gtHi: int)
    requires Regions(e, s, med, lo, hi, ltLo, unLo, unHi, gtHi) && unLo <= unHi
    ensures Key(e, s[unLo]) == med ==> Regions(e, Swap(s, unLo, ltLo), med, lo, hi, ltLo + 1, unLo + 1, unHi, gtHi)
    ensures Key(e, s[unLo]) < med ==> Regions(e, s, med, lo, hi, ltLo, unLo + 1, unHi, gtHi)
  {
  }

  lemma RegionsGrowHigh(e: seq<int>, s: seq<int>, med: int, lo: int, hi: int, ltLo: int, unLo: int, unHi: int, gtHi: int)
    requires Regions(e, s, med, lo, hi, ltLo, unLo, unHi, gtHi) && unLo <= unHi
    ensures Key(e, s[unHi]) == med ==> Regions(e, Swap(s, unHi, gtHi), med, lo, hi, ltLo, unLo, unHi - 1, gtHi - 1)
    ensures Key(e, s[unHi]) > med ==> Regions(e, s, med, lo, hi, ltLo, unLo, unHi - 1, gtHi)
  {
  }

  method ScanLow(fmap: array<int>, eclass: array<int>, med: int, lo: int, hi: int,
                 ltLo0: int, unLo0: int, unHi: int, gtHi: int, ghost s: seq<int>)
    returns (ltLo: int, unLo: int)
    requires fmap != eclass && Kept(s, fmap[..], lo, hi, eclass.Length)
    requires Regions(eclass[..], fmap[..], med, lo, hi, ltLo0, unLo0, unHi, gtHi)
    modifies fmap
    ensures Kept(s, fmap[..], lo, hi, eclass.Length)
    ensures Regions(eclass[..], fmap[..], med, lo, hi, ltLo, unLo, unHi, gtHi) && unLo0 <= unLo
    ensures unLo <= unHi ==> Key(eclass[..], fmap[unLo]) > med
  {
    hide Permuted;
    ltLo, unLo := ltLo0, unLo0;
    while true
      invariant Kept(s, fmap[..], lo, hi, eclass.Length)
      invariant Regions(eclass[..], fmap[..], med, lo, hi, ltLo, unLo, unHi, gtHi) && unLo0 <= unLo
      decreases unHi + 1 - unLo
    {
      if unLo > unHi { break; }
      RegionsGrowLow(eclass[..], fmap[..], med, lo, hi, ltLo, unLo, unHi, gtHi);
      var n := eclass[fmap[unLo]] - med;
      if n == 0 {
        SwapEntries(fmap, unLo, ltLo, lo, hi, eclass.Length, s);
        ltLo, unLo := ltLo + 1, unLo + 1;
        continue;
      }
      if n > 0 { break; }
      unLo := unLo + 1;
    }
  }

  method ScanHigh(fmap: array<int>, eclass: array<int>, med: int, lo: int, hi: int,
                  ltLo: int, unLo: int, unHi0: int, gtHi0: int, ghost s: seq<int>)
    returns (unHi: int, gtHi: int)
    requires fmap != eclass && Kept(s, fmap[..], lo, hi, eclass.Length)
    requires Regions(eclass[..], fmap[..], med, lo, hi, ltLo, unLo, unHi0, gtHi0)
    requires unLo <= unHi0 ==> Key(eclass[..], fmap[unLo]) > med
    modifies fmap
    ensures Kept(s, fmap[..], lo, hi, eclass.Length)
    ensures Regions(eclass[..], fmap[..], med, lo, hi, ltLo, unLo, unHi, gtHi) && unHi <= unHi0
    ensures unLo <= unHi ==> Key(eclass[..], fmap[unLo]) > med > Key(eclass[..], fmap[unHi])
  {
    hide Permuted;
    unHi, gtHi := unHi0, gtHi0;
    while true
      invariant Kept(s, fmap[..], lo, hi, eclass.Length)
      invariant Regions(eclass[..], fmap[..], med, lo, hi, ltLo, unLo, unHi, gtHi) && unHi <= unHi0
      invariant unLo <= unHi ==> Key(eclass[..], fmap[unLo]) > med
      decreases unHi + 1 - unLo
    {
      if unLo > unHi { break; }
      RegionsGrowHigh(eclass[..], fmap[..], med, lo, hi, ltLo, unLo, unHi, gtHi);
      var n := eclass[fmap[unHi]] - med;
      if n == 0 {
        SwapEntries(fmap, unHi, gtHi, lo, hi, eclass.Length, s);
        gtHi, unHi := gtHi - 1, unHi - 1;
        continue;
      }
      if n < 0 { break; }
      unHi := unHi - 1;
    }
  }

  /** Exchanges a large key found low with a small key found high. */
  method SwapEnds(fmap: array<int>, eclass: array<int>, med: int, lo: int, hi: int,
                  ltLo: int, unLo: int, unHi: int, gtHi: int, ghost s: seq<int>)
    requires fmap != eclass && Kept(s, fmap[..], lo, hi, eclass.Length)
    requires Regions(eclass[..], fmap[..], med, lo, hi, ltLo, unLo, unHi, gtHi)
    requires unLo <= unHi && Key(eclass[..], fmap[unLo]) > med > Key(eclass[..], fmap[unHi])
    modifies fmap
    ensures Kept(s, fmap[..], lo, hi, eclass.Length)
    ensures Regions(eclass[..], fmap[..], med, lo, hi, ltLo, unLo + 1, unHi - 1, gtHi)
  {
    hide Kept;
    SwapEntries(fmap, unLo, unHi, lo, hi, eclass.Length, s);
  }

  /** Closes the unknown region. */
  method ScanBothEnds(fmap: array<int>, eclass: array<int>, med: int, lo: int, hi: int, ghost s: seq<int>)
    returns (ltLo: int, unLo: int, unHi: int, gtHi: int)
    requires fmap != eclass && Kept(s, fmap[..], lo, hi, eclass.Length) && 0 <= lo <= hi < fmap.Length
    modifies fmap
    ensures Kept(s, fmap[..], lo, hi, eclass.Length)
    ensures Regions(eclass[..], fmap[..], med, lo, hi, ltLo, unLo, unHi, gtHi) && unHi == unLo - 1
  {
    hide Kept;
    ltLo, unLo, unHi, gtHi := lo, lo, hi, hi;
    while true
      invariant Kept(s, fmap[..], lo, hi, eclass.Length)
      invariant Regions(eclass[..], fmap[..], med, lo, hi, ltLo, unLo, unHi, gtHi)
      decreases unHi + 1 - unLo
    {
      ltLo, unLo := ScanLow(fmap, eclass, med, lo, hi, ltLo, unLo, unHi, gtHi, s);
      unHi, gtHi := ScanHigh(fmap, eclass, med, lo, hi, ltLo, unLo, unHi, gtHi, s);
      if unLo > unHi { break; }
      SwapEnds(fmap, eclass, med, lo, hi, ltLo, unLo, unHi, gtHi, s);
      unLo, unHi := unLo + 1, unHi - 1;
    }
  }

  /** t is s with the n entries from p1 and the n entries from p2 exchanged. */
  ghost predicate BlocksSwapped(s: seq<int>, t: seq<int>, p1: int, p2: int, n: int) {
    && |s| == |t| && forall k {:trigger t[k]} :: 0 <= k < |s| ==> t[k] == EntryAfterSwap(s, p1, p2, n, k)
  }

  ghost function EntryAfterSwap(s: seq<int>, p1: int, p2: int, n: int, k: int): int
    requires 0 <= k < |s|
  {
    if p1 <= k < p1 + n && 0 <= k + (p2 - p1) < |s| then s[k + (p2 - p1)]
    else if p2 <= k < p2 + n && 0 <= k - (p2 - p1) < |s| then s[k - (p2 - p1)]
    else s[k]
  }

  lemma BlocksSwappedStep(s: seq<int>, t: seq<int>, u: seq<int>, p1: int, p2: int, k: int, i: int, j: int)
    requires BlocksSwapped(s, t, p1, p2, k) && 0 <= p1 <= i < p2 <= j < |t|
    requires i == p1 + k && j == p2 + k && u == Swap(t, i, j)
    ensures BlocksSwapped(s, u, p1, p2, k + 1)
  {
  }

  method SwapBlocks(fmap: array<int>, p1: int, p2: int, n: int, lo: int, hi: int, ghost m: nat, ghost s: seq<int>)
    requires 0 <= lo <= p1 && 0 <= n && (n > 0 ==> p1 + n <= p2) && lo <= p2 && p2 + n <= hi + 1 <= fmap.Length
    requires Kept(s, fmap[..], lo, hi, m)
    modifies fmap
    ensures Kept(s, fmap[..], lo, hi, m)
    ensures BlocksSwapped(old(fmap[..]), fmap[..], p1, p2, n)
  {
    hide Kept;
    ghost var first := fmap[..];
    var yyp1, yyp2, yyn := p1, p2, n;
    while yyn > 0
      invariant 0 <= yyn <= n && yyp1 == p1 + (n - yyn) && yyp2 == p2 + (n - yyn)
      invariant Kept(s, fmap[..], lo, hi, m)
      invariant BlocksSwapped(first, fmap[..], p1, p2, n - yyn)
    {
      ghost var before := fmap[..];
      SwapEntries(fmap, yyp1, yyp2, lo, hi, m, s);
      BlocksSwappedStep(first, before, fmap[..], p1, p2, n - yyn, yyp1, yyp2);
      yyp1, yyp2, yyn := yyp1 + 1, yyp2 + 1, yyn - 1;
    }
  }

  /** Less, equal and greater keys, in this order; n and m end the outer parts. */
  ghost predicate Partitioned(e: seq<int>, s: seq<int>, med: int, lo: int, hi: int, n: int, m: int) {
    && 0 <= lo <= n + 1 < m <= hi + 1 <= |s|
    && (forall p :: lo <= p <= n ==> Key(e, s[p]) < med)
    && (forall p :: n < p < m ==> Key(e, s[p]) == med)
    && (forall p :: m <= p <= hi ==> Key(e, s[p]) > med)
  }

  lemma EqualBlockMovesIn(e: seq<int>, s: seq<int>, t: seq<int>, u: seq<int>, med: int, lo: int, hi: int,
                          ltLo: int, unLo: int, gtHi: int, n: int, m: int)
    requires Regions(e, s, med, lo, hi, ltLo, unLo, unLo - 1, gtHi) && (lo < ltLo || gtHi < hi)
    requires n == (if ltLo - lo < unLo - ltLo then ltLo - lo else unLo - ltLo)
    requires m == (if hi - gtHi < gtHi - (unLo - 1) then hi - gtHi else gtHi - (unLo - 1))
    requires BlocksSwapped(s, t, lo, unLo - n, n) && BlocksSwapped(t, u, unLo, hi - m + 1, m)
    ensures Partitioned(e, u, med, lo, hi, lo + unLo - ltLo - 1, hi - (gtHi - (unLo - 1)) + 1)
  {
    hide Key;
    forall p | lo <= p <= hi
      ensures p < lo + (unLo - ltLo) ==> Key(e, u[p]) < med
      ensures lo + (unLo - ltLo) <= p < hi - (gtHi - (unLo - 1)) + 1 ==> Key(e, u[p]) == med
      ensures p >= hi - (gtHi - (unLo - 1)) + 1 ==> Key(e, u[p]) > med
    {
      if p < unLo { LeftMovesIn(e, s, t, med, lo, hi, ltLo, unLo, gtHi, n, p); } else { RightMovesIn(e, s, t, u, med, lo, hi, ltLo, unLo, gtHi, n, m, p); }
      assert p < unLo ==> u[p] == t[p];
    }
  }

  /** Left of unLo, the first exchange of blocks brings the equal keys to the middle. */
  lemma LeftMovesIn(e: seq<int>, s: seq<int>, t: seq<int>, med: int, lo: int, hi: int, ltLo: int, unLo: int, gtHi: int, n: int, p: int)
    requires Regions(e, s, med, lo, hi, ltLo, unLo, unLo - 1, gtHi) && lo <= p < unLo
    requires n == (if ltLo - lo < unLo - ltLo then ltLo - lo else unLo - ltLo) && BlocksSwapped(s, t, lo, unLo - n, n)
    ensures |t| == |s| && (p < lo + (unLo - ltLo) ==> Key(e, t[p]) < med) && (p >= lo + (unLo - ltLo) ==> Key(e, t[p]) == med)
  {
    hide Key;
  }

  /** From unLo on, the second one does. */
  lemma RightMovesIn(e: seq<int>, s: seq<int>, t: seq<int>, u: seq<int>, med: int, lo: int, hi: int, ltLo: int, unLo: int, gtHi: int, n: int, m: int, p: int)
    requires Regions(e, s, med, lo, hi, ltLo, unLo, unLo - 1, gtHi) && unLo <= p <= hi
    requires n == (if ltLo - lo < unLo - ltLo then ltLo - lo else unLo - ltLo) && BlocksSwapped(s, t, lo, unLo - n, n)
    requires m == (if hi - gtHi < gtHi - (unLo - 1) then hi - gtHi else gtHi - (unLo - 1)) && BlocksSwapped(t, u, unLo, hi - m + 1, m)
    ensures |u| == |s| && (p < hi - (gtHi - (unLo - 1)) + 1 ==> Key(e, u[p]) == med) && (p >= hi - (gtHi - (unLo - 1)) + 1 ==> Key(e, u[p]) > med)
  {
    hide Key;
  }

  /** The median class is the class of some entry, so some entry is equal to it. */
  lemma SomeEqual(e: seq<int>, s: seq<int>, t: seq<int>, lo: int, hi: int, q: int,
                  ltLo: int, unLo: int, gtHi: int, n: nat)
    requires Kept(s, t, lo, hi, n) && lo <= q <= hi
    requires Regions(e, t, Key(e, s[q]), lo, hi, ltLo, unLo, unLo - 1, gtHi)
    ensures lo < ltLo || gtHi < hi
  {
    var p := PermutedFrom(t, s, lo, hi + 1, q);
  }

  /** Moves the two outer equal regions between the less and the greater one. */
  method MoveEqualIn(fmap: array<int>, lo: int, hi: int, ltLo: int, unLo: int, unHi: int, gtHi: int,
                     ghost med: int, ghost c: nat, ghost e: seq<int>, ghost s: seq<int>)
    returns (n: int, m: int)
    requires Kept(s, fmap[..], lo, hi, c) && (lo < ltLo || gtHi < hi)
    requires Regions(e, fmap[..], med, lo, hi, ltLo, unLo, unHi, gtHi) && unHi == unLo - 1
    modifies fmap
    ensures Kept(s, fmap[..], lo, hi, c)
    ensures Partitioned(e, fmap[..], med, lo, hi, n, m)
  {
    hide Kept, BlocksSwapped, Partitioned;
    ghost var scanned := fmap[..];
    n := if ltLo - lo < unLo - ltLo then ltLo - lo else unLo - ltLo;
    SwapBlocks(fmap, lo, unLo - n, n, lo, hi, c, s);
    ghost var swapped := fmap[..];
    m := if hi - gtHi < gtHi - unHi then hi - gtHi else gtHi - unHi;
    SwapBlocks(fmap, unLo, hi - m + 1, m, lo, hi, c, s);
    EqualBlockMovesIn(e, scanned, swapped, fmap[..], med, lo, hi, ltLo, unLo, gtHi, n, m);
    n := lo + unLo - ltLo - 1;
    m := hi - (gtHi - unHi) + 1;
  }

  /** Bentley-McIlroy partitioning about the class of entry q. */
  method Partition(fmap: array<int>, eclass: array<int>, lo: int, hi: int, med: int, ghost q: int)
    returns (allEqual: bool, n: int, m: int)
    requires fmap != eclass && InRange(fmap[..], eclass.Length) && 0 <= lo <= q <= hi < fmap.Length
    requires med == Key(eclass[..], fmap[q])
    modifies fmap
    ensures Kept(old(fmap[..]), fmap[..], lo, hi, eclass.Length)
    ensures allEqual ==> forall p :: lo <= p <= hi ==> Key(eclass[..], fmap[p]) == med
    ensures !allEqual ==> Partitioned(eclass[..], fmap[..], med, lo, hi, n, m)
  {
    ghost var s, e := fmap[..], eclass[..];
    PermutedReflexive(s, lo, hi + 1);
    assert Kept(s, s, lo, hi, eclass.Length);
    hide Kept, Partitioned;
    var ltLo, unLo, unHi, gtHi := ScanBothEnds(fmap, eclass, med, lo, hi, s);
    n, m, allEqual := lo - 1, hi + 1, true;
    if gtHi < ltLo { return; }
    allEqual := false;
    SomeEqual(e, s, fmap[..], lo, hi, q, ltLo, unLo, gtHi, eclass.Length);
    n, m := MoveEqualIn(fmap, lo, hi, ltLo, unLo, unHi, gtHi, med, eclass.Length, e, s);
  }

  // ---------- The interval stack ----------

  datatype Interval = Interval(lo: int, hi: int) {
    function Size(): nat {
      if lo <= hi then hi - lo + 1 else 0
    }
  }

  /** p and q lie in one of the intervals still to be sorted. */
  ghost predicate Together(st: seq<Interval>, p: int, q: int) {
    exists k :: 0 <= k < |st| && st[k].lo <= p && q <= st[k].hi
  }

  /** Any two positions of a..b are in key order or wait in the same interval. */
  ghost predicate OrderedApart(e: seq<int>, s: seq<int>, st: seq<Interval>, a: int, b: int) {
    forall p, q :: 0 <= a <= p < q <= b < |s| ==> Key(e, s[p]) <= Key(e, s[q]) || Together(st, p, q)
  }

  /** The intervals lie in a..b and do not overlap. */
  ghost predicate Apart(st: seq<Interval>, a: int, b: int) {
    && (forall k :: 0 <= k < |st| ==> a <= st[k].lo <= st[k].hi + 1 <= b + 1)
    && (forall j, k :: 0 <= j < k < |st| ==> st[j].hi < st[k].lo || st[k].hi < st[j].lo)
  }

  lemma TogetherIn(st: seq<Interval>, rest: seq<Interval>, subs: seq<Interval>, p: int, q: int)
    requires st == rest + subs
    ensures Together(st, p, q) <==> Together(rest, p, q) || Together(subs, p, q)
  {
    if k :| 0 <= k < |rest| && rest[k].lo <= p && q <= rest[k].hi { assert st[k] == rest[k]; }
    if k :| 0 <= k < |subs| && subs[k].lo <= p && q <= subs[k].hi { assert st[|rest| + k] == subs[k]; }
    if k :| 0 <= k < |st| && st[k].lo <= p && q <= st[k].hi {
      if k < |rest| { assert rest[k] == st[k]; } else { assert subs[k - |rest|] == st[k]; }
    }
  }

  /** If a pair that moved only within the top interval waits in an interval, it waits in one below the top. */
  lemma NotInTop(rest: seq<Interval>, top: Interval, a: int, b: int, p: int, q: int, p': int, q': int)
    requires Apart(rest + [top], a, b) && Together(rest + [top], p', q') && !(top.lo <= p && q <= top.hi) && p < q && p' < q'
    requires if top.lo <= p <= top.hi then top.lo <= p' <= top.hi else p' == p
    requires if top.lo <= q <= top.hi then top.lo <= q' <= top.hi else q' == q
    ensures Together(rest, p, q)
  {
    var st := rest + [top];
    var k :| 0 <= k < |st| && st[k].lo <= p' && q' <= st[k].hi;
    assert st[|rest|] == top;
    if k < |rest| {
      assert st[k].hi < top.lo || top.hi < st[k].lo;
      assert rest[k] == st[k] && p' == p && q' == q;
    }
  }

  /** A pair with a place outside the top interval keeps its order. */
  lemma CrossingPair(e: seq<int>, s: seq<int>, t: seq<int>, rest: seq<Interval>, top: Interval, a: int, b: int, p: int, q: int)
    requires Apart(rest + [top], a, b) && OrderedApart(e, s, rest + [top], a, b) && 0 <= a <= p < q <= b < |s|
    requires Permuted(s, t, top.lo, top.hi + 1) && !(top.lo <= p && q <= top.hi)
    ensures Key(e, t[p]) <= Key(e, t[q]) || Together(rest, p, q)
  {
    hide Permuted, Key, Together;
    var p' := MovedFrom(s, t, top, p);
    var q' := MovedFrom(s, t, top, q);
    TopInside(rest, top, a, b);
    if Together(rest + [top], p', q') { NotInTop(rest, top, a, b, p, q, p', q'); }
  }

  lemma TopInside(rest: seq<Interval>, top: Interval, a: int, b: int)
    requires Apart(rest + [top], a, b)
    ensures a <= top.lo <= top.hi + 1 <= b + 1
  {
    assert (rest + [top])[|rest|] == top;
  }

  /** Where the entry at p was before the top interval was permuted. */
  lemma MovedFrom(s: seq<int>, t: seq<int>, top: Interval, p: int) returns (p': int)
    requires Permuted(s, t, top.lo, top.hi + 1) && 0 <= p < |s|
    ensures |s| == |t| && 0 <= p' < |s| && t[p] == s[p'] && if top.lo <= p <= top.hi then top.lo <= p' <= top.hi else p' == p
  {
    p' := p;
    if top.lo <= p <= top.hi { p' := PermutedFrom(s, t, top.lo, top.hi + 1, p); }
  }

  lemma ApartReplaced(rest: seq<Interval>, top: Interval, subs: seq<Interval>, a: int, b: int)
    requires Apart(rest + [top], a, b) && Apart(subs, top.lo, top.hi)
    ensures Apart(rest + subs, a, b)
  {
    var st, st' := rest + [top], rest + subs;
    assert st[|rest|] == top;
    forall k | 0 <= k < |st'|
      ensures a <= st'[k].lo <= st'[k].hi + 1 <= b + 1
    {
      if k < |rest| { assert st[k] == st'[k]; }
    }
    forall j, k | 0 <= j < k < |st'|
      ensures st'[j].hi < st'[k].lo || st'[k].hi < st'[j].lo
    {
      if j < |rest| {
        assert st[j] == st'[j];
        if k < |rest| { assert st[k] == st'[k]; } else { assert st'[k] == subs[k - |rest|]; }
      }
    }
  }

  /**
   * Working inside the top interval, so that its positions end up in key order or together in one
   * of the intervals that replace it, keeps the rest as it was.
   */
  lemma ReplaceTop(e: seq<int>, s: seq<int>, t: seq<int>, rest: seq<Interval>, top: Interval, subs: seq<Interval>, a: int, b: int)
    requires Apart(rest + [top], a, b) && OrderedApart(e, s, rest + [top], a, b) && 0 <= a && b < |s|
    requires Permuted(s, t, top.lo, top.hi + 1) && Apart(subs, top.lo, top.hi) && OrderedApart(e, t, subs, top.lo, top.hi)
    ensures Apart(rest + subs, a, b) && OrderedApart(e, t, rest + subs, a, b)
  {
    ApartReplaced(rest, top, subs, a, b);
    forall p, q | a <= p < q <= b
      ensures Key(e, t[p]) <= Key(e, t[q]) || Together(rest + subs, p, q)
    {
      TogetherIn(rest + subs, rest, subs, p, q);
      if top.lo <= p && q <= top.hi {
      } else {
        CrossingPair(e, s, t, rest, top, a, b, p, q);
      }
    }
  }

  /** Sum of 2 * size + 1: what the intervals still cost. */
  ghost function Work(st: seq<Interval>): nat {
    if st == [] then 0 else Work(st[..|st| - 1]) + 2 * st[|st| - 1].Size() + 1
  }

  lemma WorkOfOne(rest: seq<Interval>, i: Interval)
    ensures Work(rest + [i]) == Work(rest) + 2 * i.Size() + 1
  {
    assert (rest + [i])[..|rest|] == rest;
  }

  lemma WorkOfTwo(rest: seq<Interval>, i: Interval, j: Interval)
    ensures Work(rest + [i, j]) == Work(rest) + 2 * i.Size() + 2 * j.Size() + 2
  {
    var st := rest + [i, j];
    assert st[..|st| - 1] == rest + [i];
    assert (rest + [i])[..|rest|] == rest;
  }

  const SMALL_THRESH := 10
  const STACK_SIZE := 100

  /** Entry k has at most total/2^k positions, and only large intervals were ever split. */
  ghost predicate Shallow(st: seq<Interval>, total: nat) {
    && (forall k :: 0 <= k < |st| ==> st[k].Size() * Pow2(k) <= total)
    && (|st| >= 2 ==> (SMALL_THRESH + 1) * Pow2(|st| - 2) <= total)
  }

  /** A stack of halving intervals over one block never gets deep: assertion 1004 cannot fire. */
  lemma ShallowStackFits(st: seq<Interval>, total: nat)
    requires Shallow(st, total) && total <= 900_000
    ensures |st| <= 18 < STACK_SIZE - 1
  {
    if |st| > 18 {
      Pow2Monotone(17, |st| - 2);
      Pow2Of17();
    }
  }

  /** Putting the larger part below the smaller one keeps the stack shallow. */
  lemma SplitStaysShallow(rest: seq<Interval>, top: Interval, large: Interval, small: Interval, total: nat)
    requires Shallow(rest + [top], total)
    requires top.Size() > SMALL_THRESH && large.Size() + small.Size() < top.Size() && small.Size() <= large.Size()
    ensures Shallow(rest + [large, small], total)
  {
    var st, st', k, w := rest + [top], rest + [large, small], |rest|, Pow2(|rest|);
    assert st[k] == top && st'[k] == large && st'[k + 1] == small;
    MulMonotone(large.Size(), top.Size(), w);
    MulMonotone(2 * small.Size(), top.Size(), w);
    MulMonotone(SMALL_THRESH + 1, top.Size(), w);
    assert small.Size() * Pow2(k + 1) == 2 * small.Size() * w;
    forall j | 0 <= j < |st'|
      ensures st'[j].Size() * Pow2(j) <= total
    {
      if j < k { assert st'[j] == st[j]; }
    }
  }

  lemma PopStaysShallow(rest: seq<Interval>, top: Interval, total: nat)
    requires Shallow(rest + [top], total)
    ensures Shallow(rest, total)
  {
    var st := rest + [top];
    assert forall k :: 0 <= k < |rest| ==> st[k] == rest[k];
    if |rest| >= 2 { assert Pow2(|rest| - 1) == 2 * Pow2(|rest| - 2); }
  }

  // ---------- The sort ----------

  /** The explicit stack: two parallel arrays and a stack pointer. */
  class IntervalStack {
    const stackLo: array<int>
    const stackHi: array<int>
    var sp: nat

    constructor ()
      ensures Valid() && fresh(stackLo) && fresh(stackHi) && Contents() == []
    {
      stackLo, stackHi, sp := new int[STACK_SIZE], new int[STACK_SIZE], 0;
    }

    ghost predicate Valid()
      reads this
    {
      stackLo != stackHi && stackLo.Length == stackHi.Length == STACK_SIZE && sp <= STACK_SIZE
    }

    ghost function Contents(): (st: seq<Interval>)
      requires Valid()
      reads this, stackLo, stackHi
      ensures |st| == sp
    {
      seq(sp, k requires 0 <= k < sp <= STACK_SIZE == stackLo.Length == stackHi.Length reads this, stackLo, stackHi => Interval(stackLo[k], stackHi[k]))
    }

    method Push(lo: int, hi: int)
      requires Valid() && sp < STACK_SIZE
      modifies this, stackLo, stackHi
      ensures Valid() && Contents() == old(Contents()) + [Interval(lo, hi)]
    {
      stackLo[sp], stackHi[sp] := lo, hi;
      sp := sp + 1;
    }

    method Pop() returns (lo: int, hi: int)
      requires Valid() && sp > 0
      modifies this
      ensures Valid() && old(Contents()) == Contents() + [Interval(lo, hi)]
    {
      sp := sp - 1;
      lo, hi := stackLo[sp], stackHi[sp];
    }
  }

  /** Positions a..b of t are those of s rearranged, and in key order except within the stacked intervals. */
  ghost predicate Sorting(e: seq<int>, s: seq<int>, t: seq<int>, st: seq<Interval>, a: int, b: int) {
    && 0 <= a <= b < |t| && Kept(s, t, a, b, |e|)
    && Apart(st, a, b) && OrderedApart(e, t, st, a, b)
    && Shallow(st, b - a + 1)
  }

  lemma SortingWidens(s: seq<int>, t: seq<int>, u: seq<int>, lo: int, hi: int, a: int, b: int, n: nat)
    requires Kept(s, t, a, b, n) && Permuted(t, u, lo, hi + 1) && 0 <= a <= lo <= hi + 1 <= b + 1
    ensures Kept(s, u, a, b, n)
  {
    PermutedWiden(t, u, lo, hi + 1, a, b + 1);
    PermutedTransitive(s, t, u, a, b + 1);
    PermutedInRange(t, u, lo, hi + 1, n);
  }

  lemma SortingStart(e: seq<int>, s: seq<int>, a: int, b: int)
    requires 0 <= a <= b < |s| && InRange(s, |e|)
    ensures Sorting(e, s, s, [Interval(a, b)], a, b)
  {
    var st := [Interval(a, b)];
    PermutedReflexive(s, a, b + 1);
    forall p, q | a <= p < q <= b
      ensures Together(st, p, q)
    {
      assert st[0].lo <= p && q <= st[0].hi;
    }
    assert st[0].Size() * Pow2(0) == b - a + 1;
  }

  lemma SameLength(t: seq<int>, u: seq<int>, lo: int, hi: int)
    requires Permuted(t, u, lo, hi)
    ensures |t| == |u|
  {
  }

  /** Positions in key order need not wait in any interval. */
  lemma NothingWaits(e: seq<int>, u: seq<int>, lo: int, hi: int)
    requires SortedKeys(e, u, lo, hi + 1)
    ensures Apart([], lo, hi) && OrderedApart(e, u, [], lo, hi)
  {
    hide Key;
  }

  /** The top interval is done. */
  lemma SortingTopDone(e: seq<int>, s: seq<int>, t: seq<int>, u: seq<int>, rest: seq<Interval>, top: Interval, a: int, b: int)
    requires Sorting(e, s, t, rest + [top], a, b) && Permuted(t, u, top.lo, top.hi + 1)
    requires SortedKeys(e, u, top.lo, top.hi + 1)
    ensures Sorting(e, s, u, rest, a, b)
    ensures Work(rest) < Work(rest + [top])
  {
    hide Apart, OrderedApart, Shallow, Kept, Permuted, Work, SortedKeys;
    TopInside(rest, top, a, b);
    SortingWidens(s, t, u, top.lo, top.hi, a, b, |e|);
    SameLength(t, u, top.lo, top.hi + 1);
    NothingWaits(e, u, top.lo, top.hi);
    ReplaceTop(e, t, u, rest, top, [], a, b);
    assert rest + [] == rest;
    PopStaysShallow(rest, top, b - a + 1);
    WorkOfOne(rest, top);
  }

  /** The top interval is replaced by its two outer parts, the larger one below. */
  lemma SortingTopSplit(e: seq<int>, s: seq<int>, t: seq<int>, u: seq<int>, rest: seq<Interval>, top: Interval,
                        large: Interval, small: Interval, med: int, n: int, m: int, a: int, b: int)
    requires Sorting(e, s, t, rest + [top], a, b) && Permuted(t, u, top.lo, top.hi + 1)
    requires Partitioned(e, u, med, top.lo, top.hi, n, m) && top.Size() > SMALL_THRESH
    requires large.Size() >= small.Size()
    requires (large == Interval(top.lo, n) && small == Interval(m, top.hi)) || (small == Interval(top.lo, n) && large == Interval(m, top.hi))
    ensures Sorting(e, s, u, rest + [large, small], a, b)
    ensures Work(rest + [large, small]) < Work(rest + [top])
  {
    hide Kept, Apart, OrderedApart, Shallow, Work;
    var subs := [large, small];
    TopInRange(e, s, t, rest, top, a, b);
    SortingWidens(s, t, u, top.lo, top.hi, a, b, |e|);
    OrderedByParts(e, u, med, top, large, small, n, m);
    ReplaceTop(e, t, u, rest, top, subs, a, b);
    SplitStaysShallow(rest, top, large, small, b - a + 1);
    WorkOfOne(rest, top);
    WorkOfTwo(rest, large, small);
  }

  lemma OrderedByParts(e: seq<int>, u: seq<int>, med: int, top: Interval, large: Interval, small: Interval, n: int, m: int)
    requires Partitioned(e, u, med, top.lo, top.hi, n, m)
    requires (large == Interval(top.lo, n) && small == Interval(m, top.hi)) || (small == Interval(top.lo, n) && large == Interval(m, top.hi))
    ensures OrderedApart(e, u, [large, small], top.lo, top.hi) && Apart([large, small], top.lo, top.hi)
  {
    var st := [large, small];
    assert st[0] == large && st[1] == small;
    forall p, q | top.lo <= p < q <= top.hi
      ensures Key(e, u[p]) <= Key(e, u[q]) || Together(st, p, q)
    {
      if q <= n || m <= p {
        assert (st[0].lo <= p && q <= st[0].hi) || (st[1].lo <= p && q <= st[1].hi);
      }
    }
  }

  lemma SortingEnd(e: seq<int>, s: seq<int>, t: seq<int>, a: int, b: int)
    requires Sorting(e, s, t, [], a, b)
    ensures Permuted(s, t, a, b + 1) && SortedKeys(e, t, a, b + 1)
  {
  }

  /** One turn of the sorting loop: pops an interval and sorts it, drops it or splits it. */
  method SortTop(fmap: array<int>, eclass: array<int>, stack: IntervalStack, r0: int, ghost s: seq<int>, ghost a: int, ghost b: int)
    returns (r: int)
    requires fmap != eclass && stack.Valid() && {fmap, eclass} !! {stack.stackLo, stack.stackHi}
    requires Sorting(eclass[..], s, fmap[..], stack.Contents(), a, b) && stack.sp > 0 && b - a < 900_000
    modifies fmap, stack, stack.stackLo, stack.stackHi
    ensures stack.Valid() && Sorting(eclass[..], s, fmap[..], stack.Contents(), a, b)
    ensures Work(stack.Contents()) < old(Work(stack.Contents()))
  {
    hide Sorting, Work, Partitioned;
    ghost var e, t, st := eclass[..], fmap[..], stack.Contents();
    assert stack.sp < STACK_SIZE - 1 by { Fits(e, s, t, st, a, b); }
    var lo, hi := stack.Pop();
    ghost var rest, top := stack.Contents(), Interval(lo, hi);
    TopInRange(e, s, t, rest, top, a, b);
    r := r0;
    if hi - lo < SMALL_THRESH {
      FallbackSimpleSort(fmap, eclass, lo, hi);
      SortingTopDone(e, s, t, fmap[..], rest, top, a, b);
      return;
    }
    r := (r * 7621 + 1) % 32768;
    var r3 := r % 3;
    var q := if r3 == 0 then lo else if r3 == 1 then (lo + hi) / 2 else hi;
    SplitTop(fmap, eclass, stack, lo, hi, q, s, a, b);
  }

  /** Partitions the popped interval about entry q and pushes its outer parts, the smaller on top. */
  method SplitTop(fmap: array<int>, eclass: array<int>, stack: IntervalStack, lo: int, hi: int, q: int, ghost s: seq<int>, ghost a: int, ghost b: int)
    requires fmap != eclass && stack.Valid() && {fmap, eclass} !! {stack.stackLo, stack.stackHi}
    requires Sorting(eclass[..], s, fmap[..], stack.Contents() + [Interval(lo, hi)], a, b)
    requires stack.sp < STACK_SIZE - 2 && hi - lo >= SMALL_THRESH && lo <= q <= hi
    modifies fmap, stack, stack.stackLo, stack.stackHi
    ensures stack.Valid() && Sorting(eclass[..], s, fmap[..], stack.Contents(), a, b)
    ensures Work(stack.Contents()) < old(Work(stack.Contents() + [Interval(lo, hi)]))
  {
    hide Sorting, Work, Partitioned, Kept;
    ghost var e, t, rest, top := eclass[..], fmap[..], stack.Contents(), Interval(lo, hi);
    TopInRange(e, s, t, rest, top, a, b);
    var med := eclass[fmap[q]];
    var allEqual, n, m := Partition(fmap, eclass, lo, hi, med, q);
    KeptPermuted(t, fmap[..], lo, hi, |e|);
    if allEqual {
      SortingTopDone(e, s, t, fmap[..], rest, top, a, b);
      return;
    }
    PartBounds(e, fmap[..], med, lo, hi, n, m);
    if n - lo > hi - m {
      SortingTopSplit(e, s, t, fmap[..], rest, top, Interval(lo, n), Interval(m, hi), med, n, m, a, b);
      PushTwo(stack, lo, n, m, hi);
    } else {
      SortingTopSplit(e, s, t, fmap[..], rest, top, Interval(m, hi), Interval(lo, n), med, n, m, a, b);
      PushTwo(stack, m, hi, lo, n);
    }
  }

  method PushTwo(stack: IntervalStack, lo: int, n: int, m: int, hi: int)
    requires stack.Valid() && stack.sp < STACK_SIZE - 1
    modifies stack, stack.stackLo, stack.stackHi
    ensures stack.Valid() && stack.Contents() == old(stack.Contents()) + [Interval(lo, n), Interval(m, hi)]
  {
    stack.Push(lo, n);
    stack.Push(m, hi);
  }

  lemma KeptPermuted(s: seq<int>, t: seq<int>, lo: int, hi: int, n: nat)
    requires Kept(s, t, lo, hi, n)
    ensures Permuted(s, t, lo, hi + 1)
  {
  }

  lemma PartBounds(e: seq<int>, s: seq<int>, med: int, lo: int, hi: int, n: int, m: int)
    requires Partitioned(e, s, med, lo, hi, n, m)
    ensures 0 <= lo <= n + 1 < m <= hi + 1 <= |s|
  {
  }

  lemma Fits(e: seq<int>, s: seq<int>, t: seq<int>, st: seq<Interval>, a: int, b: int)
    requires Sorting(e, s, t, st, a, b) && b - a < 900_000
    ensures |st| < STACK_SIZE - 1
  {
    ShallowStackFits(st, b - a + 1);
  }

  lemma TopInRange(e: seq<int>, s: seq<int>, t: seq<int>, rest: seq<Interval>, top: Interval, a: int, b: int)
    requires Sorting(e, s, t, rest + [top], a, b)
    ensures 0 <= a <= top.lo <= top.hi + 1 <= b + 1 <= |t| && InRange(t, |e|)
  {
    assert (rest + [top])[|rest|] == top;
  }

  /** Sorts entries loSt..hiSt of fmap by class; assertion 1004 on the stack never fires. */
  method FallbackQSort3(fmap: array<int>, eclass: array<int>, loSt: int, hiSt: int)
    requires fmap != eclass && InRange(fmap[..], eclass.Length)
    requires 0 <= loSt <= hiSt < fmap.Length && hiSt - loSt < 900_000
    modifies fmap
    ensures Permuted(old(fmap[..]), fmap[..], loSt, hiSt + 1)
    ensures SortedKeys(eclass[..], fmap[..], loSt, hiSt + 1)
  {
    hide Sorting, Work, InRange, SortedKeys, Permuted;
    ghost var s := fmap[..];
    var r := 0;
    var stack := new IntervalStack();
    stack.Push(loSt, hiSt);
    assert stack.Contents() == [Interval(loSt, hiSt)];
    SortingStart(eclass[..], s, loSt, hiSt);
    while stack.sp > 0
      invariant stack.Valid() && fresh(stack) && fresh(stack.stackLo) && fresh(stack.stackHi)
      invariant Sorting(eclass[..], s, fmap[..], stack.Contents(), loSt, hiSt)
      decreases Work(stack.Contents())
    {
      r := SortTop(fmap, eclass, stack, r, s, loSt, hiSt);
    }
    SortingEnd(eclass[..], s, fmap[..], loSt, hiSt);
  }
}
