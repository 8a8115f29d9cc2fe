/**
 * The small-memory inverse transform: 20-bit entries split over a 16-bit array and a nibble array,
 * pointer reversal along one cycle, and a binary search for each byte.
 */
module SmallInverse {
  import opened Words
  import opened Permutations
  import opened BurrowsWheeler
  import opened RunCoding
  import opened Checksums
  import opened OutputRuns

  /** Which bucket of the sorted column holds position indx. */
  method IndexIntoF(indx: int, cftab: array<int>) returns (nb: int)
    requires cftab.Length == 257 && cftab[0] <= indx < cftab[256]
    ensures 0 <= nb < 256 && cftab[nb] <= indx < cftab[nb + 1]
  {
    var na;
    nb, na := 0, 256;
    while na - nb != 1
      invariant 0 <= nb < na <= 256 && cftab[nb] <= indx < cftab[na]
      decreases na - nb
    {
      var mid := (nb + na) / 2;
      if indx >= cftab[mid] { nb := mid; } else { na := mid; }
    }
  }

  /** The bucket of a sorted position is the byte of the column entry sorted there. */
  lemma BucketIsByte(l: seq<byte>, p: nat, c: int)
    requires p < |l| && 0 <= c < 256 && Smaller(l, c, |l|) <= p < Smaller(l, c + 1, |l|)
    ensures l[Transform(l)[p]] == c
  {
    TransformInverts(l);
    var i := Transform(l)[p];
    assert SortedPositions(l)[i] == p;
    SortedPositionInBucket(l, i);
    if l[i] < c { SmallerMonotone(l, l[i] as int + 1, c, |l|); }
    if l[i] > c { SmallerMonotone(l, c + 1, l[i], |l|); }
  }

  /** n entries of 20 bits: `ll16` keeps the low 16 bits and `ll4` packs the high nibbles in pairs. */
  class PackedVector {
    const ll16: array<u16>
    const ll4: array<byte>

    constructor (n: nat)
      ensures Valid() && fresh(ll16) && fresh(ll4) && ll16.Length == n
    {
      ll16, ll4 := new u16[n], new byte[(1 + n) / 2];
    }

    ghost predicate Valid() {
      ll4.Length == (1 + ll16.Length) / 2 && ll4 as object != ll16
    }

    function GetLl4(i: nat): (r: nat)
      requires Valid() && i < ll16.Length
      reads ll4
      ensures r < 16
    {
      if i % 2 == 0 then ll4[i / 2] % 16 else ll4[i / 2] / 16
    }

    function GetLl(i: nat): (r: nat)
      requires Valid() && i < ll16.Length
      reads ll16, ll4
      ensures r < 0x10_0000
    {
      ll16[i] + GetLl4(i) * 0x1_0000
    }

    /** Stores an entry whole and disturbs no other, although two entries share a byte. */
    method SetLl(i: nat, n: nat)
      requires Valid() && i < ll16.Length && n < 0x10_0000
      modifies ll16, ll4
      ensures GetLl(i) == n
      ensures forall j :: 0 <= j < ll16.Length && j != i ==> GetLl(j) == old(GetLl(j))
      ensures forall j :: 0 <= j < ll16.Length && j != i ==> ll16[j] == old(ll16[j])
    {
      ll16[i] := n % 0x1_0000;
      SetLl4(i, n / 0x1_0000);
    }

    method SetLl4(i: nat, n: nat)
      requires Valid() && i < ll16.Length && n < 16
      modifies ll4
      ensures GetLl4(i) == n
      ensures forall j :: 0 <= j < ll16.Length && j != i ==> GetLl4(j) == old(GetLl4(j))
    {
      var x := ll4[i / 2];
      if i % 2 == 0 {
        ll4[i / 2] := x / 16 * 16 + n;
      } else {
        ll4[i / 2] := x % 16 + n * 16;
      }
      forall j | 0 <= j < ll16.Length && j != i
        ensures GetLl4(j) == old(GetLl4(j))
      {
        if j / 2 == i / 2 { assert j % 2 != i % 2; }
      }
    }

    /** All entries. */
    ghost function Values(): (v: seq<nat>)
      requires Valid()
      reads ll16, ll4
      ensures |v| == ll16.Length && forall i :: 0 <= i < |v| ==> v[i] == GetLl(i)
    {
      seq(ll16.Length, i requires 0 <= i < ll16.Length reads ll16, ll4 => GetLl(i))
    }

    method Store(i: nat, n: nat)
      requires Valid() && i < ll16.Length && n < 0x10_0000
      modifies ll16, ll4
      ensures Values() == old(Values())[i := n]
      ensures forall j :: 0 <= j < ll16.Length && j != i ==> ll16[j] == old(ll16[j])
    {
      SetLl(i, n);
    }
  }

  /** Replaces the column bytes in `ll16` by the sorted position of each entry. */
  method ComputeT(v: PackedVector, cftabCopy: array<int>, nblock: nat, ghost l: seq<byte>)
    requires v.Valid() && nblock == |l| <= v.ll16.Length && nblock <= 900_000
    requires forall i :: 0 <= i < nblock ==> v.ll16[i] == l[i]
    requires cftabCopy.Length == 257 && cftabCopy as object != v.ll16 && cftabCopy as object != v.ll4
    requires forall c :: 0 <= c < 256 ==> cftabCopy[c] == Smaller(l, c, |l|)
    modifies v.ll16, v.ll4, cftabCopy
    ensures forall i :: 0 <= i < nblock ==> v.GetLl(i) == SortedPosition(l, i)
  {
    for i := 0 to nblock
      invariant forall c :: 0 <= c < 256 ==> cftabCopy[c] == Smaller(l, c, |l|) + Count(l, c, i)
      invariant forall j :: 0 <= j < i ==> v.GetLl(j) == SortedPosition(l, j)
      invariant forall j :: i <= j < nblock ==> v.ll16[j] == l[j]
    {
      var uc := v.ll16[i];
      SortedPositionInBucket(l, i);
      v.SetLl(i, cftabCopy[uc]);
      cftabCopy[uc] := cftabCopy[uc] + 1;
    }
  }

  // ---------- Pointer reversal ----------

  /** The places of a cycle of f visited after start, in order. */
  ghost predicate IsPath(f: seq<int>, start: int, path: seq<int>)
    requires 0 <= start < |f|
  {
    && (forall m :: 0 <= m < |path| ==> 0 <= path[m] < |f|)
    && (path != [] ==> path[0] == f[start])
    && (forall m :: 0 < m < |path| ==> path[m] == f[path[m - 1]])
    && Distinct(path)
  }

  /** The cycle has not come back to start before its last place. */
  ghost predicate OpenPath(start: int, path: seq<int>) {
    forall m :: 0 <= m < |path| - 1 ==> path[m] != start
  }

  ghost function Last(start: int, path: seq<int>): int {
    if path == [] then start else path[|path| - 1]
  }

  lemma EmptyPath(f: seq<int>, start: int)
    requires 0 <= start < |f|
    ensures IsPath(f, start, []) && OpenPath(start, [])
  {
  }

  /** The next place is new, because f never maps two places to one. */
  lemma NextPlaceIsNew(f: seq<int>, start: int, path: seq<int>)
    requires IsPermutation(f) && 0 <= start < |f| && IsPath(f, start, path)
    requires OpenPath(start, path) && (path != [] ==> Last(start, path) != start)
    ensures f[Last(start, path)] !in path
    ensures IsPath(f, start, path + [f[Last(start, path)]])
    ensures OpenPath(start, path + [f[Last(start, path)]])
  {
    var j := f[Last(start, path)];
    forall m | 0 <= m < |path|
      ensures path[m] != j
    {
      var back := if m == 0 then start else path[m - 1];
      assert path[m] == f[back] && back != Last(start, path);
    }
  }

  lemma PathLength(f: seq<int>, start: int, path: seq<int>)
    requires 0 <= start < |f| && IsPath(f, start, path)
    ensures |path| <= |f|
  {
    DistinctCardinality(path);
    BelowCardinality(|f|);
    assert Elements(path) <= Below(|f|);
    SubsetCardinality(Elements(path), Below(|f|));
  }

  /** v holds the inverse t on the places of the path and still f elsewhere. */
  ghost predicate Reversed(v: seq<int>, f: seq<int>, t: seq<int>, path: seq<int>) {
    && |f| == |t| <= |v|
    && forall x :: 0 <= x < |f| ==> v[x] == if x in path then t[x] else f[x]
  }

  /** Following v from start is following t. */
  ghost predicate Follows(v: seq<int>, t: seq<int>, start: int)
    requires 0 <= start < |t| && forall i :: 0 <= i < |t| ==> 0 <= t[i] < |t|
  {
    |t| <= |v| && forall k: nat :: v[Walk(t, start, k)] == t[Walk(t, start, k)]
  }

  /** Once the cycle has closed, following v from start is following t. */
  lemma ClosedCycleFollows(v: seq<int>, f: seq<int>, t: seq<int>, start: int, path: seq<int>)
    requires IsPermutation(f) && Inverse(f, t) && 0 <= start < |f|
    requires IsPath(f, start, path) && path != [] && Last(start, path) == start
    requires Reversed(v, f, t, path)
    ensures Follows(v, t, start)
  {
    forall k: nat
      ensures v[Walk(t, start, k)] == t[Walk(t, start, k)]
    {
      WalkStaysOnPath(f, t, start, path, k);
    }
  }

  lemma {:induction false} WalkStaysOnPath(f: seq<int>, t: seq<int>, start: int, path: seq<int>, k: nat)
    requires IsPermutation(f) && Inverse(f, t) && 0 <= start < |f|
    requires IsPath(f, start, path) && path != [] && Last(start, path) == start
    ensures Walk(t, start, k) in path
  {
    if k > 0 {
      WalkStaysOnPath(f, t, start, path, k - 1);
      var m :| 0 <= m < |path| && path[m] == Walk(t, start, k - 1);
      var back := if m == 0 then start else path[m - 1];
      assert f[back] == path[m];
      assert t[path[m]] == back;
    }
  }

  lemma ReverseStep(v: seq<int>, f: seq<int>, t: seq<int>, path: seq<int>, i: int, j: int)
    requires Reversed(v, f, t, path) && Inverse(f, t) && 0 <= i < |f| && j == f[i] && j !in path
    ensures v[j] == f[j] && Reversed(v[j := i], f, t, path + [j])
  {
  }

  /** Turns the cycle through origPtr round, in place; the other cycles are left alone. */
  method ReverseCycle(v: PackedVector, origPtr: nat, ghost f: seq<int>, ghost t: seq<int>)
    requires v.Valid() && IsPermutation(f) && Inverse(f, t) && origPtr < |f| <= v.ll16.Length && |f| <= 900_000
    requires forall i :: 0 <= i < |f| ==> v.GetLl(i) == f[i]
    modifies v.ll16, v.ll4
    ensures Follows(v.Values(), t, origPtr)
  {
    hide IsPath, OpenPath, Follows;
    ghost var path := [];
    assert IsPath(f, origPtr, []) && OpenPath(origPtr, []) by { EmptyPath(f, origPtr); }
    var i: int := origPtr;
    var j: int := v.GetLl(i);
    var first := true;
    while first || i != origPtr
      invariant IsPath(f, origPtr, path) && OpenPath(origPtr, path)
      invariant first <==> path == []
      invariant i == Last(origPtr, path) && 0 <= i < |f| && j == f[i]
      invariant Reversed(v.Values(), f, t, path)
      decreases |f| - |path|
    {
      first := false;
      ghost var before := v.Values();
      NextPlaceIsNew(f, origPtr, path);
      PathLength(f, origPtr, path + [j]);
      ReverseStep(before, f, t, path, i, j);
      var tmp := v.GetLl(j);
      v.Store(j, i);
      path := path + [j];
      i := j;
      j := tmp;
    }
    ClosedCycleFollows(v.Values(), f, t, origPtr, path);
  }

  /** Builds the sorted positions and turns the cycle of origPtr round, keeping cftab for the lookups. */
  method InvertColumn(v: PackedVector, cftab: array<int>, cftabCopy: array<int>, nblock: nat, origPtr: nat, ghost l: seq<byte>)
    requires v.Valid() && origPtr < nblock == |l| <= v.ll16.Length && nblock <= 900_000
    requires forall i :: 0 <= i < nblock ==> v.ll16[i] == l[i]
    requires cftab.Length == cftabCopy.Length == 257 && cftab != cftabCopy
    requires cftabCopy as object != v.ll16 && cftabCopy as object != v.ll4
    requires cftab as object != v.ll16 && cftab as object != v.ll4
    requires forall c :: 0 <= c <= 256 ==> cftab[c] == Smaller(l, c, |l|)
    modifies v.ll16, v.ll4, cftabCopy
    ensures Follows(v.Values(), Transform(l), origPtr)
  {
    hide Follows, Smaller, Transform;
    for i := 0 to 257
      invariant forall c :: 0 <= c < i ==> cftabCopy[c] == cftab[c]
      invariant unchanged(v.ll16)
    {
      cftabCopy[i] := cftab[i];
    }
    ComputeT(v, cftabCopy, nblock, l);
    SortedPositionsPermutation(l);
    TransformInverts(l);
    ReverseCycle(v, origPtr, SortedPositions(l), Transform(l));
  }

  // ---------- Output ----------

  /** The fields of the decompressor state used in small-memory mode. */
  class Decoder {
    const blockSize100k: nat
    const v: PackedVector
    const cftab: array<int>
    const nblock: nat
    const origPtr: nat
    const sum: Checksum
    var tPos: nat
    var nblockUsed: nat
    var k0: byte
    var stateOutCh: byte
    var stateOutLen: nat
    var calculatedBlockCRC: bv32
    var output: seq<byte>   // what has been stored through next_out
    var availOut: nat
    ghost const column: seq<byte>
    ghost const block: seq<byte>   // what the column and start row stand for
    ghost const extra: byte        // what is fetched just past the end of the block

    /** `v.ll16` holds the column, one byte an entry, and cftab the bucket starts. */
    constructor (v: PackedVector, cftab: array<int>, cftabCopy: array<int>, blockSize100k: nat, nblock: nat, origPtr: nat, sum: Checksum, ghost l: seq<byte>)
      requires v.Valid() && 1 <= blockSize100k <= 9 && v.ll16.Length == 100_000 * blockSize100k
      requires nblock == |l| <= v.ll16.Length && origPtr < nblock
      requires forall i :: 0 <= i < nblock ==> v.ll16[i] == l[i]
      requires cftab.Length == cftabCopy.Length == 257 && cftab != cftabCopy
      requires cftabCopy as object != v.ll16 && cftabCopy as object != v.ll4
      requires cftab as object != v.ll16 && cftab as object != v.ll4
      requires forall c :: 0 <= c <= 256 ==> cftab[c] == Smaller(l, c, |l|)
      modifies v.ll16, v.ll4, cftabCopy
      ensures Valid() && fresh(this) && this.v == v && this.sum == sum && output == [] && availOut == 0
      ensures block == Unsorted(l, origPtr, |l|) && extra == Fetched(l, origPtr, |l|)
      ensures AllOutput() == Expand(block, extra)
    {
      hide Transform, Total, Expand, InStep, Inverse, Follows;
      this.blockSize100k, this.v, this.cftab, this.nblock, this.origPtr, this.sum := blockSize100k, v, cftab, nblock, origPtr, sum;
      calculatedBlockCRC := sum.start;
      tPos, nblockUsed, k0, stateOutCh, stateOutLen, output, availOut := 0, 0, 0, 0, 0, [], 0;
      column, block, extra := l, Unsorted(l, origPtr, |l|), Fetched(l, origPtr, |l|);
      new;
      InvertColumn(v, cftab, cftabCopy, nblock, origPtr, l);
      FetchFirst();
    }

    method FetchFirst()
      requires Table() && output == [] && calculatedBlockCRC == sum.start && stateOutLen == 0 && stateOutCh == 0
      modifies this`tPos, this`k0, this`nblockUsed
      ensures Valid() && AllOutput() == Expand(block, extra)
    {
      hide Total, Transform, Table, Expand;
      TableBasics();
      tPos, nblockUsed := origPtr, 0;
      assert Walk(Transform(column), origPtr, 0) == origPtr;
      var ok, c := GetSmall();
      k0 := c;
      TotalAtStart(block, extra, 0);
    }

    ghost predicate Table()
      reads v.ll16, v.ll4, cftab
    {
      && v.Valid() && 1 <= blockSize100k <= 9 && v.ll16.Length == 100_000 * blockSize100k
      && nblock == |column| <= v.ll16.Length && origPtr < nblock
      && block == Unsorted(column, origPtr, |column|) && extra == Fetched(column, origPtr, |column|)
      && cftab.Length == 257 && (forall c :: 0 <= c <= 256 ==> cftab[c] == Smaller(column, c, nblock))
      && Follows(v.Values(), Transform(column), origPtr)
    }

    lemma TableBasics()
      requires Table()
      ensures |column| == |block| == nblock && origPtr < nblock
    {
      hide Transform, Smaller;
    }

    /** The walk stands where it should after `used` fetches. */
    ghost predicate InStep(pos: nat, used: nat) {
      && |column| == |block| == nblock && origPtr < nblock
      && used <= nblock + 2
      && pos == Walk(Transform(column), origPtr, used)
    }

    ghost predicate Valid()
      reads this, v.ll16, v.ll4, cftab
    {
      && Table() && InStep(tPos, nblockUsed)
      && nblockUsed > 0 && calculatedBlockCRC == sum.Register(output)
      && (nblockUsed <= nblock ==> k0 == block[nblockUsed - 1])
    }

    /** Everything written so far and everything still to come. */
    ghost function AllOutput(): Expansion
      requires Valid()
      reads this, v.ll16, v.ll4, cftab
    {
      Total(block, extra, output, stateOutCh, stateOutLen, nblockUsed - 1)
    }

    /** Fetches one byte; the range check on tPos never fails. */
    method GetSmall() returns (ok: bool, c: byte)
      requires Table() && InStep(tPos, nblockUsed) && nblockUsed <= nblock + 1
      modifies this`tPos, this`nblockUsed
      ensures ok && nblockUsed == old(nblockUsed) + 1 && InStep(tPos, nblockUsed)
      ensures old(nblockUsed) < nblock ==> c == block[old(nblockUsed)]
      ensures old(nblockUsed) == nblock ==> c == extra
    {
      hide Transform, Smaller;
      ok, c := false, 0;
      if tPos >= 100_000 * blockSize100k { return; }
      SmallerThanAll(column, nblock);
      c := IndexIntoF(tPos, cftab);
      BucketIsByte(column, tPos, c);
      assert c == Fetched(column, origPtr, nblockUsed);
      tPos := v.GetLl(tPos);
      nblockUsed := nblockUsed + 1;
      ok := true;
    }

    /** Fetches up to the next run and its length. */
    method StartRun()
      requires Valid() && nblockUsed <= nblock
      modifies this`tPos, this`nblockUsed, this`k0, this`stateOutCh, this`stateOutLen
      ensures Valid()
      ensures nblockUsed == old(nblockUsed) + RunWidth(block, old(nblockUsed) - 1)
      ensures stateOutCh == block[old(nblockUsed) - 1]
      ensures stateOutLen == RunLength(block, old(nblockUsed) - 1, extra)
    {
      hide Table, Walk, Transform, Checksum.Register;
      var ok, k1;
      stateOutLen := 1;
      stateOutCh := k0;
      ok, k1 := GetSmall();
      if nblockUsed == nblock + 1 { return; }
      if k1 != k0 { k0 := k1; return; }
      GoOnRun(old(nblockUsed) - 1);
    }

    /** A run that starts at place p is at least two bytes long. */
    method GoOnRun(ghost p: nat)
      requires p + 2 <= nblock == |block|
      requires Table() && InStep(tPos, nblockUsed) && nblockUsed == p + 2 && block[p] == block[p + 1] == k0
      modifies this`tPos, this`nblockUsed, this`k0, this`stateOutLen
      ensures Table() && InStep(tPos, nblockUsed) && 0 < nblockUsed && (nblockUsed <= nblock ==> k0 == block[nblockUsed - 1])
      ensures nblockUsed == p + 1 + RunWidth(block, p) && stateOutLen == RunLength(block, p, extra)
    {
      hide Table, Walk, Transform;
      var ok, k1;
      stateOutLen := 2;
      ok, k1 := GetSmall();
      if nblockUsed == nblock + 1 { return; }
      if k1 != k0 { k0 := k1; return; }
      stateOutLen := 3;
      ok, k1 := GetSmall();
      if nblockUsed == nblock + 1 { return; }
      if k1 != k0 { k0 := k1; return; }
      CountRun(p);
    }

    /** A run of four bytes is followed by a count. */
    method CountRun(ghost p: nat)
      requires p + 4 <= nblock == |block|
      requires Table() && InStep(tPos, nblockUsed) && nblockUsed == p + 4 && block[p] == block[p + 1] == block[p + 2] == block[p + 3]
      modifies this`tPos, this`nblockUsed, this`k0, this`stateOutLen
      ensures Table() && InStep(tPos, nblockUsed) && 0 < nblockUsed && (nblockUsed <= nblock ==> k0 == block[nblockUsed - 1])
      ensures nblockUsed == p + 1 + RunWidth(block, p) && stateOutLen == RunLength(block, p, extra)
    {
      hide Table, Walk, Transform;
      var ok, k1;
      ok, k1 := GetSmall();
      stateOutLen := k1 as int + 4;
      ok, k0 := GetSmall();
    }

    /** Writes the current run; false when the output buffer is full first. */
    method WriteRun() returns (done: bool)
      requires calculatedBlockCRC == sum.Register(output)
      modifies this`calculatedBlockCRC, this`output, this`availOut, this`stateOutLen
      ensures calculatedBlockCRC == sum.Register(output)
      ensures stateOutLen <= old(stateOutLen)
      ensures output == old(output) + Repeat(stateOutCh, old(stateOutLen) - stateOutLen)
      ensures availOut == old(availOut) - (old(stateOutLen) - stateOutLen)
      ensures done ==> availOut > 0 && stateOutLen == 0
      ensures !done ==> availOut == 0
    {
      while true
        invariant stateOutLen <= old(stateOutLen) && calculatedBlockCRC == sum.Register(output)
        invariant output == old(output) + Repeat(stateOutCh, old(stateOutLen) - stateOutLen)
        invariant availOut == old(availOut) - (old(stateOutLen) - stateOutLen)
        decreases stateOutLen
      {
        if availOut == 0 { return false; }
        if stateOutLen == 0 { return true; }
        sum.RegisterStep(output, stateOutCh);
        calculatedBlockCRC := sum.update(calculatedBlockCRC, stateOutCh);
        output, availOut, stateOutLen := output + [stateOutCh], availOut - 1, stateOutLen - 1;
      }
    }

    /** The application supplies output space. */
    method Provide(n: nat)
      requires Valid()
      modifies this`availOut
      ensures Valid() && AllOutput() == old(AllOutput()) && availOut == n
    {
      hide Table, Walk, Transform, Total;
      availOut := n;
    }

    /** The test the stream driver makes to see that the block has been delivered. */
    predicate Finished()
      reads this
    {
      nblockUsed == nblock + 1 && stateOutLen == 0
    }

    /**
     * Writes block output until the buffer is full, the block is done, or the block turns out to
     * end inside a run. Nothing is lost or repeated, however the output space was cut up.
     */
    method UnRleObufToOutput() returns (corrupt: bool)
      requires Valid()
      modifies this
      ensures Valid() && AllOutput() == old(AllOutput()) && calculatedBlockCRC == sum.Register(output)
      ensures old(output) <= output && |output| - |old(output)| == old(availOut) - availOut
      ensures corrupt ==> AllOutput() == Expansion(output, false)
      ensures !corrupt && availOut > 0 ==> AllOutput() == Expansion(output, true) && Finished()
    {
      hide Table, InStep, Total;
      while true
        invariant Valid() && AllOutput() == old(AllOutput())
        invariant old(output) <= output && |output| - |old(output)| == old(availOut) - availOut
        decreases nblock + 3 - nblockUsed
      {
        ghost var before, due := output, stateOutLen;
        var done := WriteRun();
        TotalAfterWrite(block, extra, before, stateOutCh, due, stateOutLen, nblockUsed - 1);
        if !done { return false; }
        assert |block| == nblock by { Lengths(); }
        if nblockUsed == nblock + 1 {
          TotalAtEnd(block, extra, output, stateOutCh, nblockUsed - 1);
          return false;
        }
        if nblockUsed > nblock + 1 {
          TotalAtEnd(block, extra, output, stateOutCh, nblockUsed - 1);
          return true;
        }
        TotalAfterStart(block, extra, output, stateOutCh, nblockUsed - 1);
        StartRun();
        assert nblockUsed <= nblock + 2 by { Lengths(); }
      }
    }

    lemma Lengths()
      requires Valid()
      ensures |block| == nblock && nblockUsed <= nblock + 2
    {
    }
  }
}
