/** The fast inverse transform of the decompressor and its run-length output loop. */
module FastInverse {
  import opened Words
  import opened BurrowsWheeler
  import opened RunCoding
  import opened Checksums
  import opened OutputRuns

  /** An entry of `tt` holds a column byte in its low 8 bits and an index in the upper 24. */
  function LowByte(x: u32): byte { x % 256 }

  function HighIndex(x: u32): nat { x / 256 }

  /** `x | (i << 8)`, for an entry whose upper bits are still clear. */
  function SetHigh(x: u32, i: nat): (r: u32)
    requires x < 256 && i < 0x100_0000
    ensures LowByte(r) == x && HighIndex(r) == i
  {
    x + i * 256
  }

  /**
   * Where each byte's bucket begins in the sorted column, as running totals of the byte counts.
   * The range checks made on the way never reject the counts of a column.
   */
  method SetUpCftab(unzftab: array<int>, cftab: array<int>, nblock: nat, ghost l: seq<byte>) returns (ok: bool)
    requires unzftab.Length == 256 && cftab.Length == 257 && unzftab != cftab && nblock == |l|
    requires forall c :: 0 <= c < 256 ==> unzftab[c] == Count(l, c, |l|)
    modifies cftab
    ensures ok && forall c :: 0 <= c <= 256 ==> cftab[c] == Smaller(l, c, |l|)
  {
    for i := 0 to 256 {
      if unzftab[i] < 0 || unzftab[i] > nblock { return false; }
    }
    cftab[0] := 0;
    for i := 1 to 257
      invariant cftab[0] == 0 && forall c :: 1 <= c < i ==> cftab[c] == unzftab[c - 1]
    {
      cftab[i] := unzftab[i - 1];
    }
    SmallerThanAll(l, |l|);
    for i := 1 to 257
      invariant forall c :: 0 <= c < i ==> cftab[c] == Smaller(l, c, |l|)
      invariant forall c :: i <= c <= 256 ==> cftab[c] == unzftab[c - 1]
    {
      SmallerStep(l, i - 1, |l|);
      cftab[i] := cftab[i] + cftab[i - 1];
    }
    for i := 0 to 257 {
      if cftab[i] < 0 || cftab[i] > nblock { return false; }
    }
    for i := 1 to 257
      invariant forall c :: 0 <= c <= 256 ==> cftab[c] == Smaller(l, c, |l|)
    {
      SmallerMonotone(l, i - 1, i, |l|);
      if cftab[i - 1] > cftab[i] { return false; }
    }
    ok := true;
  }

  /** How the search for a new run ends: none left, one byte to write at once, or a counted run. */
  datatype Start = Done | OneByte | Counted

  /** The fields of the decompressor state that undo the transform and the run coding. */
  class Decoder {
    const blockSize100k: nat
    const tt: array<u32>
    const nblock: nat
    const origPtr: nat
    const sum: Checksum
    var tPos: nat
    var nblockUsed: nat
    var k0: byte
    var stateOutCh: byte
    var stateOutLen: nat
    var calculatedBlockCRC: bv32
    var output: seq<byte>   // what has been stored through next_out
    var availOut: nat
    ghost const column: seq<byte>
    ghost const block: seq<byte>   // what the column and start row stand for
    ghost const extra: byte        // what is fetched just past the end of the block

    /** `tt` holds the column, one byte an entry, and cftab the bucket starts. */
    constructor (tt: array<u32>, cftab: array<int>, blockSize100k: nat, nblock: nat, origPtr: nat, sum: Checksum, ghost l: seq<byte>)
      requires 1 <= blockSize100k <= 9 && tt.Length == 100_000 * blockSize100k
      requires nblock == |l| <= tt.Length && origPtr < nblock
      requires forall i :: 0 <= i < nblock ==> tt[i] == l[i]
      requires cftab.Length == 257 && tt as object != cftab
      requires forall c :: 0 <= c <= 256 ==> cftab[c] == Smaller(l, c, |l|)
      modifies tt, cftab
      ensures Valid() && fresh(this) && this.tt == tt && this.sum == sum && output == [] && availOut == 0
      ensures block == Unsorted(l, origPtr, |l|) && extra == Fetched(l, origPtr, |l|)
      ensures AllOutput() == Expand(block, extra)
    {
      hide Transform, Total, Expand, Smaller, InStep;
      this.blockSize100k, this.tt, this.nblock, this.origPtr, this.sum := blockSize100k, tt, nblock, origPtr, sum;
      calculatedBlockCRC := sum.start;
      tPos, nblockUsed, k0, stateOutCh, stateOutLen, output, availOut := 0, 0, 0, 0, 0, [], 0;
      column, block, extra := l, Unsorted(l, origPtr, |l|), Fetched(l, origPtr, |l|);
      new;
      BuildTransform(tt, cftab, nblock, l);
      FetchFirst();
    }

    method FetchFirst()
      requires Table() && output == [] && calculatedBlockCRC == sum.start && stateOutLen == 0 && stateOutCh == 0
      modifies this`tPos, this`k0, this`nblockUsed
      ensures Valid() && AllOutput() == Expand(block, extra)
    {
      hide Total, Transform;
      var start := HighIndex(tt[origPtr]);
      assert Walk(Transform(column), origPtr, 0) == origPtr;
      var _, c, pos := GetFast(start, 0);
      k0, tPos, nblockUsed := c, pos, 1;
      TotalAtStart(block, extra, 0);
    }

    ghost predicate Table()
      reads tt
    {
      && 1 <= blockSize100k <= 9 && tt.Length == 100_000 * blockSize100k
      && nblock == |column| <= tt.Length && origPtr < nblock
      && block == Unsorted(column, origPtr, |column|) && extra == Fetched(column, origPtr, |column|)
      && forall i :: 0 <= i < nblock ==> LowByte(tt[i]) == column[i] && HighIndex(tt[i]) == Transform(column)[i]
    }

    /** The walk stands where it should after `used` fetches, the last of which gave k. */
    ghost predicate InStep(pos: nat, used: nat, k: byte)
    {
      && |column| == |block| == nblock && origPtr < nblock
      && 1 <= used <= nblock + 2
      && pos == Walk(Transform(column), origPtr, used + 1)
      && (used <= nblock ==> k == block[used - 1])
    }

    ghost predicate Valid()
      reads this, tt
    {
      Table() && InStep(tPos, nblockUsed, k0) && calculatedBlockCRC == sum.Register(output)
    }

    /** Everything written so far and everything still to come. */
    ghost function AllOutput(): Expansion
      requires Valid()
      reads this, tt
    {
      Total(block, extra, output, stateOutCh, stateOutLen, nblockUsed - 1)
    }

    /** Fetches one byte, the k-th; the range check on the position never fails. */
    method GetFast(pos: nat, ghost k: nat) returns (ok: bool, c: byte, next: nat)
      requires Table() && pos == Walk(Transform(column), origPtr, k + 1)
      ensures ok && next == Walk(Transform(column), origPtr, k + 2)
      ensures k < nblock ==> c == block[k]
      ensures k == nblock ==> c == extra
    {
      ok, c, next := false, 0, 0;
      if pos >= 100_000 * blockSize100k { return; }
      var x := tt[pos];
      c := LowByte(x);
      next := HighIndex(x);
      assert c == Fetched(column, origPtr, k);
      ok := true;
    }

    /** Fetches up to the next run and its length. */
    method StartRun(pos0: nat, used0: nat, k0: byte) returns (r: Start, ch: byte, len: nat, pos: nat, used: nat, k: byte)
      requires Table() && InStep(pos0, used0, k0) && used0 <= nblock + 1
      ensures InStep(pos, used, k)
      ensures r.Done? <==> used0 == nblock + 1
      ensures r.Done? ==> used == used0
      ensures !r.Done? ==> && used == used0 + RunWidth(block, used0 - 1) && ch == block[used0 - 1]
                           && (if r.OneByte? then 1 else len) == RunLength(block, used0 - 1, extra)
    {
      hide Table, Walk, Transform;
      var ok, k1;
      r, ch, len, pos, used, k := Done, k0, 0, pos0, used0, k0;
      if used == nblock + 1 { return; }
      ok, k1, pos := GetFast(pos, used); used := used + 1;
      r := OneByte;
      if k1 != k { k := k1; return; }
      if used == nblock + 1 { return; }
      r, len := Counted, 2;
      ok, k1, pos := GetFast(pos, used); used := used + 1;
      if used == nblock + 1 { return; }
      if k1 != k { k := k1; return; }
      len := 3;
      ok, k1, pos := GetFast(pos, used); used := used + 1;
      if used == nblock + 1 { return; }
      if k1 != k { k := k1; return; }
      ok, k1, pos := GetFast(pos, used); used := used + 1;
      len := k1 as int + 4;
      ok, k, pos := GetFast(pos, used); used := used + 1;
    }

    /**
     * Writes block output until the buffer is full, the block is done, or the block turns out to
     * end inside a run. Nothing is lost or repeated, however the output space was cut up, and the
     * checksum has been fed exactly what has been written.
     */
    method UnRleObufToOutput() returns (corrupt: bool)
      requires Valid()
      modifies this
      ensures old(output) <= output && |output| - |old(output)| == old(availOut) - availOut
      ensures corrupt ==> old(AllOutput()) == Expansion(output, false)
      ensures !corrupt ==> Valid() && AllOutput() == old(AllOutput()) && calculatedBlockCRC == sum.Register(output)
      ensures !corrupt && availOut > 0 ==> AllOutput() == Expansion(output, true) && Finished()
    {
      hide Table, Walk, Transform, Total, Repeat, RunWidth, RunLength, Unsorted, Fetched, Checksum.Register;
      // restore
      var crc, ch, len, used, k, out, avail, pos := calculatedBlockCRC, stateOutCh, stateOutLen, nblockUsed, k0, output, availOut, tPos;
      ghost var total := AllOutput();
      var one, full, r := false, false, Counted;
      while true
        invariant InStep(pos, used, k)
        invariant Total(block, extra, out, ch, if one then 1 else len, used - 1) == total
        invariant crc == sum.Register(out) && output == old(output) <= out && |out| - |output| == old(availOut) - avail
        decreases nblock + 3 - used
      {
        ghost var due, before := if one then 1 else len, out;
        full, out, len, avail, crc := WriteRun(sum, crc, one, ch, len, out, avail);
        TotalAfterWrite(block, extra, before, ch, due, if full then len else 0, used - 1);
        if full { break; }
        corrupt := true;
        if used > nblock + 1 {
          TotalAtEnd(block, extra, out, ch, used - 1);
          output, availOut := out, avail;
          return;
        }
        ghost var used0 := used;
        var ch1, len1;
        r, ch1, len1, pos, used, k := StartRun(pos, used, k);
        if r.Done? {
          TotalAtEnd(block, extra, out, ch, used - 1);
          len := 0;
          break;
        }
        TotalAfterStart(block, extra, out, ch, used0 - 1);
        ch := ch1;
        if r.Counted? { len := len1; }
        one := r.OneByte?;
      }
      // save
      calculatedBlockCRC, stateOutCh, stateOutLen, nblockUsed, k0, output, availOut, tPos := crc, ch, len, used, k, out, avail, pos;
      corrupt := false;
    }

    /** The application supplies output space. */
    method Provide(n: nat)
      requires Valid()
      modifies this`availOut
      ensures Valid() && AllOutput() == old(AllOutput()) && availOut == n
    {
      hide Walk, Transform, Total;
      availOut := n;
    }

    /** The test the stream driver makes to see that the block has been delivered. */
    predicate Finished()
      reads this
    {
      nblockUsed == nblock + 1 && stateOutLen == 0
    }
  }

  /**
   * Finishes the current run, or says that the output buffer is full. `one` stands for the jump
   * to the label where exactly one byte is left to write.
   */
  method WriteRun(sum: Checksum, crc0: bv32, one: bool, ch: byte, len0: nat, out0: seq<byte>, avail0: nat)
    returns (full: bool, out: seq<byte>, len: nat, avail: nat, crc: bv32)
    requires crc0 == sum.Register(out0)
    ensures var due := if one then 1 else len0;
            var left := if full then len else 0;
            && left <= due
            && out == out0 + Repeat(ch, due - left)
            && avail == avail0 - (due - left)
    ensures full ==> avail == 0 && len > 0
    ensures crc == sum.Register(out)
  {
    full, out, len, avail, crc := true, out0, len0, avail0, crc0;
    if one || len > 0 {
      if !one {
        while true
          invariant 0 < len <= len0 && crc == sum.Register(out)
          invariant out == out0 + Repeat(ch, len0 - len)
          invariant avail == avail0 - (len0 - len)
          decreases len
        {
          if avail == 0 { return; }
          if len == 1 { break; }
          sum.RegisterStep(out, ch);
          crc := sum.update(crc, ch);
          out, len, avail := out + [ch], len - 1, avail - 1;
        }
      }
      // s_state_out_len_eq_one
      if avail == 0 {
        len := 1;
        return;
      }
      sum.RegisterStep(out, ch);
      crc := sum.update(crc, ch);
      out, avail := out + [ch], avail - 1;
    }
    full := false;
  }

  /** Entry x of `tt` at place k once the first i column entries have been linked. */
  ghost predicate EntryLinked(x: u32, l: seq<byte>, k: nat, i: nat)
    requires k < |l|
  {
    if Transform(l)[k] < i then LowByte(x) == l[k] && HighIndex(x) == Transform(l)[k] else x == l[k]
  }

  ghost predicate Linked(tt: seq<u32>, l: seq<byte>, i: nat)
    requires |l| <= |tt|
  {
    forall k :: 0 <= k < |l| ==> EntryLinked(tt[k], l, k, i)
  }

  /** The next free place of every byte's bucket once the first i column entries are placed. */
  ghost predicate Placed(cftab: seq<int>, l: seq<byte>, i: nat)
    requires |cftab| == 257 && i <= |l|
  {
    forall c :: 0 <= c < 256 ==> cftab[c] == Smaller(l, c, |l|) + Count(l, c, i)
  }

  lemma LinkStep(tt: seq<u32>, l: seq<byte>, i: nat)
    requires i < |l| <= |tt| && |l| <= 0x100_0000 && Linked(tt, l, i)
    ensures var k := SortedPosition(l, i);
            && k < |l| && tt[k] == l[k]
            && Linked(tt[k := SetHigh(tt[k], i)], l, i + 1)
  {
    var t, f, k := Transform(l), SortedPositions(l), SortedPosition(l, i);
    TransformInverts(l);
    assert f[i] == k && t[k] == i;
    assert EntryLinked(tt[k], l, k, i);
    var tt' := tt[k := SetHigh(tt[k], i)];
    forall k' | 0 <= k' < |l|
      ensures EntryLinked(tt'[k'], l, k', i + 1)
    {
      assert EntryLinked(tt[k'], l, k', i);
      assert t[k'] == i ==> f[t[k']] == k';
    }
  }

  lemma NothingLinked(tt: seq<u32>, cftab: seq<int>, l: seq<byte>)
    requires |l| <= |tt| && |cftab| == 257
    requires forall i :: 0 <= i < |l| ==> tt[i] == l[i]
    requires forall c :: 0 <= c <= 256 ==> cftab[c] == Smaller(l, c, |l|)
    ensures Linked(tt, l, 0) && Placed(cftab, l, 0)
  {
    hide Transform, Smaller;
  }

  lemma PlacedStep(cftab: seq<int>, l: seq<byte>, i: nat)
    requires |cftab| == 257 && i < |l| && Placed(cftab, l, i)
    ensures cftab[l[i]] == SortedPosition(l, i)
    ensures Placed(cftab[l[i] := SortedPosition(l, i) + 1], l, i + 1)
  {
    hide Smaller;
  }

  lemma AllLinked(tt: seq<u32>, l: seq<byte>)
    requires |l| <= |tt| && Linked(tt, l, |l|)
    ensures forall i :: 0 <= i < |l| ==> LowByte(tt[i]) == l[i] && HighIndex(tt[i]) == Transform(l)[i]
  {
    hide LowByte, HighIndex;
    forall i | 0 <= i < |l| ensures LowByte(tt[i]) == l[i] && HighIndex(tt[i]) == Transform(l)[i] {
      assert EntryLinked(tt[i], l, i, |l|);
      TransformBelow(l, i);
    }
  }

  lemma TransformBelow(l: seq<byte>, i: nat)
    requires i < |l|
    ensures Transform(l)[i] < |l|
  {
  }

  lemma NotYetLinked(tt: seq<u32>, l: seq<byte>, i: nat)
    requires i < |l| <= |tt| && Linked(tt, l, i)
    ensures LowByte(tt[i]) == l[i]
  {
    assert EntryLinked(tt[i], l, i, i);
  }

  /** Turns `tt` into the inverse transform, one counting pass over the column it holds. */
  method BuildTransform(tt: array<u32>, cftab: array<int>, nblock: nat, ghost l: seq<byte>)
    requires tt.Length <= 900_000 && nblock == |l| <= tt.Length && cftab.Length == 257
    requires tt as object != cftab
    requires forall i :: 0 <= i < nblock ==> tt[i] == l[i]
    requires forall c :: 0 <= c <= 256 ==> cftab[c] == Smaller(l, c, |l|)
    modifies tt, cftab
    ensures forall i :: 0 <= i < nblock ==> LowByte(tt[i]) == l[i] && HighIndex(tt[i]) == Transform(l)[i]
  {
    hide Linked, Placed, SortedPosition, LowByte, SetHigh;
    NothingLinked(tt[..], cftab[..], l);
    for i := 0 to nblock
      invariant Placed(cftab[..], l, i)
      invariant Linked(tt[..], l, i)
    {
      ghost var before, free := tt[..], cftab[..];
      NotYetLinked(before, l, i);
      LinkStep(before, l, i);
      PlacedStep(free, l, i);
      var uc := LowByte(tt[i]);
      var k := cftab[uc];
      tt[k] := SetHigh(tt[k], i);
      cftab[uc] := k + 1;
      assert tt[..] == before[k := SetHigh(before[k], i)] && cftab[..] == free[uc := k + 1];
    }
    AllLinked(tt[..], l);
  }

  /** What has been put out is the beginning of all that will be. */
  lemma PrefixOfAll(d: Decoder)
    requires d.Valid()
    ensures d.output <= d.AllOutput().bytes
  {
  }

  /** A finished decoder has put out all of its block, and its register has been fed all of it. */
  lemma AllPutOut(d: Decoder)
    requires d.Valid() && d.Finished()
    ensures d.AllOutput() == Expansion(d.output, true) && d.calculatedBlockCRC == d.sum.Register(d.output)
  {
    hide Decoder.Table;
    TotalAtEnd(d.block, d.extra, d.output, d.stateOutCh, d.nblockUsed - 1);
  }
}
