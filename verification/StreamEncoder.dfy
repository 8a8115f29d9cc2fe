/** The compressor as a stream: modes, input, blocks and output. */
module StreamEncoder {
  import opened Sequences
  import opened Words
  import opened Checksums
  import opened Bits
  import opened Rotations
  import opened BurrowsWheeler
  import opened RunCoding
  import opened BitStream
  import opened BlockBuffer
  import opened BlockFormat
  import opened BlockSender
  import opened StreamFormat
  import opened BlockSize
  import HeaderBits
  import FallbackSort

  /** Sorts a block with fresh work arrays and sends it. */
  method SortAndSend(w: BitWriter, content: seq<byte>, inUse: array<bool>, crc: seq<byte>, choose: (seq<nat>, nat) -> Choice, ghost runs: seq<Run>)
    returns (ghost s: Sent)
    requires w.Valid() && 0 < |content| <= 900_000 && inUse.Length == 256 && w as object != inUse
    requires forall i :: 0 <= i < |content| ==> inUse[content[i]]
    requires forall syms, n :: Usable(choose(syms, n), |syms|, n)
    modifies w
    ensures w.Valid() && s.body.Valid() && w.Written() == old(w.Written()) + s.Bits()
    ensures Carries(s.body, s.body.inUse, s.column) && s.origPtr < |s.column| == |content|
    ensures Unsorted(s.column, s.origPtr, |s.column|) == content && s.crc == crc && s.runs == runs
  {
    hide SortsRotations, BytesToBits, BlockHeaderBits, Body.Encoding, Body.Valid, Carries, Usable, Unsorted, BitWriter.Valid, BitWriter.Written;
    var n := |content|;
    var block := new byte[n](i requires 0 <= i < n => content[i]);
    var fmap, eclass := new int[n], new int[n];
    var bh := new HeaderBits.HeaderTable(65537);
    assert block[..] == content;
    FallbackSort.FallbackSort(fmap, eclass, block, bh);
    var origPtr := FallbackSort.FindOrigPtr(fmap, block[..]);
    ghost var body, l;
    body, l := SendSorted(w, block, fmap, origPtr, inUse, crc, choose);
    s := Sent(crc, origPtr, body, l, runs);
  }

  datatype Mode = Idle | Running | Flushing | Finishing
  datatype Action = RunAction | FlushAction | FinishAction
  datatype Status = RunOk | FlushOk | FinishOk | StreamEnd | SequenceError | ParamError

  /** What is in the output: the bytes of a stream that is still open, or of a finished one. */
  ghost predicate OpenStream(bits: seq<bool>, headerSent: bool, blockSize100k: nat, sent: seq<Sent>) {
    && 1 <= blockSize100k <= 9 && (forall k :: 0 <= k < |sent| ==> sent[k].body.Valid())
    && bits == (if headerSent then StreamSoFar(blockSize100k, sent) else [])
    && (!headerSent ==> sent == [])
  }

  ghost predicate ClosedStream(bits: seq<bool>, blockSize100k: nat, sum: Checksum, sent: seq<Sent>) {
    && 1 <= blockSize100k <= 9 && (forall k :: 0 <= k < |sent| ==> sent[k].body.Valid())
    && WholeStream(blockSize100k, sum, sent) <= bits && |bits| < |WholeStream(blockSize100k, sum, sent)| + 8
  }

  lemma HeaderOpens(blockSize100k: nat, bits: seq<bool>, sent: seq<Sent>)
    requires OpenStream(bits, false, blockSize100k, sent)
    ensures OpenStream(bits + BytesFrom(FileMagic(blockSize100k), 0), true, blockSize100k, sent)
  {
    hide BytesFrom;
    assert BytesFrom(FileMagic(blockSize100k), 0) + [] == BytesFrom(FileMagic(blockSize100k), 0) == [] + BytesFrom(FileMagic(blockSize100k), 0);
  }

  lemma BlockExtends(bits: seq<bool>, blockSize100k: nat, sent: seq<Sent>, s: Sent)
    requires OpenStream(bits, true, blockSize100k, sent) && s.body.Valid()
    ensures OpenStream(bits + s.Bits(), true, blockSize100k, sent + [s])
  {
    hide BytesFrom, Body.Valid, Body.Encoding, BlockHeaderBits, BlocksBits;
    BlocksBitsAppend(sent, s, 0);
    Associate(BytesFrom(FileMagic(blockSize100k), 0), BlocksBits(sent, 0), s.Bits());
  }

  /** Adding a block to those sent moves its bytes out of the block under construction. */
  lemma BlockMoves(sum: Checksum, nblockMAX: nat, sent: seq<Sent>, s: Sent, pending: seq<byte>)
    requires AllOk(sent, sum, nblockMAX) && s.Ok(sum, nblockMAX)
    ensures AllOk(sent + [s], sum, nblockMAX)
    ensures BytesOf(sent + [s], |sent| + 1) + pending == BytesOf(sent, |sent|) + (Flatten(s.runs) + pending)
    ensures Combined(sum, sent + [s], |sent| + 1) == sum.combine(Combined(sum, sent, |sent|), s.crc)
  {
    hide Sent.Ok, Flatten;
    PrefixFacts(sum, sent, s, |sent|);
    Associate(BytesOf(sent, |sent|), Flatten(s.runs), pending);
  }

  lemma PrefixAfter<T>(a: seq<T>, b: seq<T>, c: seq<T>)
    requires b <= c
    ensures a + b <= a + c
  {
  }

  lemma TrailerCloses(before: seq<bool>, trailer: seq<bool>, bits: seq<bool>, blockSize100k: nat, sum: Checksum, sent: seq<Sent>)
    requires OpenStream(before, true, blockSize100k, sent) && trailer == BytesFrom(EndMagic() + Combined(sum, sent, |sent|), 0)
    requires before + trailer <= bits && |bits| < |before + trailer| + 8
    ensures ClosedStream(bits, blockSize100k, sum, sent)
  {
    hide BytesFrom, Combined, StreamSoFar;
  }

  class Encoder {
    const blockSize100k: nat
    const nblockMAX: nat
    const sum: Checksum
    const choose: (seq<nat>, nat) -> Choice
    const buf: Buffer
    const w: BitWriter
    var nextIn: seq<byte>      // the avail_in bytes at next_in
    var availOut: nat
    var output: seq<byte>      // what has been stored through next_out
    var mode: Mode
    var outputting: bool       // state is BZ_S_OUTPUT
    var availInExpect: nat
    var combinedCRC: seq<byte>
    var blockNo: nat
    var stateOutPos: nat
    ghost var consumed: seq<byte>   // the input taken so far
    ghost var sent: seq<Sent>       // the blocks compressed so far
    ghost var archived: seq<byte>   // bytes of blocks that were delivered before
    ghost var closed: bool          // the trailer has been written

    ghost predicate Fixed() {
      && 1 <= blockSize100k <= 9 && nblockMAX == 100_000 * blockSize100k - 19 && buf.block.Length == 100_000 * blockSize100k && buf.sum == sum
      && sum.Good() && forall syms, n :: Usable(choose(syms, n), |syms|, n)
    }

    /** Blocks sent, block under construction and pending run are together the input consumed. */
    ghost predicate InputKept()
      reads this`consumed, this`sent, this`outputting, buf, buf.block, buf.inUse
    {
      && buf.Valid() && buf.nblock <= nblockMAX + 9
      && AllOk(sent, sum, 100_000 * blockSize100k)
      && consumed == BytesOf(sent, |sent|) + (if outputting then buf.PendingRun() else buf.Content())
      && (!outputting ==> buf.nblock <= nblockMAX + 4 && (buf.EmptyRL() ==> buf.runs == []))
    }

    ghost predicate OutputKept()
      reads this`closed, this`outputting, this`archived, this`sent, this`combinedCRC, this`blockNo, this`stateOutPos, this`output, w
    {
      && (closed ==> outputting)
      && (if closed then ClosedStream(BytesToBits(archived + w.zbits), blockSize100k, sum, sent)
          else w.Valid() && OpenStream(BytesToBits(archived) + w.Written(), blockNo > 1 || outputting, blockSize100k, sent))
      && combinedCRC == Combined(sum, sent, |sent|)
      && blockNo >= 1 && stateOutPos <= |w.zbits| && output == archived + w.zbits[..stateOutPos]
      && (!outputting ==> w.zbits == [])
    }

    ghost predicate Valid()
      reads this`consumed, this`closed, this`outputting, this`archived, this`sent, this`combinedCRC, this`blockNo, this`stateOutPos, this`output
      reads buf, buf.block, buf.inUse, w
    {
      Fixed() && InputKept() && OutputKept()
    }

    constructor (blockSize100k: nat, sum: Checksum, choose: (seq<nat>, nat) -> Choice)
      requires 1 <= blockSize100k <= 9 && sum.Good() && forall syms, n :: Usable(choose(syms, n), |syms|, n)
      ensures Resting() && mode == Running && consumed == [] && output == [] && sent == [] && !closed && nextIn == []
      ensures this.blockSize100k == blockSize100k && this.sum == sum && fresh(buf) && fresh(buf.block) && fresh(buf.inUse) && fresh(w)
    {
      hide Usable, Checksum.Good, Resting;
      this.blockSize100k, this.sum, this.choose := blockSize100k, sum, choose;
      nblockMAX := 100_000 * blockSize100k - 19;
      buf := new Buffer(blockSize100k, sum);
      w := new BitWriter();
      nextIn, availOut, output, mode, outputting, availInExpect := [], 0, [], Running, false, 0;
      combinedCRC, blockNo, stateOutPos := [0, 0, 0, 0], 1, 0;
      consumed, sent, archived, closed := [], [], [], false;
      new;
      NothingSent();
    }

    /** Before the first call. */
    lemma NothingSent()
      requires Fixed() && buf.Valid() && buf.runs == [] && buf.EmptyRL() && buf.nblock == 0 && buf.Content() == [] && w.Valid() && w.Written() == [] && w.zbits == []
      requires mode == Running && !outputting && !closed && consumed == [] && sent == [] && archived == [] && output == []
      requires combinedCRC == [0, 0, 0, 0] && blockNo == 1 && stateOutPos == 0
      ensures Resting()
    {
      hide Usable, BytesToBits, BytesFrom, Checksum.Good, BitWriter.Valid, BitWriter.Written, Buffer.Valid, Buffer.Content, Buffer.PendingRun;
      EmptyBits();
    }

    lemma EmptyBits()
      ensures BytesToBits([]) == []
    {
    }

    /** Takes input until the block is full, there is no more, or the end to flush or finish at is reached. */
    method CopyInputUntilStop() returns (progress: bool)
      requires Valid() && !outputting && (mode.Running? || availInExpect == |nextIn|)
      modifies this`nextIn, this`availInExpect, this`consumed, buf, buf.block, buf.inUse
      ensures Valid() && !outputting
      ensures consumed + nextIn == old(consumed + nextIn) && |nextIn| <= |old(nextIn)|
      ensures progress <==> |nextIn| < |old(nextIn)|
      ensures mode.Running? || availInExpect == |nextIn|
      ensures buf.nblock >= nblockMAX || nextIn == []
      ensures old(buf.nblock) < nblockMAX && buf.nblock >= nblockMAX ==> progress
      ensures !old(buf.EmptyRL()) || progress ==> !buf.EmptyRL()
    {
      hide Usable, OutputKept, Sent.Ok, Encodable, EncodeRuns, Flatten;
      progress := false;
      while true
        invariant Fixed() && InputKept() && OutputKept() && !outputting
        invariant consumed + nextIn == old(consumed + nextIn) && |nextIn| <= |old(nextIn)|
        invariant progress <==> |nextIn| < |old(nextIn)|
        invariant mode.Running? || availInExpect == |nextIn|
        invariant !progress ==> buf.nblock == old(buf.nblock)
        invariant !old(buf.EmptyRL()) || progress ==> !buf.EmptyRL()
        decreases |nextIn|
      {
        if buf.nblock >= nblockMAX { break; }
        if nextIn == [] { break; }
        if !mode.Running? && availInExpect == 0 { break; }
        progress := true;
        TakeByte();
      }
    }

    method TakeByte()
      requires Fixed() && InputKept() && OutputKept() && !outputting && nextIn != [] && buf.nblock < nblockMAX
      requires mode.Running? || availInExpect == |nextIn|
      modifies this`nextIn, this`availInExpect, this`consumed, buf, buf.block, buf.inUse
      ensures InputKept() && OutputKept() && !buf.EmptyRL()
      ensures consumed + nextIn == old(consumed + nextIn) && |nextIn| == |old(nextIn)| - 1
      ensures mode.Running? || availInExpect == |nextIn|
    {
      hide Usable, AllOk, OutputKept, Buffer.Stored, Buffer.Content, BytesOf;
      var c := nextIn[0];
      assert consumed + nextIn == (consumed + [c]) + nextIn[1..];
      Associate(BytesOf(sent, |sent|), buf.Content(), [c]);
      buf.AddCharToBlock(c);
      nextIn := nextIn[1..];
      consumed := consumed + [c];
      if !mode.Running? { availInExpect := availInExpect - 1; }
    }

    /** Delivers bytes until the output space or the stored bytes run out. */
    method CopyOutputUntilStop() returns (progress: bool)
      requires Valid()
      modifies this`availOut, this`output, this`stateOutPos
      ensures old(stateOutPos) <= stateOutPos <= |w.zbits| && output == old(output) + w.zbits[old(stateOutPos)..stateOutPos]
      ensures Valid() && old(output) <= output && |output| - |old(output)| == old(availOut) - availOut
      ensures availOut == 0 || stateOutPos == |w.zbits|
      ensures old(availOut) - availOut == stateOutPos - old(stateOutPos) >= 0
      ensures progress <==> stateOutPos > old(stateOutPos)
    {
      hide Usable, InputKept, ClosedStream, OpenStream, BytesToBits, Combined, BitWriter.Valid;
      progress := false;
      while true
        invariant OutputKept() && old(stateOutPos) <= stateOutPos <= |w.zbits| && output == old(output) + w.zbits[old(stateOutPos)..stateOutPos]
        invariant old(availOut) - availOut == stateOutPos - old(stateOutPos)
        invariant progress <==> stateOutPos > old(stateOutPos)
        decreases availOut
      {
        if availOut == 0 { break; }
        if stateOutPos >= |w.zbits| { break; }
        progress := true;
        output := output + [w.zbits[stateOutPos]];
        stateOutPos := stateOutPos + 1;
        availOut := availOut - 1;
      }
    }

    /** Everything that has been put into the bit stream. */
    ghost function AllBits(): seq<bool>
      reads this`archived, w
    {
      BytesToBits(archived) + w.Written()
    }

    method SendFileHeader()
      requires Fixed() && w.Valid() && blockNo >= 1 && OpenStream(AllBits(), blockNo > 1, blockSize100k, sent)
      modifies w
      ensures w.Valid() && OpenStream(AllBits(), true, blockSize100k, sent) && |w.Written()| <= |old(w.Written())| + 32
    {
      hide Usable, BytesToBits, BytesFrom, OpenStream, BitWriter.Valid, BitWriter.Written, Checksum.Good;
      if blockNo == 1 {
        ghost var bits, written := AllBits(), w.Written();
        HeaderOpens(blockSize100k, bits, sent);
        SendBytes(w, FileMagic(blockSize100k));
        BytesSize(FileMagic(blockSize100k), 0);
        Associate(BytesToBits(archived), written, BytesFrom(FileMagic(blockSize100k), 0));
      }
    }

    /** The block under construction, if it is not empty, becomes the next of those sent. */
    method SendContents()
      requires Fixed() && buf.Valid() && buf.nblock <= nblockMAX + 9 && AllOk(sent, sum, 100_000 * blockSize100k)
      requires w.Valid() && OpenStream(AllBits(), true, blockSize100k, sent)
      requires consumed == BytesOf(sent, |sent|) + buf.Content() && combinedCRC == Combined(sum, sent, |sent|)
      modifies w, this`sent, this`combinedCRC
      ensures w.Valid() && OpenStream(AllBits(), true, blockSize100k, sent)
      ensures AllOk(sent, sum, 100_000 * blockSize100k)
      ensures consumed == BytesOf(sent, |sent|) + buf.PendingRun() && combinedCRC == Combined(sum, sent, |sent|)
      ensures |w.Written()| <= |old(w.Written())| + BLOCK_MOST + 20 * buf.nblock
    {
      hide Usable, BytesToBits, OpenStream, BitWriter.Valid, BitWriter.Written, Combined, BytesOf, AllOk, Sent.Ok, Sent.Bits, Body.Valid, Flatten, Encodable, EncodeRuns;
      if buf.nblock > 0 {
        ghost var bits, written := AllBits(), w.Written();
        var crc := sum.finish(buf.blockCRC);
        ghost var s := SendBuffer(crc);
        OkIsValid(s);
        combinedCRC := sum.combine(combinedCRC, crc);
        BlockMoves(sum, 100_000 * blockSize100k, sent, s, buf.PendingRun());
        BlockExtends(bits, blockSize100k, sent, s);
        Associate(BytesToBits(archived), written, s.Bits());
        sent := sent + [s];
      } else {
        NoRuns(buf.runs);
        assert [] + buf.PendingRun() == buf.PendingRun();
      }
    }

    method SendBuffer(crc: seq<byte>) returns (ghost s: Sent)
      requires Fixed() && buf.Valid() && 0 < buf.nblock <= nblockMAX + 9 && w.Valid() && crc == sum.OfBytes(Flatten(buf.runs))
      modifies w
      ensures w.Valid() && s.Ok(sum, 100_000 * blockSize100k) && s.runs == buf.runs && s.crc == crc && |s.Bits()| <= BLOCK_MOST + 20 * buf.nblock
      ensures w.Written() == old(w.Written()) + s.Bits()
    {
      hide Usable, BytesToBits, BitWriter.Valid, BitWriter.Written, Body.Valid, Body.Encoding, Carries, Unsorted, EncodeRuns, Flatten, Encodable, BlockHeaderBits;
      s := SortAndSend(w, buf.block[..buf.nblock], buf.inUse, crc, choose, buf.runs);
      SentSize(s.crc, s.origPtr, s.body, s.column);
    }

    lemma OkIsValid(s: Sent)
      requires s.Ok(sum, 100_000 * blockSize100k)
      ensures s.body.Valid()
    {
    }

    lemma NoRuns(runs: seq<Run>)
      requires Encodable(runs) && EncodeRuns(runs) == []
      ensures runs == [] && Flatten(runs) == []
    {
      if runs != [] { EncodeRunsStart(runs); }
    }

    method SendTrailer()
      requires Fixed() && w.Valid() && OpenStream(AllBits(), true, blockSize100k, sent) && combinedCRC == Combined(sum, sent, |sent|)
      modifies w
      ensures ClosedStream(BytesToBits(archived + w.zbits), blockSize100k, sum, sent) && w.zbits != []
      ensures 8 * |w.zbits| < |old(w.Written())| + 88
    {
      hide Usable, BytesToBits, BytesFrom, OpenStream, ClosedStream, BitWriter.Valid, BitWriter.Written, Checksum.Good;
      ghost var before, written, trailer := AllBits(), w.Written(), BytesFrom(EndMagic() + combinedCRC, 0);
      SendBytes(w, EndMagic() + combinedCRC);
      Associate(BytesToBits(archived), written, trailer);
      TrailerNotEmpty(combinedCRC);
      CombinedFour(sum, sent, |sent|);
      BytesSize(EndMagic() + combinedCRC, 0);
      w.BsFinishWrite();
      BytesToBitsConcat(archived, w.zbits);
      PrefixAfter(BytesToBits(archived), written + trailer, BytesToBits(w.zbits));
      BitsOfBytes(w.zbits);
      TrailerCloses(before, trailer, BytesToBits(archived + w.zbits), blockSize100k, sum, sent);
    }

    lemma {:induction false} CombinedFour(sum: Checksum, sent: seq<Sent>, n: nat)
      requires sum.Good() && n <= |sent|
      ensures |Combined(sum, sent, n)| == 4
    {
    }

    lemma TrailerNotEmpty(crc: seq<byte>)
      ensures |BytesFrom(EndMagic() + crc, 0)| > 0 && BytesToBits([]) == []
    {
      assert BytesFrom(EndMagic() + crc, 0) == ToBits((EndMagic() + crc)[0], 8) + BytesFrom(EndMagic() + crc, 1);
    }

    /** The bytes stored fit behind the block, in the memory of four bytes for each row and a little more. */
    ghost predicate Fitting()
      reads buf, w
    {
      buf.nblock + |w.zbits| <= 4 * (100_000 * blockSize100k + 34)
    }

    lemma FewHeld(w: BitWriter)
      requires w.Valid()
      ensures 8 * |w.zbits| <= |w.Written()| <= 8 * |w.zbits| + 32
    {
    }

    lemma BitsOfBytes(s: seq<byte>)
      ensures |BytesToBits(s)| == 8 * |s|
    {
    }

    lemma StoredFits(size: nat, isLast: bool)
      requires Fixed() && buf.nblock <= nblockMAX + 9 && size <= 32
      requires 8 * |w.zbits| <= size + 32 + BLOCK_MOST + 20 * buf.nblock + 88
      ensures Fitting()
    {
    }

    /** BZ2_compressBlock, after which the state is BZ_S_OUTPUT. */
    method CompressBlock(isLast: bool)
      requires Fixed() && buf.Valid() && buf.nblock <= nblockMAX + 9 && AllOk(sent, sum, 100_000 * blockSize100k)
      requires consumed == BytesOf(sent, |sent|) + buf.Content() && !outputting && OutputKept()
      modifies this`outputting, this`sent, this`combinedCRC, this`closed, w
      ensures Valid() && outputting && closed == isLast && (isLast ==> stateOutPos < |w.zbits|) && Fitting()
    {
      hide Usable, BytesToBits, OpenStream, ClosedStream, BitWriter.Valid, BitWriter.Written, Combined, BytesOf, AllOk, Sent.Ok, Fitting;
      SendAll(isLast);
      outputting, closed := true, isLast;
    }

    /** The stream header before the first block, the block if there is one, and the trailer after the last. */
    method SendAll(isLast: bool)
      requires Fixed() && buf.Valid() && buf.nblock <= nblockMAX + 9 && AllOk(sent, sum, 100_000 * blockSize100k)
      requires consumed == BytesOf(sent, |sent|) + buf.Content() && !outputting && OutputKept()
      modifies this`sent, this`combinedCRC, w
      ensures if isLast then ClosedStream(BytesToBits(archived + w.zbits), blockSize100k, sum, sent) && w.zbits != []
              else w.Valid() && OpenStream(AllBits(), true, blockSize100k, sent)
      ensures AllOk(sent, sum, 100_000 * blockSize100k) && Fitting()
      ensures consumed == BytesOf(sent, |sent|) + buf.PendingRun() && combinedCRC == Combined(sum, sent, |sent|)
    {
      hide Usable, BytesToBits, OpenStream, ClosedStream, BitWriter.Valid, BitWriter.Written, Combined, BytesOf, AllOk, Sent.Ok, Fitting;
      ghost var size := |w.Written()|;
      FewHeld(w);
      SendFileHeader();
      SendContents();
      if isLast { SendTrailer(); } else { FewHeld(w); }
      StoredFits(size, isLast);
    }

    /** Starts the output buffer again once all of it has been delivered. */
    method DropDelivered()
      requires OutputKept() && !closed && outputting && stateOutPos == |w.zbits|
      modifies this`archived, this`stateOutPos, w
      ensures OutputKept() && w.zbits == [] && stateOutPos == 0
    {
      hide BytesToBits, OpenStream, BitWriter.Written, Combined, BitWriter.Valid;
      BytesToBitsConcat(archived, w.zbits);
      ghost var stored := w.zbits;
      archived := archived + w.zbits;
      w.Restart();
      Associate(BytesToBits(old(archived)), BytesToBits(stored), w.Written());
      stateOutPos := 0;
    }

    method PrepareNewBlock()
      requires Valid() && outputting && !closed && stateOutPos == |w.zbits|
      modifies this`outputting, this`archived, this`stateOutPos, this`blockNo, buf, buf.inUse, w
      ensures Valid() && !outputting && w.zbits == [] && stateOutPos == 0 && buf.nblock == 0 < nblockMAX && buf.EmptyRL() == old(buf.EmptyRL())
    {
      hide Usable, AllOk, BytesToBits, OpenStream, BitWriter.Written, BitWriter.Valid, Combined, BytesOf, Flatten, EncodeRuns, Encodable, Buffer.Stored, Buffer.PendingRun, Buffer.Content;
      DropDelivered();
      buf.PrepareNewBlock();
      blockNo, outputting := blockNo + 1, false;
    }

    /** What holds in the middle of a call. */
    ghost predicate Steady()
      reads this, buf, buf.block, buf.inUse, w
    {
      && Valid()
      && (!outputting ==> buf.nblock < nblockMAX && stateOutPos == |w.zbits|)
      && (closed ==> outputting && (mode.Finishing? || mode.Idle?) && buf.EmptyRL() && availInExpect == 0)
      && (outputting && !closed && buf.EmptyRL() ==> mode.Flushing?)
    }

    /** What holds between the calls of the application: a stream that is being finished has something left to deliver. */
    ghost predicate Resting()
      reads this, buf, buf.block, buf.inUse, w
    {
      Steady() && (closed && mode.Finishing? ==> stateOutPos < |w.zbits|)
    }

    /** Ends the pending run and sends the block. */
    method FlushBlock()
      requires Valid() && !outputting
      modifies this`outputting, this`sent, this`combinedCRC, this`closed, buf, buf.block, buf.inUse, w
      ensures Valid() && outputting && closed == mode.Finishing? && buf.EmptyRL() && (closed ==> stateOutPos < |w.zbits|)
    {
      hide Usable, AllOk, BytesToBits, OpenStream, ClosedStream, BitWriter.Valid, BitWriter.Written, Combined, BytesOf, Flatten, EncodeRuns, Encodable, Buffer.Stored, Buffer.Content;
      buf.FlushRL();
      CompressBlock(mode.Finishing?);
    }

    method SendFullBlock()
      requires Valid() && !outputting
      modifies this`outputting, this`sent, this`combinedCRC, this`closed, w
      ensures Valid() && outputting && !closed
    {
      hide Usable, AllOk, BytesToBits, OpenStream, ClosedStream, BitWriter.Valid, BitWriter.Written, Combined, BytesOf, Buffer.Stored, Buffer.Content;
      CompressBlock(false);
    }

    /** Input kept, or moved to what has been consumed; output only grows. */
    twostate predicate Steps()
      reads this
    {
      && consumed + nextIn == old(consumed + nextIn) && |nextIn| <= |old(nextIn)|
      && old(output) <= output && |output| - |old(output)| == old(availOut) - availOut
    }

    /** While finishing: less input to take, or the trailer written, or as much less to deliver as there is more output. */
    twostate predicate Nearer()
      reads this, w
    {
      || |nextIn| < |old(nextIn)|
      || (closed && !old(closed))
      || (closed == old(closed) && |w.zbits| - stateOutPos + |output| <= old(|w.zbits| - stateOutPos + |output|))
    }

    /** Why a call cannot go on: no output space, or nothing left to take and to deliver. */
    ghost predicate Stopped()
      reads this, buf, w
    {
      && (availOut == 0 || (stateOutPos == |w.zbits| && nextIn == []))
      && (outputting ==> stateOutPos < |w.zbits| || closed)
      && (!mode.Running? && availOut > 0 ==> buf.EmptyRL())
      && (mode.Finishing? && nextIn == [] && buf.EmptyRL() && stateOutPos >= |w.zbits| ==> closed)
    }

    /** The part of the loop for the state BZ_S_OUTPUT. */
    method DeliverPart() returns (progress: bool, stop: bool)
      requires Steady() && outputting && !mode.Idle? && (mode.Running? || availInExpect == |nextIn|)
      modifies this`availOut, this`output, this`outputting, this`archived, this`stateOutPos, this`blockNo, buf, buf.inUse, w
      ensures Steady() && Steps() && (mode.Finishing? ==> Nearer())
      ensures progress <==> |output| > |old(output)|
      ensures stop ==> Stopped()
      ensures !progress && mode.Finishing? && closed ==> old(stateOutPos >= |w.zbits| || availOut == 0) && |w.zbits| - stateOutPos == old(|w.zbits| - stateOutPos)
      ensures mode.Finishing? && stop && !progress ==> old(availOut) == 0 || closed
      ensures buf.EmptyRL() == old(buf.EmptyRL())
      ensures !stop ==> !outputting && (mode.Running? || availInExpect > 0 || !buf.EmptyRL())
    {
      hide Valid, Fixed, InputKept, OutputKept;
      stop := true;
      progress := CopyOutputUntilStop();
      if stateOutPos < |w.zbits| { return; }
      if mode.Finishing? && availInExpect == 0 && buf.EmptyRL() { return; }
      PrepareNewBlock();
      stop := mode.Flushing? && availInExpect == 0 && buf.EmptyRL();
    }

    /** The part of the loop for the state BZ_S_INPUT. */
    method TakePart() returns (progress: bool, stop: bool)
      requires Steady() && !outputting && !mode.Idle? && (mode.Running? || availInExpect == |nextIn|)
      modifies this`nextIn, this`availInExpect, this`consumed, this`outputting, this`sent, this`combinedCRC, this`closed, buf, buf.block, buf.inUse, w
      ensures Steady() && Steps() && (mode.Finishing? ==> Nearer()) && (mode.Running? || availInExpect == |nextIn|)
      ensures progress <==> |nextIn| < |old(nextIn)|
      ensures stop ==> Stopped() && mode.Running?
      ensures !stop ==> outputting && (!progress ==> !mode.Running? && availInExpect == 0 && buf.EmptyRL())
      ensures closed ==> stateOutPos < |w.zbits|
    {
      hide Valid, Fixed, InputKept, OutputKept;
      stop := false;
      progress := CopyInputUntilStop();
      if !mode.Running? && availInExpect == 0 {
        FlushBlock();
      } else if buf.nblock >= nblockMAX {
        SendFullBlock();
      } else if nextIn == [] {
        stop := true;
      }
    }

    method HandleCompress() returns (progress: bool)
      requires Resting() && !mode.Idle? && (mode.Running? || availInExpect == |nextIn|)
      modifies this`nextIn, this`availInExpect, this`consumed, this`availOut, this`output, this`outputting, this`sent, this`combinedCRC
      modifies this`closed, this`archived, this`stateOutPos, this`blockNo, buf, buf.block, buf.inUse, w
      ensures Steady() && Steps() && (mode.Finishing? ==> Nearer()) && (mode.Running? || availInExpect == |nextIn|)
      ensures progress <==> |nextIn| < |old(nextIn)| || |output| > |old(output)|
      ensures Stopped()
      ensures mode.Finishing? && !progress ==> old(availOut) == 0 && (closed ==> stateOutPos < |w.zbits|)
    {
      hide Valid, Steady;
      progress := false;
      var stop := false;
      while !stop
        invariant Steady() && Steps() && (mode.Finishing? ==> Nearer()) && (mode.Running? || availInExpect == |nextIn|)
        invariant mode.Finishing? && !progress && closed ==> stateOutPos < |w.zbits|
        invariant progress <==> |nextIn| < |old(nextIn)| || |output| > |old(output)|
        invariant stop ==> Stopped() && (mode.Finishing? && !progress ==> old(availOut) == 0)
        decreases !stop, |nextIn|, !Draining()
      {
        var p;
        p, stop := Round();
        progress := progress || p;
      }
    }

    /** Stored bytes are delivered, and nothing is left to be stored before a flush or finish is done. */
    ghost predicate Draining()
      reads this`outputting, this`mode, this`availInExpect, buf
    {
      outputting && !mode.Running? && availInExpect == 0 && buf.EmptyRL()
    }

    /** Once round the loop: delivers in the state BZ_S_OUTPUT, and takes input when all is delivered. */
    method Round() returns (progress: bool, stop: bool)
      requires Steady() && !mode.Idle? && (mode.Running? || availInExpect == |nextIn|)
      modifies this`nextIn, this`availInExpect, this`consumed, this`availOut, this`output, this`outputting, this`sent, this`combinedCRC
      modifies this`closed, this`archived, this`stateOutPos, this`blockNo, buf, buf.block, buf.inUse, w
      ensures Steady() && Steps() && (mode.Finishing? ==> Nearer()) && (mode.Running? || availInExpect == |nextIn|)
      ensures progress <==> |nextIn| < |old(nextIn)| || |output| > |old(output)|
      ensures stop ==> Stopped()
      ensures mode.Finishing? && old(closed ==> stateOutPos < |w.zbits|) && !progress ==> (closed ==> stateOutPos < |w.zbits|) && (stop ==> old(availOut) == 0)
      ensures !stop && |nextIn| == |old(nextIn)| ==> Draining() && !old(Draining())
    {
      hide Valid, Steady;
      progress, stop := false, false;
      if outputting { progress, stop := DeliverPart(); }
      if !stop {
        var p;
        p, stop := TakePart();
        progress := progress || p;
      }
    }

    lemma AllFlushed()
      requires Valid() && !outputting && buf.EmptyRL()
      ensures consumed == BytesOf(sent, |sent|)
    {
      hide Usable, AllOk, OutputKept;
      assert buf.Content() == [];
      assert BytesOf(sent, |sent|) + [] == BytesOf(sent, |sent|);
    }

    lemma AllFinished()
      requires Valid() && closed && buf.EmptyRL() && stateOutPos >= |w.zbits|
      ensures consumed == BytesOf(sent, |sent|) && ClosedStream(BytesToBits(output), blockSize100k, sum, sent)
    {
      hide Usable, AllOk, ClosedStream, BytesToBits;
      assert buf.PendingRun() == [];
      assert BytesOf(sent, |sent|) + [] == BytesOf(sent, |sent|);
      assert w.zbits[..|w.zbits|] == w.zbits;
    }

    /** The application supplies further input, and output space. */
    method Supply(bytes: seq<byte>, room: nat)
      requires Resting()
      modifies this`nextIn, this`availOut
      ensures Resting() && nextIn == old(nextIn) + bytes && availOut == room
    {
      hide Valid;
      nextIn, availOut := nextIn + bytes, room;
    }

    /** A flush or a finish that has been begun has to be gone on with, and without new input. */
    predicate InSequence(action: Action)
      reads this`mode, this`availInExpect, this`nextIn
    {
      match mode
      case Idle => false
      case Running => true
      case Flushing => action == FlushAction && availInExpect == |nextIn|
      case Finishing => action == FinishAction && availInExpect == |nextIn|
    }

    /** No input taken and no output made, compared with these sizes. */
    predicate Unmoved(inputSize: nat, outputSize: nat)
      reads this`nextIn, this`output
    {
      |nextIn| == inputSize && |output| == outputSize
    }

    /** One call of the application, with the input and output space that Supply left. */
    method BzCompress(action: Action) returns (status: Status)
      requires Resting()
      modifies this, buf, buf.block, buf.inUse, w
      ensures Resting() && Steps()
      ensures status == StreamEnd ==> nextIn == [] && consumed == BytesOf(sent, |sent|) && ClosedStream(BytesToBits(output), blockSize100k, sum, sent)
      ensures status == RunOk && action == FlushAction ==> nextIn == [] && consumed == BytesOf(sent, |sent|) && mode == Running
      ensures availOut == 0 || nextIn == [] || status == SequenceError
      ensures status == FlushOk || status == FinishOk ==> availOut == 0
      ensures !old(InSequence(action)) ==> status == SequenceError && Unmoved(old(|nextIn|), old(|output|)) && mode == old(mode)
      ensures old(InSequence(action)) ==>
                match action
                case RunAction => status == (if Unmoved(old(|nextIn|), old(|output|)) then ParamError else RunOk) && mode == Running
                case FlushAction => (status == RunOk && mode == Running) || (status == FlushOk && mode == Flushing)
                case FinishAction => if Unmoved(old(|nextIn|), old(|output|)) then status == SequenceError && mode == Finishing && old(availOut) == 0
                                     else (status == StreamEnd && mode == Idle) || (status == FinishOk && mode == Finishing)
      ensures old(InSequence(action)) && mode == Finishing ==> availInExpect == |nextIn| && Nearer()
    {
      hide Valid, Fixed, InputKept, OutputKept;
      if mode == Idle { return SequenceError; }
      if mode == Running {
        if action == RunAction {
          var progress := HandleCompress();
          return if progress then RunOk else ParamError;
        }
        availInExpect := |nextIn|;
        mode := if action == FlushAction then Flushing else Finishing;
      }
      if mode == Flushing {
        if action != FlushAction || availInExpect != |nextIn| { return SequenceError; }
        status := GoOnFlushing();
      } else {
        if action != FinishAction || availInExpect != |nextIn| { return SequenceError; }
        status := GoOnFinishing();
      }
    }

    method GoOnFlushing() returns (status: Status)
      requires Resting() && mode == Flushing && availInExpect == |nextIn|
      modifies this, buf, buf.block, buf.inUse, w
      ensures Resting() && Steps() && (status == FlushOk || status == RunOk) && (status == FlushOk ==> availOut == 0)
      ensures status == RunOk ==> nextIn == [] && consumed == BytesOf(sent, |sent|) && mode == Running
      ensures status == FlushOk ==> mode == Flushing
      ensures availOut == 0 || nextIn == []
    {
      hide Valid, Fixed, InputKept, OutputKept, BytesOf;
      var progress := HandleCompress();
      if availInExpect > 0 || !buf.EmptyRL() || stateOutPos < |w.zbits| { return FlushOk; }
      AllFlushed();
      mode := Running;
      return RunOk;
    }

    method GoOnFinishing() returns (status: Status)
      requires Resting() && mode == Finishing && availInExpect == |nextIn|
      modifies this, buf, buf.block, buf.inUse, w
      ensures Resting() && Steps() && (status == FinishOk || status == StreamEnd || status == SequenceError) && (status == FinishOk ==> availOut == 0)
      ensures status == StreamEnd ==> nextIn == [] && consumed == BytesOf(sent, |sent|) && ClosedStream(BytesToBits(output), blockSize100k, sum, sent)
      ensures status == SequenceError <==> Unmoved(old(|nextIn|), old(|output|))
      ensures (status == SequenceError ==> old(availOut) == 0) && availInExpect == |nextIn| && Nearer()
      ensures mode == if status == StreamEnd then Idle else Finishing
      ensures availOut == 0 || nextIn == []
    {
      hide Valid, Fixed, InputKept, OutputKept, ClosedStream, BytesToBits, BytesOf;
      var progress := HandleCompress();
      if !progress { return SequenceError; }
      if availInExpect > 0 || !buf.EmptyRL() || stateOutPos < |w.zbits| { return FinishOk; }
      AllFinished();
      mode := Idle;
      return StreamEnd;
    }
  }
}
