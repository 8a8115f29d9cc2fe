/** The decompressor as the application calls it, with input and output space in pieces. */
module StreamDecoder {
  import opened Words
  import opened Checksums
  import opened Bits
  import opened RunCoding
  import opened BurrowsWheeler
  import opened BitStream
  import opened StreamSteps
  import opened BlockReceiver

  /** What a call returns; randomised blocks are not part of this model, and nothing is defined once a store has missed its array. */
  datatype Code = BzOk | BzStreamEnd | BzDataError | BzDataErrorMagic | BzSequenceError | NotModelled | Undefined

  function CodeOf(status: Status): Code {
    match status
    case NeedMore => BzOk
    case StreamEnd => BzStreamEnd
    case DataError => BzDataError
    case DataErrorMagic => BzDataErrorMagic
    case Randomised => NotModelled
    case Overrun => Undefined
  }

  class Decompressor {
    const s: Receiver
    const sum: Checksum
    var calculatedCombinedCRC: seq<byte>
    var output: seq<byte>      // what has been stored through next_out
    var availOut: nat

    constructor (sum: Checksum, ghost later: seq<bool>)
      ensures fresh(Repr()) && this.sum == sum && output == [] && s.state.XMagic? && Rests(later, DecodeStream(sum, later))
    {
      hide Receiver.Rests, MtfDecode.MtfDecoder.Repr, DecodeStream;
      this.sum := sum;
      s := new Receiver(sum, later);
      calculatedCombinedCRC, output, availOut := [0, 0, 0, 0], [], 0;
    }

    ghost function Repr(): set<object>
      reads s`mtf, s`d
    {
      {this} + s.Repr()
    }

    /** What has been put out is what the blocks so far, and the part put out of the block at hand, stand for. */
    ghost predicate Delivered()
      reads `output, s`st, s`state, s`d, if s.d == null then {} else {s.d}
    {
      output == s.st.output + if s.state == XOutput && s.d != null then s.d.output else []
    }

    /** Between two calls: decoding what is still to come, after `output`, gives o. */
    ghost predicate Rests(later: seq<bool>, o: Result)
      reads Repr(), if s.mtf == null then {} else {s.mtf.seqToUnseq}, if s.d == null then {} else {s.d.tt}
    {
      s.Rests(later, o) && s.sum == sum && this !in s.Repr() && Delivered() && calculatedCombinedCRC == s.st.combined
    }

    /** The application supplies further input, and output space. */
    method Supply(bytes: seq<byte>, room: nat, ghost later: seq<bool>, ghost o: Result)
      requires Rests(BytesToBits(bytes) + later, o)
      modifies s.r, `availOut
      ensures Rests(later, o) && availOut == room && s.state == old(s.state)
    {
      hide Receiver.Rests, MtfDecode.MtfDecoder.Repr, BytesToBits;
      s.Supply(bytes, later, o);
      availOut := room;
    }

    /** Writes block output behind what has been put out. */
    method Write() returns (corrupt: bool)
      requires s.d != null && s.d.Valid()
      modifies s.d, `output, `availOut
      ensures old(s.d.output) <= s.d.output && output == old(output) + s.d.output[|old(s.d.output)|..] && |output| + availOut == old(|output| + availOut)
      ensures corrupt ==> old(s.d.AllOutput()) == Expansion(s.d.output, false)
      ensures !corrupt ==> s.d.Valid() && s.d.AllOutput() == old(s.d.AllOutput()) && (availOut > 0 ==> s.d.Finished())
    {
      hide FastInverse.Decoder.Valid, FastInverse.Decoder.AllOutput;
      var before := |s.d.output|;
      s.d.Provide(availOut);
      corrupt := s.d.UnRleObufToOutput();
      availOut := s.d.availOut;
      output := output + s.d.output[before..];
    }

    /** Puts out as much of the block at hand as there is room for. */
    method PutOut(ghost later: seq<bool>, ghost o: Result) returns (corrupt: bool)
      requires Rests(later, o) && s.state == XOutput && s.d != null
      modifies s.d, `output, `availOut
      ensures output <= o.output && |output| + availOut == old(|output| + availOut)
      ensures corrupt ==> o.status == DataError && output == o.output
      ensures !corrupt ==> Rests(later, o)
      ensures !corrupt && availOut > 0 ==> s.d.Finished()
    {
      hide Receiver.Rests, MtfDecode.MtfDecoder.Repr, FastInverse.Decoder.Valid, FastInverse.Decoder.AllOutput, BlockBytes, Proceed, BitReader.Valid, Sound;
      s.BlockInHand(later, o);
      BlockCounts(sum, s.st, s.r.Unread() + later);
      corrupt := Write();
      if !corrupt {
        FastInverse.PrefixOfAll(s.d);
        s.OutputRests(later, o);
      }
    }

    /** The block has been put out: compares its checksum, and goes on to the next. */
    method FinishBlock(ghost later: seq<bool>, ghost o: Result) returns (good: bool)
      requires Rests(later, o) && s.state == XOutput && s.d != null && s.d.Finished()
      modifies s`state, s`st, `calculatedCombinedCRC
      ensures !good ==> o.status == DataError && output == o.output
      ensures good ==> Rests(later, o) && s.state == XBlkHdr(0) && |s.st.output| > |old(s.st.output)|
    {
      hide Receiver.Rests, MtfDecode.MtfDecoder.Repr, FastInverse.Decoder.Valid, FastInverse.Decoder.AllOutput, BlockBytes, Proceed, BitReader.Valid, Sound;
      s.BlockInHand(later, o);
      BlockCounts(sum, s.st, s.r.Unread() + later);
      FastInverse.AllPutOut(s.d);
      SomeBytes(s.st.stage.column, s.origPtr);
      good := sum.finish(s.d.calculatedBlockCRC) == s.storedBlockCRC;
      if good {
        calculatedCombinedCRC := sum.combine(calculatedCombinedCRC, s.storedBlockCRC);
        s.NextBlock(later, o);
      }
    }

    /** How a call ends that has not gone wrong so far. */
    ghost predicate Answers(code: Code, later: seq<bool>, o: Result)
      reads Repr(), if s.mtf == null then {} else {s.mtf.seqToUnseq}, if s.d == null then {} else {s.d.tt}
    {
      && output <= o.output && code != BzSequenceError
      && (code == BzOk ==> Rests(later, o) && s.state != XIdle && (availOut == 0 || s.Waits()))
      && (code != BzOk ==> code == CodeOf(o.status) && output == o.output)
      && (code == BzStreamEnd ==> s.state == XIdle && o.rest == s.r.Unread() + later)
    }

    /** The part of the loop that puts out a block. */
    method Deliver(ghost later: seq<bool>, ghost o: Result) returns (done: bool, code: Code)
      requires Rests(later, o) && s.state == XOutput && s.d != null
      modifies s.d, s`state, s`st, `calculatedCombinedCRC, `output, `availOut
      ensures |output| + availOut == old(|output| + availOut) && (done ==> Answers(code, later, o))
      ensures !done ==> Rests(later, o) && s.state == XBlkHdr(0) && |old(s.st.output)| < |s.st.output| <= |o.output|
    {
      hide Receiver.Rests, Receiver.Waits, Rests, MtfDecode.MtfDecoder.Repr, FastInverse.Decoder.Finished, BitReader.Unread;
      done, code := true, BzDataError;
      var corrupt := PutOut(later, o);
      if corrupt { return; }
      var finished := s.d.Finished();
      if !finished { return true, BzOk; }
      var good := FinishBlock(later, o);
      if !good { return; }
      Bounds(later, o);
      done := false;
    }

    /** The part of the loop that reads up to the next block. */
    method Receive(ghost later: seq<bool>, ghost o: Result) returns (done: bool, code: Code)
      requires Rests(later, o) && s.state != XOutput && s.state != XIdle
      modifies s, s.r, s.inUse16, s.inUse, s.seqToUnseq, s.selectorMtf, s.selector, s.LoopRepr()
      ensures fresh(Repr() - old(Repr())) && s.st.output == old(s.st.output) && output == old(output) && availOut == old(availOut)
      ensures done ==> Answers(code, later, o)
      ensures !done ==> Rests(later, o) && s.state == XOutput && s.d != null
    {
      hide Receiver.Rests, Receiver.Waits, MtfDecode.MtfDecoder.Repr;
      s.OutputSoFar(later, o);
      done, code := true, BzOk;
      var p := s.Decompress(later, o);
      if p == Trailer {
        code := if s.storedCombinedCRC != calculatedCombinedCRC then BzDataError else BzStreamEnd;
      } else if p.Ended? {
        code := CodeOf(p.status);
      } else if p == GoOn {
        done := false;
      } else {
        s.WaitingPlaces(later, o);
      }
    }

    lemma Bounds(later: seq<bool>, o: Result)
      requires Rests(later, o)
      ensures s.Rests(later, o) && s.st.output <= o.output && (s.state == XOutput ==> s.d != null)
    {
      hide Receiver.Rests, MtfDecode.MtfDecoder.Repr, BlockBytes, FastInverse.Decoder.Valid;
      s.OutputSoFar(later, o);
      if s.state == XOutput { s.BlockInHand(later, o); }
    }

    /** Once round the loop of a call. */
    method Round(ghost later: seq<bool>, ghost o: Result) returns (done: bool, code: Code)
      requires Rests(later, o) && s.state != XIdle
      modifies Repr()
      ensures fresh(Repr() - old(Repr())) && |output| + availOut == old(|output| + availOut)
      ensures done ==> Answers(code, later, o)
      ensures !done ==> Rests(later, o) && s.state == XOutput && |s.st.output| <= |o.output|
      ensures !done && old(s.state) == XOutput ==> |old(s.st.output)| < |s.st.output|
      ensures !done ==> |old(s.st.output)| <= |s.st.output|
    {
      hide Receiver.Rests, Rests, Answers, MtfDecode.MtfDecoder.Repr, FastInverse.Decoder.Finished, BitReader.Unread;
      Bounds(later, o);
      done, code := false, BzOk;
      if s.state == XOutput {
        done, code := Deliver(later, o);
        assert Repr() == old(Repr());
      }
      if !done {
        Bounds(later, o);
        ghost var before := Repr();
        done, code := Receive(later, o);
        ghost var now := Repr();
        assert forall x: object? :: x in now && x !in before ==> x != null && !old(allocated(x));
      }
    }

    /** One call: decodes until the input or the output space runs out, the stream ends, or an error turns up. */
    method BzDecompress(ghost later: seq<bool>, ghost o: Result) returns (code: Code)
      requires s.state != XIdle ==> Rests(later, o)
      modifies Repr()
      ensures fresh(Repr() - old(Repr())) && |output| + availOut == old(|output| + availOut)
      ensures if old(s.state) == XIdle then code == BzSequenceError && output == old(output) else Answers(code, later, o)
    {
      hide Receiver.Rests, Rests, Answers, Receiver.LoopRepr, FastInverse.Decoder.Finished, BitReader.Unread;
      if s.state == XIdle { return BzSequenceError; }
      var done := false;
      code := BzOk;
      while !done
        invariant fresh(Repr() - old(Repr())) && |output| + availOut == old(|output| + availOut)
        invariant if done then Answers(code, later, o) else Rests(later, o) && s.state != XIdle
        decreases !done, |o.output| - |s.st.output|, s.state != XOutput
      {
        ghost var before := Repr();
        done, code := Round(later, o);
        ghost var now := Repr();
        assert forall x: object? :: x in now && x !in before ==> x != null && !old(allocated(x));
      }
    }
  }

  /** A block stands for at least one byte. */
  lemma SomeBytes(column: seq<byte>, origPtr: nat)
    requires origPtr < |column|
    ensures BlockBytes(column, origPtr).bytes != []
  {
    hide Unsorted, Fetched;
    var b := Unsorted(column, origPtr, |column|);
    assert |Repeat(b[0], RunLength(b, 0, Fetched(column, origPtr, |column|)))| > 0;
  }

  /** What the block at hand comes to in the whole run. */
  lemma BlockCounts(sum: Checksum, s: State, bits: seq<bool>)
    requires s.stage.Output? && s.stage.h.origPtr < |s.stage.column|
    ensures var o, e := Proceed(sum, s, bits), BlockBytes(s.stage.column, s.stage.h.origPtr);
            && s.output + e.bytes <= o.output
            && (if !e.complete || sum.OfBytes(e.bytes) != s.stage.h.crc then o.status == DataError && o.output == s.output + e.bytes
                else Proceed(sum, State(s.k, sum.combine(s.combined, s.stage.h.crc), s.output + e.bytes, BlockStart), bits) == o)
  {
    hide Proceed, BlockBytes;
    NothingRead(sum, s, bits);
    if Next(sum, s, 0).Go? { OutputGrows(sum, Next(sum, s, 0).s, bits); }
  }
}
