/** Whole files through the compressor and back, for every way of calling both. */
module FileRoundTrip {
  import opened Sequences
  import opened Words
  import opened Checksums
  import opened Bits
  import opened BlockFormat
  import opened BlockSender
  import opened StreamFormat
  import opened StreamEncoder
  import opened DecodingCalls
  import D = StreamDecoder

  /** One call of the compressor: what to do, further input, and output space. */
  datatype Call = Call(action: Action, input: seq<byte>, room: nat)

  /** The input of the first n calls. */
  function Given(calls: seq<Call>, n: nat): seq<byte>
    requires n <= |calls|
  {
    if n == 0 then [] else Given(calls, n - 1) + calls[n - 1].input
  }

  /** The compressed stream is finished, and stands for all the input. */
  ghost predicate Finished(e: Encoder, input: seq<byte>)
    reads e
  {
    && e.consumed == input == BytesOf(e.sent, |e.sent|)
    && ClosedStream(BytesToBits(e.output), e.blockSize100k, e.sum, e.sent) && AllOk(e.sent, e.sum, 100_000 * e.blockSize100k)
  }

  /**
   * Makes the calls one after another until one of them says that the stream has ended; when it does,
   * it stands for the input given so far. Calls that only run leave the compressor running.
   */
  method MakeCalls(e: Encoder, calls: seq<Call>) returns (ended: bool, made: nat, last: Status)
    requires e.Resting() && e.consumed == [] && e.nextIn == [] && e.output == []
    modifies e, e.buf, e.buf.block, e.buf.inUse, e.w
    ensures made <= |calls| && e.Resting() && e.consumed + e.nextIn == Given(calls, made)
    ensures if ended then Finished(e, Given(calls, made)) && last == StreamEnd else made == |calls| && last != StreamEnd
    ensures old(e.mode) == Running && !ended ==> (e.mode == Running <==> last == RunOk || last == ParamError)
    ensures old(e.mode) == Running && last == FinishOk ==> e.mode == Finishing && e.availInExpect == |e.nextIn|
    ensures old(e.mode) == Running && (forall k :: 0 <= k < |calls| ==> calls[k].action == RunAction) ==> !ended && e.mode == Running
  {
    hide Encoder.Valid, ClosedStream, BytesOf, BytesToBits, AllOk;
    ended, made, last := false, 0, RunOk;
    while made < |calls| && !ended
      invariant made <= |calls| && e.Resting() && e.consumed + e.nextIn == Given(calls, made)
      invariant ended ==> Finished(e, Given(calls, made))
      invariant ended <==> last == StreamEnd
      invariant old(e.mode) == Running && !ended ==> (e.mode == Running <==> last == RunOk || last == ParamError)
      invariant old(e.mode) == Running && last == FinishOk ==> e.mode == Finishing && e.availInExpect == |e.nextIn|
      invariant old(e.mode) == Running && (forall k :: 0 <= k < |calls| ==> calls[k].action == RunAction) ==> !ended && e.mode == Running
    {
      var call := calls[made];
      Associate(e.consumed, e.nextIn, call.input);
      e.Supply(call.input, call.room);
      var status := e.BzCompress(call.action);
      ended, made, last := status == StreamEnd, made + 1, status;
      if ended {
        GoodBlocks(e);
        assert e.consumed + [] == e.consumed;
      }
    }
  }

  /** Asks for the end of the stream again and again, with at least one byte of output space, and gets it. */
  method FinishAll(e: Encoder, more: nat -> nat)
    requires e.Resting() && (e.mode == Running || (e.mode == Finishing && e.availInExpect == |e.nextIn|))
    modifies e, e.buf, e.buf.block, e.buf.inUse, e.w
    ensures Finished(e, old(e.consumed + e.nextIn))
  {
    hide Encoder.Valid, ClosedStream, BytesOf, BytesToBits, AllOk;
    var calls := 0;
    var ended := false;
    while !ended
      invariant e.Resting() && e.consumed + e.nextIn == old(e.consumed + e.nextIn)
      invariant if ended then Finished(e, old(e.consumed + e.nextIn)) else e.mode == Running || (e.mode == Finishing && e.availInExpect == |e.nextIn|)
      decreases !ended, |e.nextIn|, !e.closed, |e.w.zbits| - e.stateOutPos
    {
      Bounds(e);
      assert e.nextIn + [] == e.nextIn;
      e.Supply([], 1 + more(calls));
      var status := e.BzCompress(FinishAction);
      ended, calls := status == StreamEnd, calls + 1;
      if ended {
        GoodBlocks(e);
        assert e.consumed + [] == e.consumed;
      }
    }
  }

  lemma Bounds(e: Encoder)
    requires e.Resting()
    ensures e.stateOutPos <= |e.w.zbits|
  {
  }

  lemma GoodBlocks(e: Encoder)
    requires e.Resting()
    ensures AllOk(e.sent, e.sum, 100_000 * e.blockSize100k)
  {
  }

  /** A stream that has been finished decodes to the bytes of its blocks. */
  lemma FinishedDecodes(bits: seq<bool>, blockSize100k: nat, sum: Checksum, sent: seq<Sent>)
    requires sum.Good() && ClosedStream(bits, blockSize100k, sum, sent) && AllOk(sent, sum, 100_000 * blockSize100k)
    ensures StreamSteps.DecodeStream(sum, bits).status == StreamSteps.StreamEnd && StreamSteps.DecodeStream(sum, bits).output == BytesOf(sent, |sent|)
  {
    hide WholeStream, AllOk, StreamSteps.DecodeStream, Checksum.Good, BytesOf, Body.Valid;
    var n := |WholeStream(blockSize100k, sum, sent)|;
    assert bits == WholeStream(blockSize100k, sum, sent) + bits[n..];
    StreamMeaning.SentIsDecoded(sum, blockSize100k, sent, bits[n..]);
  }

  /**
   * A whole file through the compressor and back. For every block size and every choice of coding
   * tables: the input is given in any sequence of calls with any output space, and the end is then
   * asked for until it comes; the compressed bytes are cut at any places and decoded with any output
   * space in every call, and the decompressor is then called until it has no more to say. It reports
   * the end of the stream, and what has come out is the input. The end can be asked for exactly if
   * the last of the calls (last is what it answers) has not left a flush unfinished and is not
   * answered by a sequence error.
   */
  method CompressAndDecompressFile(blockSize100k: nat, sum: Checksum, choose: (seq<nat>, nat) -> Choice, calls: seq<Call>, finishing: nat -> nat,
                                   cut: seq<byte> -> seq<Feed>, draining: nat -> nat)
    returns (done: bool, made: nat, last: Status, code: D.Code, output: seq<byte>)
    requires 1 <= blockSize100k <= 9 && sum.Good() && forall syms, n :: Usable(choose(syms, n), |syms|, n)
    requires forall z :: Fed(cut(z), 0) == z
    ensures (forall k :: 0 <= k < |calls| ==> calls[k].action == RunAction) ==> done && made == |calls|
    ensures done <==> last != FlushOk && last != SequenceError
    ensures done ==> made <= |calls| && code == D.BzStreamEnd && output == Given(calls, made)
  {
    hide Encoder.Valid, ClosedStream, BytesOf, BytesToBits, AllOk, Usable, Checksum.Good, StreamSteps.DecodeStream;
    var e := new Encoder(blockSize100k, sum, choose);
    done, made, last := MakeCalls(e, calls);
    code, output := D.BzOk, [];
    if !done && (e.mode == Running || last == FinishOk) {
      FinishAll(e, finishing);
      done := true;
    }
    if done {
      FinishedDecodes(BytesToBits(e.output), blockSize100k, sum, e.sent);
      code, output := Decode(sum, cut(e.output), draining);
    }
  }
}
