/** Sequences of calls of the decompressor: however input and output space are cut up, the result is the same. */
module DecodingCalls {
  import opened Sequences
  import opened Words
  import opened Checksums
  import opened Bits
  import opened BitStream
  import opened StreamSteps
  import opened BlockReceiver
  import opened StreamDecoder
  import opened StreamText
  import opened StreamMeaning
  import opened MagicErrors
  import opened RunOutputs

  /** One call: further input, and output space. */
  datatype Feed = Feed(input: seq<byte>, room: nat)

  /** The input of the calls from the i-th on. */
  function Fed(feeds: seq<Feed>, i: nat): seq<byte>
    requires i <= |feeds|
    decreases |feeds| - i
  {
    if i == |feeds| then [] else feeds[i].input + Fed(feeds, i + 1)
  }

  /** Input that has run dry, with no more to come, has been decoded as far as it goes. */
  lemma RunDry(dec: Decompressor, o: Result)
    requires dec.Rests([], o) && dec.s.Waits()
    ensures o.status == NeedMore && dec.output == o.output
  {
    hide Sound, BitReader.Valid, Receiver.Agrees, Receiver.Loop, Await, Next;
    var s := dec.s;
    s.WaitingPlaces([], o);
    assert s.r.Unread() + [] == s.r.Unread();
    if s.state == XMtf { assert s.mtf.sr.Pending(s.r) + [] == s.mtf.sr.Pending(s.r); }
  }

  /** Between two calls that have not ended the stream. */
  ghost predicate AtRest(dec: Decompressor, later: seq<bool>, o: Result)
    reads dec.Repr(), if dec.s.mtf == null then {} else {dec.s.mtf.seqToUnseq}, if dec.s.d == null then {} else {dec.s.d.tt}
  {
    dec.Rests(later, o) && dec.s.state != XIdle && dec.output <= o.output
  }

  /** One call, with its input and output space. */
  method MakeCall(dec: Decompressor, feed: Feed, ghost later: seq<bool>, ghost o: Result) returns (code: Code)
    requires dec.Rests(BytesToBits(feed.input) + later, o) && dec.s.state != XIdle
    modifies dec.Repr()
    ensures fresh(dec.Repr() - old(dec.Repr())) && dec.Answers(code, later, o)
    ensures |dec.output| + dec.availOut == |old(dec.output)| + feed.room
  {
    hide Decompressor.Rests, Decompressor.Answers, BytesToBits, Receiver.LoopRepr;
    dec.Supply(feed.input, feed.room, later, o);
    ghost var before := dec.Repr();
    code := dec.BzDecompress(later, o);
    ghost var now := dec.Repr();
    assert forall x: object? :: x in now && x !in before ==> x != null && !old(allocated(x));
  }

  lemma NextFed(feeds: seq<Feed>, i: nat, behind: seq<bool>)
    requires i < |feeds|
    ensures BytesToBits(Fed(feeds, i)) + behind == BytesToBits(feeds[i].input) + (BytesToBits(Fed(feeds, i + 1)) + behind)
  {
    hide BytesToBits;
    BytesToBitsConcat(feeds[i].input, Fed(feeds, i + 1));
    Associate(BytesToBits(feeds[i].input), BytesToBits(Fed(feeds, i + 1)), behind);
  }

  /**
   * Makes the calls one after another until one of them reports the end of the stream or an error.
   * o is what all the input, and what may still be behind it, decodes to: no more than that comes
   * out, the end or an error is reported as for the uncut input and with all its output, and input
   * that has run dry without filling the output space has been decoded as far as it goes.
   */
  method MakeCalls(dec: Decompressor, feeds: seq<Feed>, ghost behind: seq<bool>, ghost o: Result) returns (made: nat, code: Code)
    requires AtRest(dec, BytesToBits(Fed(feeds, 0)) + behind, o)
    modifies dec.Repr()
    ensures made <= |feeds| && fresh(dec.Repr() - old(dec.Repr())) && (code == BzOk ==> made == |feeds|)
    ensures if code == BzOk then AtRest(dec, BytesToBits(Fed(feeds, made)) + behind, o) else dec.Answers(code, BytesToBits(Fed(feeds, made)) + behind, o)
    ensures code == BzOk && feeds != [] && dec.availOut > 0 && behind == [] ==> o.status == NeedMore && dec.output == o.output
  {
    hide Decompressor.Rests, Receiver.Waits, Receiver.LoopRepr, BytesToBits, Proceed;
    made, code := 0, BzOk;
    while made < |feeds| && code == BzOk
      invariant made <= |feeds| && fresh(dec.Repr() - old(dec.Repr()))
      invariant if code == BzOk then AtRest(dec, BytesToBits(Fed(feeds, made)) + behind, o) else dec.Answers(code, BytesToBits(Fed(feeds, made)) + behind, o)
      invariant made > 0 && code == BzOk ==> dec.availOut == 0 || dec.s.Waits()
    {
      NextFed(feeds, made, behind);
      ghost var before := dec.Repr();
      code := MakeCall(dec, feeds[made], BytesToBits(Fed(feeds, made + 1)) + behind, o);
      ghost var now := dec.Repr();
      assert forall x: object? :: x in now && x !in before ==> x != null && !old(allocated(x));
      made := made + 1;
    }
    if code == BzOk && feeds != [] && dec.availOut > 0 && behind == [] {
      NothingLeft(feeds);
      RunDry(dec, o);
    }
  }

  lemma NothingLeft(feeds: seq<Feed>)
    ensures BytesToBits(Fed(feeds, |feeds|)) + [] == []
  {
  }

  /** Goes on calling, with no more input, until the end of the stream, an error, or a call that leaves output space. */
  method Drain(dec: Decompressor, more: nat -> nat, ghost o: Result) returns (code: Code)
    requires AtRest(dec, [], o)
    modifies dec.Repr()
    ensures code == CodeOf(o.status) && dec.output == o.output
  {
    hide Decompressor.Rests, BytesToBits, Proceed;
    var calls := 0;
    code := BzOk;
    NoMoreInput();
    var drained := false;
    while code == BzOk && !drained
      invariant dec.output <= o.output && code != BzSequenceError && fresh(dec.Repr() - old(dec.Repr()))
      invariant code == BzOk && !drained ==> dec.Rests([], o) && dec.s.state != XIdle
      invariant code != BzOk || drained ==> code == CodeOf(o.status) && dec.output == o.output
      decreases code == BzOk && !drained, |o.output| - |dec.output|
    {
      ghost var before := dec.Repr();
      code := MakeCall(dec, Feed([], 1 + more(calls)), [], o);
      ghost var now := dec.Repr();
      assert forall x: object? :: x in now && x !in before ==> x != null && !old(allocated(x));
      drained, calls := dec.availOut > 0, calls + 1;
      if code == BzOk && drained { RunDry(dec, o); }
    }
  }

  lemma NoMoreInput()
    ensures BytesToBits([]) + [] == []
  {
  }

  /** What the bits begin with decides between the codes. */
  lemma CodeIffText(sum: Checksum, bits: seq<bool>)
    requires sum.Good()
    ensures CodeOf(DecodeStream(sum, bits).status) == BzStreamEnd <==> exists k, blocks :: Begins(sum, k, blocks, EndOfStream, bits)
    ensures CodeOf(DecodeStream(sum, bits).status) == Undefined <==> exists k, blocks, head, js :: Begins(sum, k, blocks, Overfull(head, js), bits)
  {
    hide DecodeStream, Begins, Checksum.Good;
    AcceptedIffText(sum, bits);
    OverrunIffText(sum, bits);
  }

  /** What the outcome of decoding a byte string says of it. */
  lemma OutcomeMeans(sum: Checksum, bytes: seq<byte>, code: Code, output: seq<byte>)
    requires var o := DecodeStream(sum, BytesToBits(bytes)); code == CodeOf(o.status) && output == o.output
    ensures sum.Good() ==> exists out, last ::
              output == out + last && FromBlocks(sum, BytesToBits(bytes), out) && (last != [] ==> code == BzDataError)
    ensures code == BzDataErrorMagic <==> WrongMagic(bytes)
    ensures sum.Good() ==> (code == BzStreamEnd <==> exists k, blocks :: Begins(sum, k, blocks, EndOfStream, BytesToBits(bytes)))
    ensures sum.Good() ==> (code == Undefined <==> exists k, blocks, head, js :: Begins(sum, k, blocks, Overfull(head, js), BytesToBits(bytes)))
  {
    hide BytesToBits, DecodeStream, Begins, Checksum.Good, WrongMagic, FromBlocks;
    MagicErrorIff(sum, bytes);
    if sum.Good() {
      CodeIffText(sum, BytesToBits(bytes));
      OutputIsOfBlocks(sum, BytesToBits(bytes));
    }
  }

  /**
   * Decodes a byte string that comes in pieces, with any output space in every call, and then goes
   * on calling with at least one byte of output space. Whatever the bytes, the pieces and the
   * spaces, what comes out and how it ends are what the whole string stands for; and it ends well
   * exactly if the string begins with a stream of good blocks. It is reported to be no compressed file exactly if one of its
   * first four bytes is wrong; and what has come out are the bytes of good blocks, with those of one more before a data error.
   */
  method Decode(sum: Checksum, feeds: seq<Feed>, more: nat -> nat) returns (code: Code, output: seq<byte>)
    ensures var o := DecodeStream(sum, BytesToBits(Fed(feeds, 0))); code == CodeOf(o.status) && output == o.output
    ensures sum.Good() ==> exists out, last ::
              output == out + last && FromBlocks(sum, BytesToBits(Fed(feeds, 0)), out) && (last != [] ==> code == BzDataError)
    ensures code == BzDataErrorMagic <==> WrongMagic(Fed(feeds, 0))
    ensures sum.Good() ==> (code == BzStreamEnd <==> exists k, blocks :: Begins(sum, k, blocks, EndOfStream, BytesToBits(Fed(feeds, 0))))
    ensures sum.Good() ==> (code == Undefined <==> exists k, blocks, head, js :: Begins(sum, k, blocks, Overfull(head, js), BytesToBits(Fed(feeds, 0))))
  {
    hide Decompressor.Rests, BytesToBits, Proceed, DecodeStream, Begins, Checksum.Good, WrongMagic, FromBlocks;
    ghost var bits := BytesToBits(Fed(feeds, 0));
    ghost var o := DecodeStream(sum, bits);
    assert bits + [] == bits;
    var dec := new Decompressor(sum, bits);
    var made;
    made, code := MakeCalls(dec, feeds, [], o);
    if code == BzOk {
      NothingLeft(feeds);
      code := Drain(dec, more, o);
    }
    output := dec.output;
    OutcomeMeans(sum, Fed(feeds, 0), code, output);
  }
}
