/** What any run of the decompressor puts out, however it ends. */
module RunOutputs {
  import opened Sequences
  import opened Words
  import opened Checksums
  import opened Bits
  import ByteMaps
  import CanonicalHuffman
  import ColumnSteps
  import opened SymbolCoding
  import opened StreamFormat
  import opened BlockSender
  import opened StreamSteps
  import opened StreamText
  import opened TextRead
  import opened TextTaken
  import opened StreamMeaning

  /** A run that has read p is in state s. */
  ghost predicate Leads(sum: Checksum, p: seq<bool>, s: State) {
    forall x :: DecodeStream(sum, p + x) == Proceed(sum, s, x)
  }

  lemma {:induction false} ScanTook(len: seq<int>, n: nat, bits: seq<bool>)
    requires Scan(len, n, bits).Arrived?
    ensures var a := Scan(len, n, bits);
            |a.rest| <= |bits| && bits[|bits| - |a.rest|..] == a.rest && Scan(len, n, bits[..|bits| - |a.rest|]) == Arrived(a.v, [])
    decreases CanonicalHuffman.LONGEST_CODE + 1 - n
  {
    hide CanonicalHuffman.Used, CanonicalHuffman.First, Value;
    var a := Scan(len, n, bits);
    if Value(bits[..n]) >= CanonicalHuffman.Used(len, n) {
      ScanTook(len, n + 1, bits);
    }
    var q := bits[..|bits| - |a.rest|];
    assert q[..n] == bits[..n];
  }

  /** The bits that a field takes. */
  ghost function TakenBits(stage: Stage, bits: seq<bool>): seq<bool>
    requires Await(stage, bits).Arrived?
  {
    AwaitTakes(stage, bits);
    bits[..|bits| - |Await(stage, bits).rest|]
  }

  lemma AwaitTook(stage: Stage, bits: seq<bool>)
    requires Await(stage, bits).Arrived?
    ensures var a, q := Await(stage, bits), TakenBits(stage, bits); bits == q + a.rest && Await(stage, q) == Arrived(a.v, [])
  {
    hide Scan, Value, Width;
    AwaitTakes(stage, bits);
    var q := TakenBits(stage, bits);
    if stage.Symbols? {
      ScanTook(stage.lens[stage.selector[stage.done / G_SIZE]], 1, bits);
    } else {
      assert q[..Width(stage)] == bits[..Width(stage)];
    }
  }

  /** After one more field. */
  lemma LeadsOn(sum: Checksum, p: seq<bool>, s: State, bits: seq<bool>)
    requires Leads(sum, p, s) && Await(s.stage, bits).Arrived? && Next(sum, s, Await(s.stage, bits).v).Go?
    ensures Leads(sum, p + TakenBits(s.stage, bits), Next(sum, s, Await(s.stage, bits).v).s)
  {
    hide DecodeStream, Proceed, Next, Await;
    AwaitTook(s.stage, bits);
    var q, v := TakenBits(s.stage, bits), Await(s.stage, bits).v;
    forall x ensures DecodeStream(sum, p + q + x) == Proceed(sum, Next(sum, s, v).s, x) {
      Associate(p, q, x);
      AwaitMore(s.stage, q, x);
      assert [] + x == x;
      ProceedStep(sum, s, q + x);
    }
  }

  // ---------- What has been put out ----------

  /** These are the bytes of the good blocks that the bits begin with, up to some block. */
  ghost predicate FromBlocks(sum: Checksum, bits: seq<bool>, out: seq<byte>) {
    out == [] || exists k, blocks :: FromThese(sum, bits, out, k, blocks)
  }

  ghost predicate FromThese(sum: Checksum, bits: seq<bool>, out: seq<byte>, k: nat, blocks: seq<BlockText>) {
    1 <= k <= 9 && AllGood(sum, k, blocks) && BytesFrom(FileMagic(k), 0) + BlocksText(blocks) <= bits && out == AllBytes(blocks)
  }

  lemma FromBlocksMore(sum: Checksum, p: seq<bool>, bits: seq<bool>, out: seq<byte>)
    requires FromBlocks(sum, p, out) && p <= bits
    ensures FromBlocks(sum, bits, out)
  {
    hide AllGood, BytesFrom, BlocksText, AllBytes;
    if out != [] {
      var k, blocks :| FromThese(sum, p, out, k, blocks);
      assert FromThese(sum, bits, out, k, blocks);
    }
  }

  lemma TrailerLength(a: seq<byte>, b: seq<byte>)
    requires |a| == |b| == 4
    ensures |BytesFrom(EndMagic() + a, 0)| == |BytesFrom(EndMagic() + b, 0)|
  {
    BytesFromIsBits(EndMagic() + a, 0);
    BytesFromIsBits(EndMagic() + b, 0);
  }

  /** Where a block may start, the trailer could follow; so what has been put out are the bytes of good blocks. */
  lemma AtBlockStart(sum: Checksum, p: seq<bool>, s: State)
    requires sum.Good() && Leads(sum, p, s) && s.stage == BlockStart && |s.combined| == 4
    ensures FromBlocks(sum, p, s.output)
  {
    hide DecodeStream, Proceed, BytesFrom, AllGood, BlocksText, AllBytes, Folded, Checksum.Good, Leads;
    var trailer := BytesFrom(EndMagic() + s.combined, 0);
    var bits := p + trailer;
    TrailerDecodes(sum, s, []);
    assert trailer + [] == trailer;
    LeadsTo(sum, p, s, trailer);
    AcceptedHere(sum, bits);
    var k, blocks, finish := AcceptedIsText(sum, bits);
    FoldedFour(sum, [0, 0, 0, 0], blocks);
    TrailerLength(s.combined, Folded(sum, [0, 0, 0, 0], blocks));
    var head := BytesFrom(FileMagic(k), 0) + BlocksText(blocks);
    Associate(BytesFrom(FileMagic(k), 0), BlocksText(blocks), finish.Text(Folded(sum, [0, 0, 0, 0], blocks)));
    assert |head| == |p| && head == bits[..|p|] == p;
    assert FromThese(sum, p, s.output, k, blocks);
  }

  lemma LeadsTo(sum: Checksum, p: seq<bool>, s: State, x: seq<bool>)
    requires Leads(sum, p, s)
    ensures DecodeStream(sum, p + x) == Proceed(sum, s, x)
  {
    hide DecodeStream, Proceed;
  }

  lemma AcceptedHere(sum: Checksum, bits: seq<bool>)
    ensures DecodeStream(sum, bits).status == StreamEnd ==> Ends(sum, Initial(), bits)
  {
    hide Proceed;
  }

  // ---------- Steps ----------

  /** A step puts nothing out, unless it leads behind a block or reports a bad one. */
  lemma StepOutput(sum: Checksum, s: State, v: nat)
    requires sum.Good()
    ensures var m := Next(sum, s, v);
            && (m.Go? ==> (m.s.output == s.output && m.s.combined == s.combined) || (m.s.stage == BlockStart && |m.s.combined| == 4))
            && (m.Stop? ==> m.output == s.output || (m.status == DataError && s.output <= m.output))
  {
    hide Next, BlockBytes, SelectorOf, ByteMaps.Rank, ColumnSteps.Take, RowComes, FileMagic, BlockMagic, EndMagic, AlphaSize, Checksum.Good;
    match s.stage
    case FileMagicAt(n) => FileMagicSteps(sum, s, n, v);
    case BlockStart => StartSteps(sum, s, v);
    case BlockMagicAt(n) => BlockMagicSteps(sum, s, n, v);
    case BlockCrc(got) => CrcSteps(sum, s, got, v);
    case RandBit(crc) => RandSteps(sum, s, crc, v);
    case OrigPtr(crc, n, p) => OrigPtrSteps(sum, s, crc, n, p, v);
    case Flags(h, flags) => FlagSteps(sum, s, h, flags, v);
    case Rows(h, flags, used) => RowSteps(sum, s, h, flags, used, v);
    case Groups(h, used) => GroupSteps(sum, s, h, used, v);
    case SelectorCount(h, used, nGroups) => CountSteps(sum, s, h, used, nGroups, v);
    case SelectorPlace(h, used, nGroups, nSelectors, js, j) => PlaceSteps(sum, s, h, used, nGroups, nSelectors, js, j, v);
    case Tables(h, used, selector, nGroups, lens, coding) => CodingSteps(sum, s, h, used, selector, nGroups, lens, coding, v);
    case Symbols(h, used, lens, selector, done, flat) => SymbolSteps(sum, s, h, used, lens, selector, done, flat, v);
    case Output(h, column) => ColumnOutput(sum, s, h, column, v);
    case EndMagicAt(n) => EndMagicSteps(sum, s, n, v);
    case EndCrc(got) => EndCrcSteps(sum, s, got, v);
  }

  lemma ColumnOutput(sum: Checksum, s: State, h: Header, column: seq<byte>, v: nat)
    requires sum.Good() && s.stage == Output(h, column)
    ensures var m := Next(sum, s, v);
            && (m.Go? ==> m.s.stage == BlockStart && |m.s.combined| == 4)
            && (m.Stop? ==> m.output == s.output || (m.status == DataError && s.output <= m.output))
  {
    hide BlockBytes;
  }

  lemma {:induction false} RunFrom(sum: Checksum, p: seq<bool>, s: State, bits: seq<bool>) returns (out: seq<byte>, last: seq<byte>)
    requires sum.Good() && Leads(sum, p, s) && |s.combined| == 4 && FromBlocks(sum, p, s.output)
    ensures var r := Proceed(sum, s, bits); r.output == out + last && FromBlocks(sum, p + bits, out) && (last != [] ==> r.status == DataError)
    decreases |bits|, Slack(s.stage)
  {
    hide Next, Await, Slack, Leads, FromBlocks, Checksum.Good;
    var a := Await(s.stage, bits);
    FromBlocksMore(sum, p, p + bits, s.output);
    if !a.Arrived? { return s.output, []; }
    StepOutput(sum, s, a.v);
    var m := Next(sum, s, a.v);
    if m.Stop? { return s.output, m.output[|s.output|..]; }
    AwaitTook(s.stage, bits);
    LeadsOn(sum, p, s, bits);
    StepDescends(sum, s, bits);
    var q := TakenBits(s.stage, bits);
    if m.s.output == s.output && m.s.combined == s.combined {
      FromBlocksMore(sum, p, p + q, s.output);
    } else {
      AtBlockStart(sum, p + q, m.s);
    }
    Associate(p, q, a.rest);
    out, last := RunFrom(sum, p + q, m.s, a.rest);
  }

  /**
   * Whatever the bits, and however the run ends, what comes out are the bytes of the good blocks that the bits begin with,
   * up to some block, and no more; only a run that ends with a data error may have put out the bytes of one more block.
   */
  lemma OutputIsOfBlocks(sum: Checksum, bits: seq<bool>)
    requires sum.Good()
    ensures exists out, last ::
              DecodeStream(sum, bits).output == out + last && FromBlocks(sum, bits, out) && (last != [] ==> DecodeStream(sum, bits).status == DataError)
  {
    hide Proceed, FromBlocks, Checksum.Good;
    assert FromBlocks(sum, [], []) by { NothingYet(sum); }
    forall x ensures DecodeStream(sum, [] + x) == Proceed(sum, Initial(), x) { assert [] + x == x; }
    assert [] + bits == bits;
    var out, last := RunFrom(sum, [], Initial(), bits);
  }

  lemma NothingYet(sum: Checksum)
    ensures FromBlocks(sum, [], [])
  {
  }

  /** And the bytes of all good blocks that the bits begin with do come out. */
  lemma BlocksComeOut(sum: Checksum, bits: seq<bool>, k: nat, blocks: seq<BlockText>)
    requires 1 <= k <= 9 && AllGood(sum, k, blocks) && BytesFrom(FileMagic(k), 0) + BlocksText(blocks) <= bits
    ensures AllBytes(blocks) <= DecodeStream(sum, bits).output
  {
    hide Proceed, AllGood, BytesFrom, BlocksText, AllBytes, Folded;
    var head, text := BytesFrom(FileMagic(k), 0), BlocksText(blocks);
    var tail := bits[|head + text|..];
    assert bits == (head + text) + tail;
    Associate(head, text, tail);
    var s := State(k, [0, 0, 0, 0], [], BlockStart);
    FileHeaderDecodes(sum, k, 0, text + tail);
    BlocksDecode(sum, s, blocks, tail);
    assert [] + AllBytes(blocks) == AllBytes(blocks);
    OutputGrows(sum, State(k, Folded(sum, [0, 0, 0, 0], blocks), AllBytes(blocks), BlockStart), tail);
  }

  // ---------- Waiting in vain ----------

  /** Magic number, block size and the start of a trailer whose checksum is not the one of no blocks. */
  function BegunWrong(): seq<byte> {
    [0x42, 0x5a, 0x68, 0x39, 0x17, 0x72, 0x45, 0x38, 0x50, 0x90, 1]
  }

  /**
   * Input that has run dry without an error is not always the beginning of a stream: a checksum is compared when all of
   * it is there, so these bytes are followed to their end, though nothing that comes after them makes a good stream.
   */
  lemma NotEveryWaitEnds(sum: Checksum, later: seq<bool>)
    ensures DecodeStream(sum, BytesToBits(BegunWrong())).status == NeedMore
    ensures DecodeStream(sum, BytesToBits(BegunWrong()) + later).status != StreamEnd
  {
    hide Proceed, BytesToBits;
    WrongTrailer(sum, []);
    WrongTrailer(sum, later);
    var s := State(9, [0, 0, 0, 0], [], EndCrc([1]));
    assert BytesToBits(BegunWrong()) + [] == BytesToBits(BegunWrong());
    NothingComes(sum, s);
    NoPrefix(s.combined);
    if Proceed(sum, s, later).status == StreamEnd {
      EndsHere(sum, s, later);
      var rest := EndCrcTaken(sum, s, [1], later);
    }
  }

  lemma NoPrefix(combined: seq<byte>)
    requires combined == [0, 0, 0, 0]
    ensures !([1] <= combined)
  {
    assert combined[0] == 0;
  }

  lemma EndsHere(sum: Checksum, s: State, bits: seq<bool>)
    requires Proceed(sum, s, bits).status == StreamEnd
    ensures Ends(sum, s, bits)
  {
    hide Proceed;
  }

  lemma NothingComes(sum: Checksum, s: State)
    requires s.stage == EndCrc([1])
    ensures Proceed(sum, s, []).status == NeedMore
  {
  }

  lemma WrongTrailer(sum: Checksum, later: seq<bool>)
    ensures DecodeStream(sum, BytesToBits(BegunWrong()) + later) == Proceed(sum, State(9, [0, 0, 0, 0], [], EndCrc([1])), later)
  {
    hide Proceed, BytesToBits, BytesFrom;
    var s := State(9, [0, 0, 0, 0], [], BlockStart);
    var a, b := FileMagic(9), EndMagic() + [1];
    assert a + b == BegunWrong() && a[0..] == a && b[0..] == b;
    BytesFromIsBits(a, 0);
    BytesFromIsBits(b, 0);
    BytesToBitsConcat(a, b);
    Associate(BytesFrom(a, 0), BytesFrom(b, 0), later);
    FileHeaderDecodes(sum, 9, 0, BytesFrom(b, 0) + later);
    ByteRead(sum, s, b, 0, later);
    EndMagicDecodes(sum, s, [1], 1, later);
    ByteRead(sum, s.At(EndCrc([])), b, 6, later);
    EndCrcSteps(sum, s.At(EndCrc([])), [], 1);
    assert [] + [1] == [1];
    NoneLeft(b, later);
  }
}
