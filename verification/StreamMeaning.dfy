/** What decoding a whole stream comes to: exactly the streams of the format are decoded to their end, to the bytes of their blocks. */
module StreamMeaning {
  import opened Sequences
  import opened Words
  import opened Checksums
  import opened Bits
  import opened ByteMaps
  import opened SymbolCoding
  import opened BlockFormat
  import opened BlockSender
  import opened StreamFormat
  import opened StreamSteps
  import opened StreamText
  import opened TextRead
  import opened TextTaken
  import opened SentBlocks

  // ---------- Streams of the format ----------

  /** A good block is decoded to its bytes. */
  lemma BlockDecodes(sum: Checksum, s: State, b: BlockText, tail: seq<bool>)
    requires 1 <= s.k <= 9 && b.Good(sum, s.k)
    ensures Proceed(sum, s.At(BlockStart), b.Text() + tail) ==
            Proceed(sum, State(s.k, sum.combine(s.combined, b.h.crc), s.output + b.Bytes(), BlockStart), tail)
  {
    hide Proceed, BlockText.Valid, BlockText.Text, BlockText.Column, BlockBytes;
    BlockRead(sum, s, b, tail);
    ColumnLength(b, s.k);
    NothingRead(sum, s.At(Output(b.h, b.Column())), tail);
  }

  lemma ColumnLength(b: BlockText, k: nat)
    requires b.Valid(k)
    ensures b.h.origPtr < |b.Column()| == |b.ranks|
  {
  }

  lemma {:induction false} BlocksDecode(sum: Checksum, s: State, blocks: seq<BlockText>, tail: seq<bool>)
    requires 1 <= s.k <= 9 && AllGood(sum, s.k, blocks)
    ensures Proceed(sum, s.At(BlockStart), BlocksText(blocks) + tail) ==
            Proceed(sum, State(s.k, Folded(sum, s.combined, blocks), s.output + AllBytes(blocks), BlockStart), tail)
    decreases |blocks|
  {
    hide Proceed, BlockText.Good, BlockText.Text, BlockText.Bytes;
    if blocks != [] {
      var b := blocks[0];
      var s' := State(s.k, sum.combine(s.combined, b.h.crc), s.output + b.Bytes(), BlockStart);
      Associate(b.Text(), BlocksText(blocks[1..]), tail);
      Associate(s.output, b.Bytes(), AllBytes(blocks[1..]));
      BlockDecodes(sum, s, b, BlocksText(blocks[1..]) + tail);
      BlocksDecode(sum, s', blocks[1..], tail);
    } else {
      assert s.output + [] == s.output && [] + tail == tail;
    }
  }

  lemma {:induction false} FileHeaderDecodes(sum: Checksum, k: nat, n: nat, tail: seq<bool>)
    requires 1 <= k <= 9 && n <= 3
    ensures Proceed(sum, Initial().At(FileMagicAt(n)), BytesFrom(FileMagic(k), n) + tail) == Proceed(sum, State(k, [0, 0, 0, 0], [], BlockStart), tail)
    decreases 3 - n
  {
    hide Proceed;
    ByteRead(sum, Initial().At(FileMagicAt(n)), FileMagic(k), n, tail);
    if n < 3 {
      FileHeaderDecodes(sum, k, n + 1, tail);
    } else {
      assert BytesFrom(FileMagic(k), 4) + tail == tail;
    }
  }

  lemma {:induction false} EndMagicDecodes(sum: Checksum, s: State, crc: seq<byte>, n: nat, tail: seq<bool>)
    requires 1 <= n <= 5
    ensures Proceed(sum, s.At(EndMagicAt(n)), BytesFrom(EndMagic() + crc, n) + tail) == Proceed(sum, s.At(EndCrc([])), BytesFrom(EndMagic() + crc, 6) + tail)
    decreases 6 - n
  {
    hide Proceed, BytesFrom;
    ByteRead(sum, s.At(EndMagicAt(n)), EndMagic() + crc, n, tail);
    if n < 5 { EndMagicDecodes(sum, s, crc, n + 1, tail); }
  }

  lemma {:induction false} EndCrcDecodes(sum: Checksum, s: State, n: nat, tail: seq<bool>)
    requires |s.combined| == 4 && n <= 3
    ensures Proceed(sum, s.At(EndCrc(s.combined[..n])), BytesFrom(EndMagic() + s.combined, 6 + n) + tail) == Result(StreamEnd, s.output, tail)
    decreases 4 - n
  {
    hide Proceed, BytesFrom, AfterRows, AfterPosition, AfterCoding, AfterSymbol, AfterOutput;
    var crc := s.combined;
    assert (EndMagic() + crc)[6 + n] == crc[n];
    ByteRead(sum, s.At(EndCrc(crc[..n])), EndMagic() + crc, 6 + n, tail);
    assert crc[..n] + [crc[n]] == crc[..n + 1];
    if n < 3 {
      EndCrcDecodes(sum, s, n + 1, tail);
    } else {
      assert crc[..4] == crc;
      NoMoreBytes(EndMagic() + crc, tail);
    }
  }

  lemma TrailerDecodes(sum: Checksum, s: State, tail: seq<bool>)
    requires |s.combined| == 4
    ensures Proceed(sum, s.At(BlockStart), BytesFrom(EndMagic() + s.combined, 0) + tail) == Result(StreamEnd, s.output, tail)
  {
    hide Proceed, BytesFrom;
    ByteRead(sum, s.At(BlockStart), EndMagic() + s.combined, 0, tail);
    EndMagicDecodes(sum, s, s.combined, 1, tail);
    assert s.combined[..0] == [];
    EndCrcDecodes(sum, s, 0, tail);
  }

  lemma {:induction false} FoldedFour(sum: Checksum, combined: seq<byte>, blocks: seq<BlockText>)
    requires sum.Good() && |combined| == 4
    ensures |Folded(sum, combined, blocks)| == 4
    decreases |blocks|
  {
    if blocks != [] { FoldedFour(sum, sum.combine(combined, blocks[0].h.crc), blocks[1..]); }
  }

  lemma ThreeParts<T>(a: seq<T>, b: seq<T>, c: seq<T>, tail: seq<T>)
    ensures (a + (b + c)) + tail == a + (b + (c + tail))
  {
  }

  lemma OverfullDecodes(sum: Checksum, s: State, head: BlockHead, js: seq<nat>, tail: seq<bool>)
    requires 1 <= s.k <= 9 && Overfull(head, js).Valid(s.k)
    ensures Proceed(sum, s.At(BlockStart), (head.Text() + UnaryBits(js, 0)) + tail) == Result(Overrun, s.output, tail)
  {
    hide Proceed, BlockHead.Text, BlockHead.Valid, UnaryBits, OneTooMany;
    Associate(head.Text(), UnaryBits(js, 0), tail);
    HeadRead(sum, s, head, UnaryBits(js, 0) + tail);
    OverrunRead(sum, s, head.h, head.used, head.nGroups, head.nSelectors, js, tail);
  }

  /**
   * Good blocks are decoded to their bytes; behind them, the trailer is the end of the stream, and a
   * block with too many selectors is followed up to the position that finds no room.
   */
  lemma TextDecodes(sum: Checksum, k: nat, blocks: seq<BlockText>, finish: Finish, tail: seq<bool>)
    requires sum.Good() && 1 <= k <= 9 && AllGood(sum, k, blocks) && finish.Valid(k)
    ensures DecodeStream(sum, FullText(sum, k, blocks, finish) + tail) == Result(finish.Status(), AllBytes(blocks), tail)
  {
    hide Proceed, BytesFrom, BlocksText, AllGood, Folded, AllBytes, Checksum.Good, Finish.Valid;
    var combined := Folded(sum, [0, 0, 0, 0], blocks);
    var s := State(k, combined, AllBytes(blocks), BlockStart);
    var last := finish.Text(combined);
    ThreeParts(BytesFrom(FileMagic(k), 0), BlocksText(blocks), last, tail);
    FileHeaderDecodes(sum, k, 0, BlocksText(blocks) + (last + tail));
    BlocksDecode(sum, State(k, [0, 0, 0, 0], [], BlockStart), blocks, last + tail);
    assert [] + AllBytes(blocks) == AllBytes(blocks);
    if finish.EndOfStream? {
      FoldedFour(sum, [0, 0, 0, 0], blocks);
      TrailerDecodes(sum, s, tail);
    } else {
      OverfullDecodes(sum, s, finish.head, finish.js, tail);
    }
  }

  /** A finished stream of blocks that were sent is decoded to the end, to the bytes of its blocks, and not beyond. */
  lemma SentIsDecoded(sum: Checksum, k: nat, sent: seq<Sent>, tail: seq<bool>)
    requires sum.Good() && 1 <= k <= 9 && AllOk(sent, sum, 100_000 * k) && forall j :: 0 <= j < |sent| ==> sent[j].body.Valid()
    ensures DecodeStream(sum, WholeStream(k, sum, sent) + tail) == Result(StreamEnd, BytesOf(sent, |sent|), tail)
  {
    hide DecodeStream, BytesFrom, BlocksBits, BlocksText, Body.Valid, AllOk, AllGood, Folded, AllBytes, Checksum.Good;
    SentAreGood(sum, k, sent);
    var blocks := TextsOf(sent, 0);
    Associate(BytesFrom(FileMagic(k), 0), BlocksText(blocks), BytesFrom(EndMagic() + Folded(sum, [0, 0, 0, 0], blocks), 0));
    TextDecodes(sum, k, blocks, EndOfStream, tail);
  }

  // ---------- Streams that are accepted ----------

  lemma {:induction false} FileHeaderTaken(sum: Checksum, n: nat, bits: seq<bool>) returns (k: nat, rest: seq<bool>)
    requires n <= 3 && Ends(sum, Initial().At(FileMagicAt(n)), bits)
    ensures 1 <= k <= 9 && bits == BytesFrom(FileMagic(k), n) + rest
    ensures Proceed(sum, Initial().At(FileMagicAt(n)), bits) == Proceed(sum, State(k, [0, 0, 0, 0], [], BlockStart), rest)
    decreases 3 - n
  {
    hide Proceed, BytesFrom, ToBits;
    var v, later := ByteTaken(sum, Initial().At(FileMagicAt(n)), bits);
    if n < 3 {
      k, rest := FileHeaderTaken(sum, n + 1, later);
    } else {
      k, rest := v - 0x30, later;
      NoneLeft(FileMagic(k), later);
    }
    ByteJoins(FileMagic(k), n, bits, later, rest);
  }

  lemma {:induction false} EndMagicTaken(sum: Checksum, s: State, n: nat, bits: seq<bool>) returns (rest: seq<bool>)
    requires 1 <= n <= 5 && Ends(sum, s.At(EndMagicAt(n)), bits)
    ensures bits == BytesFrom(EndMagic(), n) + rest && Proceed(sum, s.At(EndMagicAt(n)), bits) == Proceed(sum, s.At(EndCrc([])), rest)
    decreases 6 - n
  {
    hide Proceed, BytesFrom, ToBits;
    var v, later := ByteTaken(sum, s.At(EndMagicAt(n)), bits);
    if n < 5 {
      rest := EndMagicTaken(sum, s, n + 1, later);
    } else {
      rest := later;
      NoneLeft(EndMagic(), later);
    }
    ByteJoins(EndMagic(), n, bits, later, rest);
  }

  lemma {:induction false} EndCrcTaken(sum: Checksum, s: State, got: seq<byte>, bits: seq<bool>) returns (rest: seq<bool>)
    requires |got| <= 3 && Ends(sum, s.At(EndCrc(got)), bits)
    ensures got <= s.combined && |s.combined| == 4 && bits == BytesFrom(s.combined, |got|) + rest
    ensures Proceed(sum, s.At(EndCrc(got)), bits) == Result(StreamEnd, s.output, rest)
    decreases 4 - |got|
  {
    hide Proceed, BytesFrom, ToBits, AfterRows, AfterPosition, AfterCoding, AfterSymbol, AfterOutput;
    var v, later := ByteTaken(sum, s.At(EndCrc(got)), bits);
    if |got| < 3 {
      rest := EndCrcTaken(sum, s, got + [v], later);
    } else {
      rest := later;
      NoneLeft(s.combined, later);
    }
    assert (got + [v])[|got|] == v;
    ByteJoins(s.combined, |got|, bits, later, rest);
  }

  /** Behind its first byte, the trailer holds the combined checksum of the blocks. */
  lemma TrailerTaken(sum: Checksum, s: State, bits: seq<bool>) returns (rest: seq<bool>)
    requires Ends(sum, s.At(EndMagicAt(1)), bits)
    ensures ToBits(0x17, 8) + bits == BytesFrom(EndMagic() + s.combined, 0) + rest
    ensures Proceed(sum, s.At(EndMagicAt(1)), bits) == Result(StreamEnd, s.output, rest)
  {
    hide Proceed, ToBits, BytesFrom;
    var later := EndMagicTaken(sum, s, 1, bits);
    rest := EndCrcTaken(sum, s, [], later);
    ByteJoins(EndMagic(), 0, ToBits(0x17, 8) + bits, bits, later);
    BytesConcat(EndMagic(), s.combined, 0);
    Associate(BytesFrom(EndMagic(), 0), BytesFrom(s.combined, 0), rest);
  }

  /** A block that ends the run has one position too many. */
  lemma OverfullTaken(sum: Checksum, s: State, head: BlockHead, bits: seq<bool>) returns (js: seq<nat>, rest: seq<bool>)
    requires head.Valid(s.k) && head.nSelectors > MAX_SELECTORS && Ends(sum, s.At(SelectorPlace(head.h, head.used, head.nGroups, head.nSelectors, [], 0)), bits)
    ensures Overfull(head, js).Valid(s.k) && head.Text() + bits == (head.Text() + UnaryBits(js, 0)) + rest
    ensures Proceed(sum, s.At(SelectorPlace(head.h, head.used, head.nGroups, head.nSelectors, [], 0)), bits) == Result(Overrun, s.output, rest)
  {
    hide Proceed, BlockHead.Text, UnaryBits, Announced, InUse;
    js, rest := PositionsTaken(sum, s, head.h, head.used, head.nGroups, head.nSelectors, [], bits);
    Associate(head.Text(), UnaryBits(js, 0), rest);
  }

  /** A block with room for its selectors is read to its column. */
  lemma RoomyTaken(sum: Checksum, s: State, head: BlockHead, bits: seq<bool>) returns (b: BlockText, rest: seq<bool>)
    requires 1 <= s.k <= 9 && head.Valid(s.k) && head.nSelectors <= MAX_SELECTORS && Ends(sum, s.At(SelectorPlace(head.h, head.used, head.nGroups, head.nSelectors, [], 0)), bits)
    ensures b.Valid(s.k) && b.Head() == head && head.Text() + bits == b.Text() + rest
    ensures Proceed(sum, s.At(SelectorPlace(head.h, head.used, head.nGroups, head.nSelectors, [], 0)), bits) == Proceed(sum, s.At(Output(b.h, b.Column())), rest)
  {
    hide Proceed, BlockHead.Text, UnaryBits, Announced, InUse, SelectorOf, BlockText.Valid, BlockText.Text, BlockText.Column;
    var js, later := PositionsTaken(sum, s, head.h, head.used, head.nGroups, head.nSelectors, [], bits);
    b, rest := BodyTaken(sum, s, head, js, later);
  }

  lemma OutputTaken(sum: Checksum, s: State, b: BlockText, bits: seq<bool>)
    requires b.Valid(s.k) && Ends(sum, s.At(Output(b.h, b.Column())), bits)
    ensures b.Good(sum, s.k)
    ensures Proceed(sum, s.At(Output(b.h, b.Column())), bits) == Proceed(sum, State(s.k, sum.combine(s.combined, b.h.crc), s.output + b.Bytes(), BlockStart), bits)
  {
    hide Proceed, BlockText.Valid, BlockText.Column, BlockBytes;
    ColumnLength(b, s.k);
    NothingRead(sum, s.At(Output(b.h, b.Column())), bits);
  }

  /** Where a block may start, good blocks follow one another up to the trailer or to a block with too many selectors. */
  lemma {:induction false} BlocksTaken(sum: Checksum, s: State, bits: seq<bool>) returns (blocks: seq<BlockText>, finish: Finish, rest: seq<bool>)
    requires 1 <= s.k <= 9 && s.stage == BlockStart && Ends(sum, s, bits)
    ensures AllGood(sum, s.k, blocks) && finish.Valid(s.k)
    ensures bits == BlocksText(blocks) + (finish.Text(Folded(sum, s.combined, blocks)) + rest)
    ensures Proceed(sum, s, bits) == Result(finish.Status(), s.output + AllBytes(blocks), rest)
    decreases |bits|
  {
    hide Proceed, ToBits, BytesFrom, BlockText.Good, BlockText.Valid, BlockText.Text, BlockText.Column, BlockText.Bytes, BlockText.Head, BlockHead.Valid, BlockHead.Text, OneTooMany;
    var v, r1 := ByteTaken(sum, s, bits);
    if v == 0x17 {
      blocks, finish := [], EndOfStream;
      rest := TrailerTaken(sum, s, r1);
      assert [] + bits == bits && s.output + [] == s.output;
    } else {
      var head, r2 := HeadTaken(sum, s, r1);
      if head.nSelectors > MAX_SELECTORS {
        var js;
        js, rest := OverfullTaken(sum, s, head, r2);
        blocks, finish := [], Overfull(head, js);
        assert [] + bits == bits && s.output + [] == s.output;
      } else {
        var b, r3 := RoomyTaken(sum, s, head, r2);
        OutputTaken(sum, s, b, r3);
        HasMagic(b, s.k, bits, r3);
        var more;
        more, finish, rest := BlocksTaken(sum, State(s.k, sum.combine(s.combined, b.h.crc), s.output + b.Bytes(), BlockStart), r3);
        blocks := [b] + more;
        assert blocks[1..] == more;
        Associate(b.Text(), BlocksText(more), finish.Text(Folded(sum, s.combined, blocks)) + rest);
        Associate(s.output, b.Bytes(), AllBytes(more));
      }
    }
  }

  /** A block takes up space. */
  lemma HasMagic(b: BlockText, k: nat, bits: seq<bool>, rest: seq<bool>)
    requires b.Valid(k) && bits == b.Text() + rest
    ensures |rest| < |bits|
  {
    hide RowText, UnaryBits, TablesText, SymbolBits;
  }

  /**
   * Every run that is not cut short and reports no error has followed a header and good blocks, each with
   * the checksum of the bytes that are put out for it, to the trailer with their combined checksum, or to
   * a block with one selector too many.
   */
  lemma AcceptedIsText(sum: Checksum, bits: seq<bool>) returns (k: nat, blocks: seq<BlockText>, finish: Finish)
    requires Ends(sum, Initial(), bits)
    ensures Begins(sum, k, blocks, finish, bits)
    ensures DecodeStream(sum, bits) == Result(finish.Status(), AllBytes(blocks), bits[|FullText(sum, k, blocks, finish)|..])
  {
    hide Proceed, BytesFrom, AllGood, BlocksText, Folded, AllBytes, Finish.Text, Finish.Valid;
    var later, rest;
    k, later := FileHeaderTaken(sum, 0, bits);
    blocks, finish, rest := BlocksTaken(sum, State(k, [0, 0, 0, 0], [], BlockStart), later);
    assert [] + AllBytes(blocks) == AllBytes(blocks);
    ThreeParts(BytesFrom(FileMagic(k), 0), BlocksText(blocks), finish.Text(Folded(sum, [0, 0, 0, 0], blocks)), rest);
    assert bits == FullText(sum, k, blocks, finish) + rest;
  }

  /** What the bits begin with decides how the run ends and what it puts out. */
  lemma BeginsDecides(sum: Checksum, k: nat, blocks: seq<BlockText>, finish: Finish, bits: seq<bool>)
    requires sum.Good() && Begins(sum, k, blocks, finish, bits)
    ensures DecodeStream(sum, bits).status == finish.Status() && DecodeStream(sum, bits).output == AllBytes(blocks)
  {
    hide DecodeStream, Checksum.Good, AllGood, AllBytes, FullText, Finish.Valid, Finish.Status;
    var n := |FullText(sum, k, blocks, finish)|;
    assert bits == FullText(sum, k, blocks, finish) + bits[n..];
    TextDecodes(sum, k, blocks, finish, bits[n..]);
  }

  /** The decompressor reports the end of the stream exactly if the bits begin with a stream of good blocks, and the bytes of any such blocks are its output. */
  lemma AcceptedIffText(sum: Checksum, bits: seq<bool>)
    requires sum.Good()
    ensures DecodeStream(sum, bits).status == StreamEnd <==> exists k, blocks :: Begins(sum, k, blocks, EndOfStream, bits)
    ensures forall k, blocks :: Begins(sum, k, blocks, EndOfStream, bits) ==> DecodeStream(sum, bits).output == AllBytes(blocks)
  {
    hide Proceed, Checksum.Good, Begins, AllBytes;
    if DecodeStream(sum, bits).status == StreamEnd { var k, blocks, finish := AcceptedIsText(sum, bits); }
    forall k, blocks | Begins(sum, k, blocks, EndOfStream, bits)
      ensures DecodeStream(sum, bits).status == StreamEnd && DecodeStream(sum, bits).output == AllBytes(blocks)
    {
      BeginsDecides(sum, k, blocks, EndOfStream, bits);
    }
  }

  // ---------- Too many selectors ----------

  /**
   * The decompressor comes to a selector that has no place in its arrays exactly if the bits begin with
   * good blocks and a block that announces more than there is room for, with all positions up to that one.
   */
  lemma OverrunIffText(sum: Checksum, bits: seq<bool>)
    requires sum.Good()
    ensures DecodeStream(sum, bits).status == Overrun <==> exists k, blocks, head, js :: Begins(sum, k, blocks, Overfull(head, js), bits)
  {
    hide Proceed, Checksum.Good, Begins, AllBytes;
    if DecodeStream(sum, bits).status == Overrun {
      var k, blocks, finish := AcceptedIsText(sum, bits);
      assert Begins(sum, k, blocks, Overfull(finish.head, finish.js), bits);
    }
    forall k, blocks, head, js | Begins(sum, k, blocks, Overfull(head, js), bits)
      ensures DecodeStream(sum, bits).status == Overrun
    {
      BeginsDecides(sum, k, blocks, Overfull(head, js), bits);
    }
  }

  /** A selector misses the arrays only behind a number of selectors that is too large for them. */
  lemma OverrunReaches(sum: Checksum, bits: seq<bool>) returns (k: nat, blocks: seq<BlockText>, head: BlockHead)
    requires DecodeStream(sum, bits).status == Overrun
    ensures Reaches(sum, k, blocks, head, bits) && head.nSelectors > MAX_SELECTORS
  {
    hide Proceed, BlockHead.Text, BlockHead.Valid, UnaryBits, BytesFrom, BlocksText, OneTooMany, AllGood;
    var finish;
    k, blocks, finish := AcceptedIsText(sum, bits);
    head := finish.head;
    ThreeParts(BytesFrom(FileMagic(k), 0), BlocksText(blocks), head.Text(), UnaryBits(finish.js, 0));
  }

  /** No selector misses the arrays if every number of selectors that is reached is one they have room for. */
  lemma RoomForAll(sum: Checksum, bits: seq<bool>)
    requires forall k, blocks, head :: Reaches(sum, k, blocks, head, bits) ==> head.nSelectors <= MAX_SELECTORS
    ensures DecodeStream(sum, bits).status != Overrun
  {
    hide DecodeStream, Reaches;
    if DecodeStream(sum, bits).status == Overrun { var k, blocks, head := OverrunReaches(sum, bits); }
  }

  /** A stream whose first block announces one selector more than there is room for. */
  ghost function OverfullHead(): BlockHead {
    BlockHead(Header([0, 0, 0, 0], 0), [true] + seq(15, _ => false), [true] + seq(255, _ => false), 2, MAX_SELECTORS + 1)
  }

  lemma SomeStreamOverruns(sum: Checksum)
    requires sum.Good()
    ensures var head, js := OverfullHead(), seq(MAX_SELECTORS + 1, _ => 0);
            DecodeStream(sum, BytesFrom(FileMagic(1), 0) + (head.Text() + UnaryBits(js, 0))).status == Overrun
  {
    hide Proceed, Checksum.Good, BlockHead.Text, BytesFrom, UnaryBits;
    var head, js: seq<nat> := OverfullHead(), seq(MAX_SELECTORS + 1, _ => 0);
    HeadIsValid();
    var bits := FullText(sum, 1, [], Overfull(head, js));
    assert [] + (head.Text() + UnaryBits(js, 0)) == head.Text() + UnaryBits(js, 0);
    assert bits + [] == bits;
    TextDecodes(sum, 1, [], Overfull(head, js), []);
  }

  lemma HeadIsValid()
    ensures OverfullHead().Valid(1)
  {
    var used := OverfullHead().used;
    RankOrder(used, 0, 256);
    forall i | 0 <= i < 16 && !OverfullHead().flags[i] ensures used[16 * i..16 * i + 16] == NoRow() { assert i > 0; }
  }
}
