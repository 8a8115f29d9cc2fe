/** What the compressor sends is written as the format has it. */
module SentBlocks {
  import opened Sequences
  import opened Words
  import opened Checksums
  import opened RunCoding
  import opened BurrowsWheeler
  import opened Bits
  import opened ByteMaps
  import opened MoveToFront
  import opened CanonicalHuffman
  import opened SymbolCoding
  import opened BlockFormat
  import opened BlockSender
  import opened ColumnSteps
  import opened StreamFormat
  import opened StreamSteps
  import opened StreamText

  // ---------- Mapping table ----------

  /** The rows in which some byte is in use. */
  ghost function RowFlags(u: seq<bool>): (r: seq<bool>)
    requires |u| == 256
    ensures |r| == 16 && forall i :: 0 <= i < 16 ==> r[i] == RowUsed(u, i)
  {
    seq(16, i requires 0 <= i < 16 && |u| == 256 => RowUsed(u, i))
  }

  lemma {:induction false} FlagsText(u: seq<bool>, i: nat)
    requires |u| == 256 && i <= 16
    ensures FlagBits(u, i) == RowFlags(u)[i..] && RowBits(u, i) == RowText(RowFlags(u), u, i)
    decreases 16 - i
  {
    hide RowUsed;
    if i < 16 {
      FlagsText(u, i + 1);
      assert RowFlags(u)[i..] == [RowFlags(u)[i]] + RowFlags(u)[i + 1..];
    }
  }

  lemma FlagsAnnounce(u: seq<bool>)
    requires |u| == 256
    ensures Announced(RowFlags(u), u)
  {
    forall i | 0 <= i < 16 && !RowFlags(u)[i] ensures u[16 * i..16 * i + 16] == NoRow() {
      var row := u[16 * i..16 * i + 16];
      forall j | 0 <= j < 16 ensures row[j] == NoRow()[j] { assert row[j] ==> true in row; }
    }
  }

  // ---------- Coding tables ----------

  /** The steps straight from one length to another. */
  ghost function Straight(curr: int, l: int): seq<bool>
    decreases if curr < l then l - curr else curr - l
  {
    if curr < l then [false] + Straight(curr + 1, l) else if curr > l then [true] + Straight(curr - 1, l) else []
  }

  lemma {:induction false} StraightWalk(curr: int, l: int)
    requires 1 <= curr <= LONGEST_CODE && 1 <= l <= LONGEST_CODE
    ensures WalkText(Straight(curr, l)) == Moves(curr, l) && Walked(curr, Straight(curr, l)) == l && InRange(curr, Straight(curr, l))
    decreases if curr < l then l - curr else curr - l
  {
    if curr != l {
      var next := if curr < l then curr + 1 else curr - 1;
      StraightWalk(next, l);
      assert Straight(curr, l)[1..] == Straight(next, l);
    }
  }

  /** Straight walks from each length to the next, from the i-th on. */
  ghost function StraightWalks(len: seq<int>, curr: int, i: nat): (walks: seq<seq<bool>>)
    requires i <= |len|
    ensures |walks| == |len| - i
    decreases |len| - i
  {
    if i == |len| then [] else [Straight(curr, len[i])] + StraightWalks(len, len[i], i + 1)
  }

  lemma {:induction false} WalksAreLengths(len: seq<int>, curr: int, i: nat)
    requires Lengths(len) && i <= |len| && 1 <= curr <= LONGEST_CODE
    ensures var walks := StraightWalks(len, curr, i);
            WalksText(walks) == LengthBits(len, curr, i) && WalkedLengths(curr, walks) == len[i..] && AllInRange(curr, walks)
    decreases |len| - i
  {
    if i < |len| {
      StraightWalk(curr, len[i]);
      WalksAreLengths(len, len[i], i + 1);
      assert StraightWalks(len, curr, i)[1..] == StraightWalks(len, len[i], i + 1);
      assert len[i..] == [len[i]] + len[i + 1..];
    }
  }

  /** A table as it is sent. */
  ghost function TableOf(len: seq<int>): TableText
    requires Lengths(len) && len != []
  {
    TableText(len[0], StraightWalks(len, len[0], 0))
  }

  lemma TableIsText(len: seq<int>)
    requires Lengths(len) && len != []
    ensures TableOf(len).Text() == TableBits(len) && TableOf(len).Lengths() == len && TableOf(len).Valid(|len|)
  {
    WalksAreLengths(len, len[0], 0);
    assert len[0..] == len;
  }

  ghost predicate Tables(lens: seq<seq<int>>) {
    forall t :: 0 <= t < |lens| ==> Lengths(lens[t]) && lens[t] != []
  }

  ghost function TablesOf(lens: seq<seq<int>>, t: nat): (r: seq<TableText>)
    requires Tables(lens) && t <= |lens|
    ensures |r| == |lens| - t && forall i :: 0 <= i < |r| ==> r[i] == TableOf(lens[t + i])
    decreases |lens| - t
  {
    if t == |lens| then [] else [TableOf(lens[t])] + TablesOf(lens, t + 1)
  }

  lemma {:induction false} TablesAreText(lens: seq<seq<int>>, t: nat)
    requires Tables(lens) && t <= |lens|
    ensures TablesText(TablesOf(lens, t)) == TablesBits(lens, t) && AllLengths(TablesOf(lens, t)) == lens[t..]
    decreases |lens| - t
  {
    hide Lengths, TableOf, TableText.Text, TableText.Lengths, TableBits;
    if t < |lens| {
      TableIsText(lens[t]);
      TablesAreText(lens, t + 1);
      assert TablesOf(lens, t)[1..] == TablesOf(lens, t + 1);
      assert lens[t..] == [lens[t]] + lens[t + 1..];
    }
  }

  // ---------- Symbols ----------

  lemma {:induction false} SendableIsReadable(lens: seq<seq<int>>, selector: seq<nat>, k: nat, syms: seq<nat>)
    requires Sendable(lens, selector, k, syms)
    ensures AllReadable(lens, selector, k, syms)
    decreases |syms|
  {
    hide Sendable, SendableAt, SymbolCode, SymbolAt;
    if syms != [] {
      SendableTail(lens, selector, k, syms);
      SymbolComes(lens, selector, k, syms[0], []);
      assert SymbolCode(lens, selector, k, syms[0]) + [] == SymbolCode(lens, selector, k, syms[0]);
      SendableIsReadable(lens, selector, k + 1, syms[1..]);
    }
  }

  lemma {:induction false} WholeMakes(want: seq<nat>, m: nat, nInUse: nat, nblockMAX: nat)
    requires Whole(want, nInUse, nblockMAX) && m < |want| && 1 <= nInUse <= 256 && nblockMAX <= 900_000
    ensures Makes(Read(Start(), want[..m]), want[m..], nInUse, nblockMAX, Decoded(want[..|want| - 1]))
    decreases |want| - m
  {
    hide Read, Take, Whole, Decoded;
    TakesNext(want, m, nInUse, nblockMAX);
    assert want[m..][0] == want[m] && want[m..][1..] == want[m + 1..];
    if m < |want| - 1 { WholeMakes(want, m + 1, nInUse, nblockMAX); }
  }

  // ---------- Blocks ----------

  /** A block as it was sent. */
  ghost function TextOf(b: Sent): BlockText {
    if b.body.Valid() && b.body.syms != [] && Tables(b.body.lens) then
      BlockText(Header(b.crc, b.origPtr), RowFlags(b.body.inUse), b.body.inUse, b.body.positions, TablesOf(b.body.lens, 0), b.body.syms,
                Decoded(b.body.syms[..|b.body.syms| - 1]))
    else BlockText(Header(b.crc, b.origPtr), [], [], [], [], [], [])
  }

  lemma BodyTables(lens: seq<seq<int>>)
    requires forall t :: 0 <= t < |lens| ==> Decodable(lens[t]) && lens[t] != []
    ensures Tables(lens)
  {
    hide Kraft, Lengths;
    forall t | 0 <= t < |lens| ensures Lengths(lens[t]) { assert Decodable(lens[t]); }
  }

  /** The bits that were sent are the block's text. */
  lemma SentText(b: Sent)
    requires b.body.Valid() && b.body.syms != []
    ensures TextOf(b).Text() == b.Bits()
  {
    hide Kraft, Decodable, Lengths, FlagBits, RowBits, TablesBits, SymbolBits, UnaryBits, TablesText, AllLengths, RowText, BlockHeaderBits, SelectorOf, Decoded, ToBits, TablesAfter;
    var body := b.body;
    BodyTables(body.lens);
    FlagsText(body.inUse, 0);
    assert RowFlags(body.inUse)[0..] == RowFlags(body.inUse);
    TablesAreText(body.lens, 0);
    assert body.lens[0..] == body.lens;
    SelectorIs(|body.lens|, body.positions, body.selector);
    HeadAndBody(BlockHeaderBits(b.crc, b.origPtr), FlagBits(body.inUse, 0), RowBits(body.inUse, 0), ToBits(|body.lens|, 3), ToBits(|body.positions|, 15),
                UnaryBits(body.positions, 0), body.TableInfo());
  }

  lemma HeadAndBody<T>(a: seq<T>, b: seq<T>, c: seq<T>, d: seq<T>, e: seq<T>, f: seq<T>, g: seq<T>)
    ensures (a + (b + (c + (d + e)))) + (f + g) == a + (b + (c + (d + (e + (f + g)))))
  {
  }

  lemma ColumnFits(syms: seq<nat>, u: seq<bool>, l: seq<byte>)
    requires |u| == 256 && (forall k :: 0 <= k < |l| ==> u[l[k]]) && Decoded(syms) == Ranks(u, l)
    ensures Reach(Read(Start(), syms)) == |Decoded(syms)| == |l|
  {
    hide Read, Rank;
  }

  lemma SentTables(lens: seq<seq<int>>, u: seq<bool>)
    requires |u| == 256 && Tables(lens) && forall t :: 0 <= t < |lens| ==> |lens[t]| == Rank(u, 256) + 2
    ensures forall t :: 0 <= t < |lens| ==> TablesOf(lens, 0)[t].Valid(AlphaSize(u))
  {
    hide Lengths, Rank, TableText.Valid, TableOf;
    forall t | 0 <= t < |lens| ensures TablesOf(lens, 0)[t].Valid(AlphaSize(u)) { TableIsText(lens[t]); }
  }

  /** The symbols that are sent can be read, and make the ranks of the column. */
  lemma SentSymbols(body: Body, l: seq<byte>, k: nat)
    requires 1 <= k <= 9 && body.Valid() && Carries(body, body.inUse, l) && |l| <= 100_000 * k
    ensures AllReadable(body.lens, body.selector, 0, body.syms)
    ensures Makes(Start(), body.syms, AlphaSize(body.inUse) - 2, 100_000 * k, Decoded(body.syms[..|body.syms| - 1]))
  {
    hide Rank, Read, Ranks, Sendable, Decoded, AllReadable, Makes, Body.Valid;
    var u, init := body.inUse, body.syms[..|body.syms| - 1];
    ColumnFits(init, u, l);
    assert body.syms[0..] == body.syms && body.syms[..0] == [];
    SendableIsReadable(body.lens, body.selector, 0, body.syms);
    NothingYet();
    RankBound(u);
    WholeMakes(body.syms, 0, Rank(u, 256), 100_000 * k);
  }

  /** The ranks of the column are turned back into it. */
  lemma SentColumn(body: Body, l: seq<byte>)
    requires Carries(body, body.inUse, l) && body.syms != []
    ensures var ranks := Decoded(body.syms[..|body.syms| - 1]); |ranks| == |l| && Mapped(Names(body.inUse), ranks) == l
    ensures |body.inUse| == 256 && InUse(body.inUse) && body.Valid()
    ensures forall t :: 0 <= t < |body.lens| ==> |body.lens[t]| == Rank(body.inUse, 256) + 2
  {
    hide Rank, Ranks, Names, Sendable, Decoded, Mapped, Body.Valid;
    ColumnFits(body.syms[..|body.syms| - 1], body.inUse, l);
    NamesUndoRanks(body.inUse, l);
  }

  /** What is sent is a valid block with the column it carries. */
  lemma SentIsValid(b: Sent, k: nat)
    requires 1 <= k <= 9 && b.body.Valid() && Carries(b.body, b.body.inUse, b.column) && b.origPtr < |b.column| <= 100_000 * k && |b.crc| == 4
    ensures TextOf(b).Valid(k) && TextOf(b).Column() == b.column
  {
    hide Carries, Rank, Names, Decoded, TablesAfter, AllReadable, Makes, Lengths, Decodable, Kraft, RowUsed, AllLengths, SelectorOf, TableText.Valid, Mapped, TableOf, Announced, InUse;
    var body, u := b.body, b.body.inUse;
    CarriesSyms(body, b.column);
    BodyTables(body.lens);
    SentColumn(body, b.column);
    FlagsAnnounce(u);
    SentTables(body.lens, u);
    TablesAreText(body.lens, 0);
    assert body.lens[0..] == body.lens;
    SelectorIs(|body.lens|, body.positions, body.selector);
    SentSymbols(body, b.column, k);
  }

  lemma NothingYet()
    ensures Read(Start(), []) == Start()
  {
  }

  /** A good block that was sent is a good block of the format, for the same bytes. */
  lemma SentIsGood(sum: Checksum, b: Sent, k: nat)
    requires sum.Good() && 1 <= k <= 9 && b.Ok(sum, 100_000 * k)
    ensures TextOf(b).Good(sum, k) && TextOf(b).Bytes() == Flatten(b.runs) && TextOf(b).Text() == b.Bits()
  {
    hide Carries, Body.Valid, BlockText.Valid, BlockText.Column, Unsorted, Fetched, Expand, Encodable, EncodeRuns, Flatten, Body.Encoding, BlockText.Text, Sent.Bits;
    assert |sum.OfBytes(Flatten(b.runs))| == 4;
    CarriesSyms(b.body, b.column);
    SentIsValid(b, k);
    SentText(b);
    ExpandInvertsEncode(b.runs, Fetched(b.column, b.origPtr, |b.column|));
    TextFields(b);
    ValidOrigPtr(TextOf(b), k);
  }

  lemma CarriesSyms(body: Body, l: seq<byte>)
    requires Carries(body, body.inUse, l)
    ensures body.syms != []
  {
  }

  lemma TextFields(b: Sent)
    ensures TextOf(b).h == Header(b.crc, b.origPtr)
  {
  }

  lemma ValidOrigPtr(b: BlockText, k: nat)
    requires b.Valid(k)
    ensures b.h.origPtr < |b.ranks|
  {
  }

  // ---------- Streams ----------

  ghost function TextsOf(sent: seq<Sent>, i: nat): (r: seq<BlockText>)
    requires i <= |sent|
    ensures |r| == |sent| - i && forall j :: 0 <= j < |r| ==> r[j] == TextOf(sent[i + j])
    decreases |sent| - i
  {
    if i == |sent| then [] else [TextOf(sent[i])] + TextsOf(sent, i + 1)
  }

  lemma {:induction false} SentAreBlocks(sum: Checksum, k: nat, sent: seq<Sent>, i: nat)
    requires sum.Good() && 1 <= k <= 9 && i <= |sent| && AllOk(sent, sum, 100_000 * k) && forall j :: 0 <= j < |sent| ==> sent[j].body.Valid()
    ensures AllGood(sum, k, TextsOf(sent, i)) && BlocksText(TextsOf(sent, i)) == BlocksBits(sent, i)
    decreases |sent| - i
  {
    hide Sent.Bits, Sent.Ok, Body.Valid, Flatten, Checksum.Good, BlockText.Good, BlockText.Text, BlockText.Bytes, TextOf;
    if i < |sent| {
      assert sent[i].Ok(sum, 100_000 * k);
      SentIsGood(sum, sent[i], k);
      SentAreBlocks(sum, k, sent, i + 1);
      assert TextsOf(sent, i)[1..] == TextsOf(sent, i + 1);
    }
  }

  lemma {:induction false} SentAreBytes(sum: Checksum, k: nat, sent: seq<Sent>, i: nat)
    requires sum.Good() && 1 <= k <= 9 && i <= |sent| && AllOk(sent, sum, 100_000 * k)
    ensures BytesOf(sent, i) + AllBytes(TextsOf(sent, i)) == BytesOf(sent, |sent|)
    ensures Folded(sum, Combined(sum, sent, i), TextsOf(sent, i)) == Combined(sum, sent, |sent|)
    decreases |sent| - i
  {
    hide Sent.Bits, Sent.Ok, Flatten, Checksum.Good, BlockText.Good, BlockText.Text, BlockText.Bytes, TextOf;
    var blocks := TextsOf(sent, i);
    if i < |sent| {
      assert sent[i].Ok(sum, 100_000 * k);
      SentIsGood(sum, sent[i], k);
      TextFields(sent[i]);
      SentAreBytes(sum, k, sent, i + 1);
      assert blocks[1..] == TextsOf(sent, i + 1);
      Associate(BytesOf(sent, i), blocks[0].Bytes(), AllBytes(blocks[1..]));
    } else {
      assert BytesOf(sent, i) + [] == BytesOf(sent, i);
    }
  }

  /** The blocks of a stream that was sent, as the format has them. */
  lemma SentAreGood(sum: Checksum, k: nat, sent: seq<Sent>)
    requires sum.Good() && 1 <= k <= 9 && AllOk(sent, sum, 100_000 * k) && forall j :: 0 <= j < |sent| ==> sent[j].body.Valid()
    ensures var blocks := TextsOf(sent, 0);
            && AllGood(sum, k, blocks) && BlocksText(blocks) == BlocksBits(sent, 0)
            && AllBytes(blocks) == BytesOf(sent, |sent|) && Folded(sum, [0, 0, 0, 0], blocks) == Combined(sum, sent, |sent|)
  {
    hide AllOk, Body.Valid, AllGood, BlocksText, BlocksBits, AllBytes, Folded, TextsOf, Checksum.Good;
    SentAreBlocks(sum, k, sent, 0);
    SentAreBytes(sum, k, sent, 0);
    var blocks := TextsOf(sent, 0);
    assert [] + AllBytes(blocks) == AllBytes(blocks);
  }
}
