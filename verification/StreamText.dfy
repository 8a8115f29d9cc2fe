/** Compressed streams as the format has them: every way to write the tables and symbols of a block. */
module StreamText {
  import opened Words
  import opened Checksums
  import opened Bits
  import opened MoveToFront
  import opened CanonicalHuffman
  import opened SymbolCoding
  import opened BlockFormat
  import opened BlockSender
  import opened ColumnSteps
  import opened StreamFormat
  import opened StreamSteps

  // ---------- Mapping table ----------

  /** The rows that the flags announce, from the i-th on. */
  ghost function RowText(flags: seq<bool>, used: seq<bool>, i: nat): seq<bool>
    requires |flags| == 16 && |used| == 256 && i <= 16
    decreases 16 - i
  {
    if i == 16 then [] else (if flags[i] then used[16 * i..16 * i + 16] else []) + RowText(flags, used, i + 1)
  }

  /** No byte of a row that is not announced is in use. */
  ghost predicate Announced(flags: seq<bool>, used: seq<bool>) {
    |flags| == 16 && |used| == 256 && forall i :: 0 <= i < 16 && !flags[i] ==> used[16 * i..16 * i + 16] == NoRow()
  }

  // ---------- Coding tables ----------

  /** Steps from one length to the next, down for true, and the mark that ends them. */
  ghost function WalkText(walk: seq<bool>): seq<bool> {
    if walk == [] then [false] else [true, walk[0]] + WalkText(walk[1..])
  }

  /** The length at the end of a walk. */
  ghost function Walked(curr: int, walk: seq<bool>): int
    decreases |walk|
  {
    if walk == [] then curr else Walked(if walk[0] then curr - 1 else curr + 1, walk[1..])
  }

  /** All lengths on the way are possible ones. */
  ghost predicate InRange(curr: int, walk: seq<bool>)
    decreases |walk|
  {
    1 <= curr <= LONGEST_CODE && (walk != [] ==> InRange(if walk[0] then curr - 1 else curr + 1, walk[1..]))
  }

  ghost function WalksText(walks: seq<seq<bool>>): seq<bool> {
    if walks == [] then [] else WalkText(walks[0]) + WalksText(walks[1..])
  }

  /** The lengths at the ends of walks, each of which goes on from the one before. */
  ghost function WalkedLengths(curr: int, walks: seq<seq<bool>>): (len: seq<int>)
    ensures |len| == |walks|
    decreases |walks|
  {
    if walks == [] then [] else [Walked(curr, walks[0])] + WalkedLengths(Walked(curr, walks[0]), walks[1..])
  }

  ghost predicate AllInRange(curr: int, walks: seq<seq<bool>>)
    decreases |walks|
  {
    walks != [] ==> InRange(curr, walks[0]) && AllInRange(Walked(curr, walks[0]), walks[1..])
  }

  /** A coding table: its first length, and a walk to the length of every symbol. */
  datatype TableText = TableText(start: nat, walks: seq<seq<bool>>) {
    ghost function Text(): seq<bool> {
      ToBits(start, 5) + WalksText(walks)
    }

    ghost function Lengths(): seq<int> {
      WalkedLengths(start, walks)
    }

    ghost predicate Valid(n: nat) {
      |walks| == n > 0 && start < 32 && AllInRange(start, walks)
    }
  }

  ghost function TablesText(tables: seq<TableText>): seq<bool> {
    if tables == [] then [] else tables[0].Text() + TablesText(tables[1..])
  }

  ghost function AllLengths(tables: seq<TableText>): (lens: seq<seq<int>>)
    ensures |lens| == |tables|
  {
    if tables == [] then [] else [tables[0].Lengths()] + AllLengths(tables[1..])
  }

  // ---------- Symbols ----------

  /** The code of the symbol is read as this symbol, whatever the table. */
  ghost predicate Readable(lens: seq<seq<int>>, selector: seq<nat>, k: nat, sym: nat) {
    SymbolAt(lens, selector, k, SymbolCode(lens, selector, k, sym)) == Arrived(sym, [])
  }

  ghost predicate AllReadable(lens: seq<seq<int>>, selector: seq<nat>, k: nat, syms: seq<nat>)
    decreases |syms|
  {
    syms != [] ==> Readable(lens, selector, k, syms[0]) && AllReadable(lens, selector, k + 1, syms[1..])
  }

  /** The symbols make a column of these ranks, with the end mark at their end and nowhere else. */
  ghost predicate Makes(flat: Flat, syms: seq<nat>, nInUse: nat, nblockMAX: nat, ranks: seq<byte>)
    decreases |syms|
  {
    syms != [] &&
    match Take(flat, syms[0], nInUse, nblockMAX)
    case Refused => false
    case More(flat') => Makes(flat', syms[1..], nInUse, nblockMAX, ranks)
    case Complete(r) => |syms| == 1 && r == ranks
  }

  // ---------- Blocks and streams ----------

  /** A block up to its selectors: header, mapping table, and the numbers of tables and of selectors. */
  datatype BlockHead = BlockHead(h: Header, flags: seq<bool>, used: seq<bool>, nGroups: nat, nSelectors: nat) {
    ghost predicate Valid(k: nat) {
      && |h.crc| == 4 && h.origPtr <= 10 + 100_000 * k && h.origPtr < 0x100_0000
      && Announced(flags, used) && InUse(used) && 2 <= nGroups <= 6 && 1 <= nSelectors < 0x8000
    }

    ghost function Text(): seq<bool> {
      if |flags| == 16 && |used| == 256 then
        BlockHeaderBits(h.crc, h.origPtr) + (flags + (RowText(flags, used, 0) + (ToBits(nGroups, 3) + ToBits(nSelectors, 15))))
      else []
    }
  }

  /** A block as its text has it: header, mapping table, list positions of the tables, tables, symbols, and the ranks that the symbols make. */
  datatype BlockText = BlockText(h: Header, flags: seq<bool>, used: seq<bool>, js: seq<nat>, tables: seq<TableText>, syms: seq<nat>, ranks: seq<byte>) {
    ghost function Head(): BlockHead {
      BlockHead(h, flags, used, |tables|, |js|)
    }

    ghost predicate Valid(k: nat) {
      && Head().Valid(k) && h.origPtr < |ranks| <= 100_000 * k
      && |js| <= MAX_SELECTORS && AllBelow(js, |tables|)
      && (forall t :: 0 <= t < |tables| ==> tables[t].Valid(AlphaSize(used)))
      && AllReadable(AllLengths(tables), SelectorOf(|tables|, js), 0, syms)
      && Makes(Start(), syms, AlphaSize(used) - 2, 100_000 * k, ranks)
    }

    ghost function Text(): seq<bool> {
      Head().Text() + (UnaryBits(js, 0) + (TablesText(tables) + SymbolBits(AllLengths(tables), SelectorOf(|tables|, js), 0, syms)))
    }

    ghost function Column(): seq<byte> {
      Mapped(Names(used), ranks)
    }

    /** The bytes of the block. */
    ghost function Bytes(): seq<byte> {
      if h.origPtr < |ranks| then BlockBytes(Column(), h.origPtr).bytes else []
    }

    /** The column unsorts and expands cleanly, to bytes with the checksum of the header. */
    ghost predicate Good(sum: Checksum, k: nat) {
      Valid(k) && BlockBytes(Column(), h.origPtr).complete && sum.OfBytes(Bytes()) == h.crc
    }
  }

  /** The parts of the head of a block, one after another. */
  lemma HeadParts<T>(a: seq<T>, b: seq<T>, c: seq<T>, d: seq<T>, e: seq<T>, tail: seq<T>)
    ensures (a + (b + (c + (d + e)))) + tail == a + (b + (c + (d + (e + tail))))
  {
  }

  /** Four parts, one after another. */
  lemma FourParts<T>(a: seq<T>, b: seq<T>, c: seq<T>, d: seq<T>, tail: seq<T>)
    ensures (a + (b + (c + d))) + tail == a + (b + (c + (d + tail)))
  {
  }

  ghost predicate AllGood(sum: Checksum, k: nat, blocks: seq<BlockText>) {
    forall i :: 0 <= i < |blocks| ==> blocks[i].Good(sum, k)
  }

  ghost function BlocksText(blocks: seq<BlockText>): seq<bool> {
    if blocks == [] then [] else blocks[0].Text() + BlocksText(blocks[1..])
  }

  /** The bytes of the blocks, one after another. */
  ghost function AllBytes(blocks: seq<BlockText>): seq<byte> {
    if blocks == [] then [] else blocks[0].Bytes() + AllBytes(blocks[1..])
  }

  /** The checksums of the blocks combined with the one before them. */
  ghost function Folded(sum: Checksum, combined: seq<byte>, blocks: seq<BlockText>): seq<byte>
    decreases |blocks|
  {
    if blocks == [] then combined else Folded(sum, sum.combine(combined, blocks[0].h.crc), blocks[1..])
  }

  /** List positions of which one more is there than there is room for. */
  ghost predicate OneTooMany(js: seq<nat>, nGroups: nat) {
    |js| == MAX_SELECTORS + 1 && AllBelow(js, nGroups)
  }

  /**
   * What comes behind good blocks: the trailer, or a block that announces more selectors than there is
   * room for, up to the position that finds no room.
   */
  datatype Finish = EndOfStream | Overfull(head: BlockHead, js: seq<nat>) {
    ghost predicate Valid(k: nat) {
      Overfull? ==> head.Valid(k) && head.nSelectors > MAX_SELECTORS && OneTooMany(js, head.nGroups)
    }

    ghost function Text(combined: seq<byte>): seq<bool> {
      if EndOfStream? then BytesFrom(EndMagic() + combined, 0) else head.Text() + UnaryBits(js, 0)
    }

    ghost function Status(): Status {
      if EndOfStream? then StreamEnd else Overrun
    }
  }

  /** Magic number and block size, blocks, and what comes behind them. */
  ghost function FullText(sum: Checksum, k: nat, blocks: seq<BlockText>, finish: Finish): seq<bool>
    requires 1 <= k <= 9
  {
    BytesFrom(FileMagic(k), 0) + (BlocksText(blocks) + finish.Text(Folded(sum, [0, 0, 0, 0], blocks)))
  }

  /** The bits begin with good blocks and this behind them. */
  ghost predicate Begins(sum: Checksum, k: nat, blocks: seq<BlockText>, finish: Finish, bits: seq<bool>) {
    1 <= k <= 9 && AllGood(sum, k, blocks) && finish.Valid(k) && FullText(sum, k, blocks, finish) <= bits
  }

  /** The bits begin with good blocks and the next one up to its number of selectors. */
  ghost predicate Reaches(sum: Checksum, k: nat, blocks: seq<BlockText>, head: BlockHead, bits: seq<bool>) {
    1 <= k <= 9 && AllGood(sum, k, blocks) && head.Valid(k) && BytesFrom(FileMagic(k), 0) + (BlocksText(blocks) + head.Text()) <= bits
  }

  /** The numbers of the format: groups of fifty symbols, codes of up to 20 bits, 18002 selectors, and runs below a place of 2^21. */
  lemma Limits(lens: seq<seq<int>>, selector: seq<nat>, k: nat, sym: nat, curr: int, js: seq<nat>, flat: Flat, nInUse: nat, nblockMAX: nat)
    ensures k / 50 < |selector| && selector[k / 50] < |lens| && CanonicalHuffman.Lengths(lens[selector[k / 50]]) && sym < |lens[selector[k / 50]]| ==>
              SymbolCode(lens, selector, k, sym) == CodeBits(lens[selector[k / 50]], sym)
    ensures InRange(curr, []) <==> 1 <= curr <= 20
    ensures OneTooMany(js, 6) ==> |js| == 18_003
    ensures sym <= 1 && flat.place >= 2_097_152 ==> Take(flat, sym, nInUse, nblockMAX) == Refused
    ensures sym <= 1 && flat.list != [] && flat.place < 2_097_152 ==> Take(flat, sym, nInUse, nblockMAX) != Refused
  {
  }
}
