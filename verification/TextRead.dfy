/** The decompressor reads every block that is written as the format has it. */
module TextRead {
  import opened Sequences
  import opened Words
  import opened Checksums
  import opened Powers
  import opened Bits
  import opened ByteMaps
  import opened MoveToFront
  import opened SymbolCoding
  import opened BlockFormat
  import opened BlockSender
  import opened ColumnSteps
  import opened StreamSteps
  import opened StreamText

  lemma NumberRead(sum: Checksum, s: State, v: nat, n: nat, tail: seq<bool>)
    requires !s.stage.Symbols? && Width(s.stage) == n && v < Pow2(n)
    ensures Proceed(sum, s, ToBits(v, n) + tail) == Follow(sum, Next(sum, s, v), tail)
  {
    hide Next, Width, Proceed, Follow, ToBits, Pow2;
    FieldRead(sum, s, n, ToBits(v, n), tail);
    ValueOfToBits(v, n);
    assert ToBits(v, n)[..n] == ToBits(v, n);
    assert ToBits(v, n)[n..] + tail == tail;
  }

  lemma BitRead(sum: Checksum, s: State, b: bool, tail: seq<bool>)
    requires !s.stage.Symbols? && Width(s.stage) == 1
    ensures Proceed(sum, s, [b] + tail) == Follow(sum, Next(sum, s, if b then 1 else 0), tail)
  {
    hide Next, Width, Proceed, Follow, ToBits;
    BitField(b);
    NumberRead(sum, s, if b then 1 else 0, 1, tail);
  }

  /** The i-th of a string of bytes. */
  lemma ByteRead(sum: Checksum, s: State, bytes: seq<byte>, i: nat, tail: seq<bool>)
    requires !s.stage.Symbols? && Width(s.stage) == 8 && i < |bytes|
    ensures Proceed(sum, s, BytesFrom(bytes, i) + tail) == Follow(sum, Next(sum, s, bytes[i]), BytesFrom(bytes, i + 1) + tail)
  {
    hide Next, Width, Proceed, Follow, ToBits;
    Pow2Of24();
    Associate(ToBits(bytes[i], 8), BytesFrom(bytes, i + 1), tail);
    NumberRead(sum, s, bytes[i], 8, BytesFrom(bytes, i + 1) + tail);
  }

  // ---------- Header ----------

  lemma {:induction false} MagicRead(sum: Checksum, s: State, crc: seq<byte>, n: nat, tail: seq<bool>)
    requires 1 <= n <= 5
    ensures Proceed(sum, s.At(BlockMagicAt(n)), BytesFrom(BlockMagic() + crc, n) + tail) == Proceed(sum, s.At(BlockCrc([])), BytesFrom(BlockMagic() + crc, 6) + tail)
    decreases 6 - n
  {
    hide Proceed, BytesFrom;
    ByteRead(sum, s.At(BlockMagicAt(n)), BlockMagic() + crc, n, tail);
    if n < 5 { MagicRead(sum, s, crc, n + 1, tail); }
  }

  lemma {:induction false} CrcRead(sum: Checksum, s: State, crc: seq<byte>, n: nat, tail: seq<bool>)
    requires |crc| == 4 && n <= 3
    ensures Proceed(sum, s.At(BlockCrc(crc[..n])), BytesFrom(BlockMagic() + crc, 6 + n) + tail) == Proceed(sum, s.At(RandBit(crc)), tail)
    decreases 4 - n
  {
    hide Proceed, BytesFrom, AfterRows, AfterPosition, AfterCoding, AfterSymbol, AfterOutput;
    var s0 := s.At(BlockCrc(crc[..n]));
    assert (BlockMagic() + crc)[6 + n] == crc[n];
    ByteRead(sum, s0, BlockMagic() + crc, 6 + n, tail);
    assert crc[..n] + [crc[n]] == crc[..n + 1];
    if n < 3 {
      CrcRead(sum, s, crc, n + 1, tail);
    } else {
      assert crc[..4] == crc;
      NoMoreBytes(BlockMagic() + crc, tail);
    }
  }

  lemma NoMoreBytes(s: seq<byte>, tail: seq<bool>)
    ensures BytesFrom(s, |s|) + tail == tail
  {
  }

  /** Three bytes, highest first. */
  lemma ThreeBytes(bits: seq<bool>)
    requires |bits| == 24
    ensures 256 * (256 * Value(bits[..8]) + Value(bits[8..16])) + Value(bits[16..]) == Value(bits)
  {
    hide Value, Pow2;
    Pow2Of24();
    assert bits == bits[..16] + bits[16..] && bits[..16] == bits[..8] + bits[8..16];
    ValueConcat(bits[..16], bits[16..]);
    ValueConcat(bits[..8], bits[8..16]);
  }

  lemma FirstByte(sum: Checksum, s: State, bits: seq<bool>, tail: seq<bool>)
    requires !s.stage.Symbols? && Width(s.stage) == 8 && |bits| >= 8
    ensures Proceed(sum, s, bits + tail) == Follow(sum, Next(sum, s, Value(bits[..8])), bits[8..] + tail)
  {
    hide Next, Width, Proceed, Follow, Value;
    FieldRead(sum, s, 8, bits, tail);
  }

  lemma OrigPtrRead(sum: Checksum, s: State, crc: seq<byte>, p: nat, tail: seq<bool>)
    requires p < 0x100_0000 && p <= 10 + 100_000 * s.k
    ensures Proceed(sum, s.At(OrigPtr(crc, 0, 0)), ToBits(p, 24) + tail) == Proceed(sum, s.At(Flags(Header(crc, p), [])), tail)
  {
    hide Proceed, ToBits, Value, Pow2;
    Pow2Of24();
    var bits := ToBits(p, 24);
    ValueOfToBits(p, 24);
    ThreeBytes(bits);
    var a, b := Value(bits[..8]), Value(bits[8..16]);
    FirstByte(sum, s.At(OrigPtr(crc, 0, 0)), bits, tail);
    FirstByte(sum, s.At(OrigPtr(crc, 1, a)), bits[8..], tail);
    assert bits[8..][..8] == bits[8..16] && bits[8..][8..] == bits[16..];
    FirstByte(sum, s.At(OrigPtr(crc, 2, 256 * a + b)), bits[16..], tail);
    assert bits[16..][..8] == bits[16..] && bits[16..][8..] + tail == tail;
  }

  lemma HeaderRead(sum: Checksum, s: State, crc: seq<byte>, p: nat, tail: seq<bool>)
    requires |crc| == 4 && p < 0x100_0000 && p <= 10 + 100_000 * s.k
    ensures Proceed(sum, s.At(BlockStart), BlockHeaderBits(crc, p) + tail) == Proceed(sum, s.At(Flags(Header(crc, p), [])), tail)
  {
    hide Proceed, ToBits, BytesFrom;
    var after := [false] + (ToBits(p, 24) + tail);
    HeaderParts(BytesFrom(BlockMagic() + crc, 0), [false], ToBits(p, 24), tail);
    ByteRead(sum, s.At(BlockStart), BlockMagic() + crc, 0, after);
    MagicRead(sum, s, crc, 1, after);
    assert crc[..0] == [];
    CrcRead(sum, s, crc, 0, after);
    BitRead(sum, s.At(RandBit(crc)), false, ToBits(p, 24) + tail);
    OrigPtrRead(sum, s, crc, p, tail);
  }

  lemma HeaderParts<T>(a: seq<T>, b: seq<T>, c: seq<T>, tail: seq<T>)
    ensures (a + (b + c)) + tail == a + (b + (c + tail))
  {
  }

  // ---------- Mapping table ----------

  lemma {:induction false} FlagsRead(sum: Checksum, s: State, h: Header, flags: seq<bool>, i: nat, tail: seq<bool>)
    requires |flags| == 16 && i < 16
    ensures Proceed(sum, s.At(Flags(h, flags[..i])), flags[i..] + tail) == Proceed(sum, s.At(Rows(h, flags, [])), tail)
    decreases 16 - i
  {
    hide Proceed;
    assert flags[i..] + tail == [flags[i]] + (flags[i + 1..] + tail);
    BitRead(sum, s.At(Flags(h, flags[..i])), flags[i], flags[i + 1..] + tail);
    assert flags[..i] + [flags[i]] == flags[..i + 1];
    if i < 15 {
      FlagsRead(sum, s, h, flags, i + 1, tail);
    } else {
      assert flags[..16] == flags && flags[16..] + tail == tail;
    }
  }

  lemma {:induction false} InRow(sum: Checksum, s: State, h: Header, flags: seq<bool>, u: seq<bool>, i: nat, j: nat, tail: seq<bool>)
    requires |flags| == 16 && |u| == 256 && i < 16 && j <= 16 && flags[i]
    ensures Proceed(sum, s.At(Rows(h, flags, u[..16 * i + j])), u[16 * i + j..16 * i + 16] + tail) ==
            Proceed(sum, s.At(Rows(h, flags, u[..16 * i + 16])), tail)
    decreases 16 - j
  {
    hide Proceed;
    var q := 16 * i + j;
    if j < 16 {
      assert u[q..16 * i + 16] + tail == [u[q]] + (u[q + 1..16 * i + 16] + tail);
      assert u[..q] + [u[q]] == u[..q + 1];
      BitRead(sum, s.At(Rows(h, flags, u[..q])), u[q], u[q + 1..16 * i + 16] + tail);
      InRow(sum, s, h, flags, u, i, j + 1, tail);
    } else {
      assert u[q..q] + tail == tail;
    }
  }

  lemma {:induction false} RowsRead(sum: Checksum, s: State, h: Header, flags: seq<bool>, u: seq<bool>, i: nat, tail: seq<bool>)
    requires Announced(flags, u) && i <= 16
    ensures Proceed(sum, s.At(Rows(h, flags, u[..16 * i])), RowText(flags, u, i) + tail) == Proceed(sum, s.At(Rows(h, flags, u)), tail)
    decreases 16 - i
  {
    hide Proceed;
    if i == 16 {
      assert u[..256] == u && [] + tail == tail;
    } else {
      if flags[i] {
        Associate(u[16 * i..16 * i + 16], RowText(flags, u, i + 1), tail);
        assert u[..16 * i + 0] == u[..16 * i];
        InRow(sum, s, h, flags, u, i, 0, RowText(flags, u, i + 1) + tail);
      } else {
        assert u[..16 * i] + NoRow() == u[..16 * i + 16];
        assert [] + RowText(flags, u, i + 1) == RowText(flags, u, i + 1);
        NothingRead(sum, s.At(Rows(h, flags, u[..16 * i])), RowText(flags, u, i + 1) + tail);
      }
      RowsRead(sum, s, h, flags, u, i + 1, tail);
    }
  }

  lemma MappingRead(sum: Checksum, s: State, h: Header, flags: seq<bool>, u: seq<bool>, tail: seq<bool>)
    requires Announced(flags, u) && InUse(u)
    ensures Proceed(sum, s.At(Flags(h, [])), flags + (RowText(flags, u, 0) + tail)) == Proceed(sum, s.At(Groups(h, u)), tail)
  {
    hide Proceed, RowText, Rank;
    assert flags[..0] == [] && flags[0..] == flags && u[..16 * 0] == [];
    FlagsRead(sum, s, h, flags, 0, RowText(flags, u, 0) + tail);
    RowsRead(sum, s, h, flags, u, 0, tail);
    NothingRead(sum, s.At(Rows(h, flags, u)), tail);
  }

  // ---------- Selectors ----------

  lemma {:induction false} UnaryRead(sum: Checksum, s: State, h: Header, u: seq<bool>, nGroups: nat, nSelectors: nat, js: seq<nat>, j: nat, n: nat, tail: seq<bool>)
    requires j <= n < nGroups && |js| < nSelectors && |js| < MAX_SELECTORS
    ensures Proceed(sum, s.At(SelectorPlace(h, u, nGroups, nSelectors, js, j)), Unary(n - j) + tail) ==
            Proceed(sum, s.At(SelectorPlace(h, u, nGroups, nSelectors, js + [n], 0)), tail)
    decreases n - j
  {
    hide Proceed;
    var at := s.At(SelectorPlace(h, u, nGroups, nSelectors, js, j));
    if j < n {
      Associate([true], Unary(n - j - 1), tail);
      BitRead(sum, at, true, Unary(n - j - 1) + tail);
      UnaryRead(sum, s, h, u, nGroups, nSelectors, js, j + 1, n, tail);
    } else {
      BitRead(sum, at, false, tail);
    }
  }

  lemma {:induction false} PositionsRead(sum: Checksum, s: State, h: Header, u: seq<bool>, nGroups: nat, nSelectors: nat, js: seq<nat>, i: nat, tail: seq<bool>)
    requires i <= |js| <= MAX_SELECTORS && |js| <= nSelectors && AllBelow(js, nGroups)
    ensures Proceed(sum, s.At(SelectorPlace(h, u, nGroups, nSelectors, js[..i], 0)), UnaryBits(js, i) + tail) ==
            Proceed(sum, s.At(SelectorPlace(h, u, nGroups, nSelectors, js, 0)), tail)
    decreases |js| - i
  {
    hide Proceed, Unary;
    if i < |js| {
      Associate(Unary(js[i]), UnaryBits(js, i + 1), tail);
      UnaryRead(sum, s, h, u, nGroups, nSelectors, js[..i], 0, js[i], UnaryBits(js, i + 1) + tail);
      assert js[..i] + [js[i]] == js[..i + 1];
      PositionsRead(sum, s, h, u, nGroups, nSelectors, js, i + 1, tail);
    } else {
      assert js[..i] == js && [] + tail == tail;
    }
  }

  lemma {:induction false} UnaryAppend(js: seq<nat>, j: nat, i: nat)
    requires i <= |js|
    ensures UnaryBits(js + [j], i) == UnaryBits(js, i) + Unary(j)
    decreases |js| - i
  {
    hide Unary;
    if i < |js| {
      UnaryAppend(js, j, i + 1);
      Associate(Unary(js[i]), UnaryBits(js, i + 1), Unary(j));
    } else {
      assert UnaryBits(js + [j], i + 1) == [] && Unary(j) + [] == [] + Unary(j);
    }
  }

  /** All positions of a block that has room for them. */
  lemma SelectorsRead(sum: Checksum, s: State, h: Header, u: seq<bool>, nGroups: nat, js: seq<nat>, tail: seq<bool>)
    requires |js| <= MAX_SELECTORS && AllBelow(js, nGroups)
    ensures Proceed(sum, s.At(SelectorPlace(h, u, nGroups, |js|, [], 0)), UnaryBits(js, 0) + tail) ==
            Proceed(sum, s.At(Tables(h, u, SelectorOf(nGroups, js), nGroups, [], FirstLength)), tail)
  {
    hide Proceed, SelectorOf, UnaryBits;
    assert js[..0] == [];
    PositionsRead(sum, s, h, u, nGroups, |js|, js, 0, tail);
    NothingRead(sum, s.At(SelectorPlace(h, u, nGroups, |js|, js, 0)), tail);
  }

  /** The position that finds no room. */
  lemma {:induction false} LastUnaryRead(sum: Checksum, s: State, h: Header, u: seq<bool>, nGroups: nat, nSelectors: nat, js: seq<nat>, j: nat, n: nat, tail: seq<bool>)
    requires j <= n < nGroups && MAX_SELECTORS == |js| < nSelectors
    ensures Proceed(sum, s.At(SelectorPlace(h, u, nGroups, nSelectors, js, j)), Unary(n - j) + tail) == Result(Overrun, s.output, tail)
    decreases n - j
  {
    hide Proceed;
    var at := s.At(SelectorPlace(h, u, nGroups, nSelectors, js, j));
    if j < n {
      Associate([true], Unary(n - j - 1), tail);
      BitRead(sum, at, true, Unary(n - j - 1) + tail);
      LastUnaryRead(sum, s, h, u, nGroups, nSelectors, js, j + 1, n, tail);
    } else {
      BitRead(sum, at, false, tail);
    }
  }

  /** Positions of which one more has come than there is room for. */
  lemma OverrunRead(sum: Checksum, s: State, h: Header, u: seq<bool>, nGroups: nat, nSelectors: nat, js: seq<nat>, tail: seq<bool>)
    requires OneTooMany(js, nGroups) && nSelectors > MAX_SELECTORS
    ensures Proceed(sum, s.At(SelectorPlace(h, u, nGroups, nSelectors, [], 0)), UnaryBits(js, 0) + tail) == Result(Overrun, s.output, tail)
  {
    hide Proceed, Unary, UnaryBits;
    var first, j := js[..MAX_SELECTORS], js[MAX_SELECTORS];
    assert js == first + [j] && first[..0] == [];
    UnaryAppend(first, j, 0);
    Associate(UnaryBits(first, 0), Unary(j), tail);
    PositionsRead(sum, s, h, u, nGroups, nSelectors, first, 0, Unary(j) + tail);
    LastUnaryRead(sum, s, h, u, nGroups, nSelectors, first, 0, j, tail);
  }

  // ---------- Coding tables ----------

  lemma {:induction false} WalkRead(sum: Checksum, s: State, h: Header, u: seq<bool>, selector: seq<nat>, nGroups: nat, lens: seq<seq<int>>, len: seq<int>, curr: int, walk: seq<bool>, tail: seq<bool>)
    requires |lens| < nGroups && InRange(curr, walk)
    ensures var len' := len + [Walked(curr, walk)];
            Proceed(sum, s.At(Tables(h, u, selector, nGroups, lens, Steps(len, curr))), WalkText(walk) + tail) ==
            Proceed(sum, s.At(if |len'| < AlphaSize(u) then Tables(h, u, selector, nGroups, lens, Steps(len', Walked(curr, walk)))
                              else Tables(h, u, selector, nGroups, lens + [len'], FirstLength)), tail)
    decreases |walk|
  {
    hide Proceed, AlphaSize;
    var at := s.At(Tables(h, u, selector, nGroups, lens, Steps(len, curr)));
    if walk == [] {
      BitRead(sum, at, false, tail);
    } else {
      var next := if walk[0] then curr - 1 else curr + 1;
      var later := WalkText(walk[1..]) + tail;
      assert WalkText(walk) + tail == [true] + ([walk[0]] + later);
      BitRead(sum, at, true, [walk[0]] + later);
      BitRead(sum, s.At(Tables(h, u, selector, nGroups, lens, Turn(len, curr))), walk[0], later);
      WalkRead(sum, s, h, u, selector, nGroups, lens, len, next, walk[1..], tail);
    }
  }

  lemma {:induction false} WalksRead(sum: Checksum, s: State, h: Header, u: seq<bool>, selector: seq<nat>, nGroups: nat, lens: seq<seq<int>>, len: seq<int>, curr: int, walks: seq<seq<bool>>, tail: seq<bool>)
    requires |lens| < nGroups && walks != [] && |len| + |walks| == AlphaSize(u) && AllInRange(curr, walks)
    ensures Proceed(sum, s.At(Tables(h, u, selector, nGroups, lens, Steps(len, curr))), WalksText(walks) + tail) ==
            Proceed(sum, s.At(Tables(h, u, selector, nGroups, lens + [len + WalkedLengths(curr, walks)], FirstLength)), tail)
    decreases |walks|
  {
    hide Proceed, AlphaSize, WalkText, Walked, InRange;
    var l := Walked(curr, walks[0]);
    Associate(WalkText(walks[0]), WalksText(walks[1..]), tail);
    WalkRead(sum, s, h, u, selector, nGroups, lens, len, curr, walks[0], WalksText(walks[1..]) + tail);
    Associate(len, [l], WalkedLengths(l, walks[1..]));
    if |walks| > 1 {
      WalksRead(sum, s, h, u, selector, nGroups, lens, len + [l], l, walks[1..], tail);
    } else {
      assert len + [l] + [] == len + [l] && [] + tail == tail;
    }
  }

  lemma TableRead(sum: Checksum, s: State, h: Header, u: seq<bool>, selector: seq<nat>, nGroups: nat, lens: seq<seq<int>>, t: TableText, tail: seq<bool>)
    requires |lens| < nGroups && t.Valid(AlphaSize(u))
    ensures Proceed(sum, s.At(Tables(h, u, selector, nGroups, lens, FirstLength)), t.Text() + tail) ==
            Proceed(sum, s.At(Tables(h, u, selector, nGroups, lens + [t.Lengths()], FirstLength)), tail)
  {
    hide Proceed, AlphaSize, ToBits, Pow2, WalksText, WalkedLengths;
    FieldSizes();
    Associate(ToBits(t.start, 5), WalksText(t.walks), tail);
    assert InRange(t.start, t.walks[0]);
    NumberRead(sum, s.At(Tables(h, u, selector, nGroups, lens, FirstLength)), t.start, 5, WalksText(t.walks) + tail);
    WalksRead(sum, s, h, u, selector, nGroups, lens, [], t.start, t.walks, tail);
    assert [] + t.Lengths() == t.Lengths();
  }

  lemma {:induction false} TablesRead(sum: Checksum, s: State, h: Header, u: seq<bool>, selector: seq<nat>, nGroups: nat, lens: seq<seq<int>>, tables: seq<TableText>, tail: seq<bool>)
    requires |lens| + |tables| == nGroups && forall t :: 0 <= t < |tables| ==> tables[t].Valid(AlphaSize(u))
    ensures Proceed(sum, s.At(Tables(h, u, selector, nGroups, lens, FirstLength)), TablesText(tables) + tail) ==
            Proceed(sum, s.At(Symbols(h, u, lens + AllLengths(tables), selector, 0, Start())), tail)
    decreases |tables|
  {
    hide Proceed, AlphaSize, TableText.Valid, TableText.Text, TableText.Lengths;
    if tables != [] {
      Associate(tables[0].Text(), TablesText(tables[1..]), tail);
      TableRead(sum, s, h, u, selector, nGroups, lens, tables[0], TablesText(tables[1..]) + tail);
      Associate(lens, [tables[0].Lengths()], AllLengths(tables[1..]));
      TablesRead(sum, s, h, u, selector, nGroups, lens + [tables[0].Lengths()], tables[1..], tail);
    } else {
      assert lens + [] == lens && [] + tail == tail;
      NothingRead(sum, s.At(Tables(h, u, selector, nGroups, lens, FirstLength)), tail);
    }
  }

  // ---------- Symbols ----------

  lemma ReadableComes(lens: seq<seq<int>>, selector: seq<nat>, k: nat, sym: nat, tail: seq<bool>)
    requires Readable(lens, selector, k, sym)
    ensures SymbolAt(lens, selector, k, SymbolCode(lens, selector, k, sym) + tail) == Arrived(sym, tail)
  {
    hide Scan;
    ScanMore(lens[selector[k / G_SIZE]], 1, SymbolCode(lens, selector, k, sym), tail);
    assert [] + tail == tail;
  }

  lemma {:induction false} SymbolsRead(sum: Checksum, s: State, h: Header, u: seq<bool>, lens: seq<seq<int>>, selector: seq<nat>, k: nat, flat: Flat, syms: seq<nat>, ranks: seq<byte>, tail: seq<bool>)
    requires AllReadable(lens, selector, k, syms) && Makes(flat, syms, AlphaSize(u) - 2, 100_000 * s.k, ranks) && h.origPtr < |ranks|
    ensures Proceed(sum, s.At(Symbols(h, u, lens, selector, k, flat)), SymbolBits(lens, selector, k, syms) + tail) ==
            Proceed(sum, s.At(Output(h, Mapped(Names(u), ranks))), tail)
    decreases |syms|
  {
    hide Proceed, Readable, SymbolCode, Take, Names, SymbolAt, AlphaSize;
    var at := s.At(Symbols(h, u, lens, selector, k, flat));
    var later := SymbolBits(lens, selector, k + 1, syms[1..]) + tail;
    Associate(SymbolCode(lens, selector, k, syms[0]), SymbolBits(lens, selector, k + 1, syms[1..]), tail);
    ReadableComes(lens, selector, k, syms[0], later);
    ProceedStep(sum, at, SymbolBits(lens, selector, k, syms) + tail);
    match Take(flat, syms[0], AlphaSize(u) - 2, 100_000 * s.k)
    case More(flat') => SymbolsRead(sum, s, h, u, lens, selector, k + 1, flat', syms[1..], ranks, tail);
    case Complete(_) => assert [] + tail == tail;
  }

  // ---------- Blocks and streams ----------

  /** The head of a block is read up to its first selector. */
  lemma HeadRead(sum: Checksum, s: State, b: BlockHead, tail: seq<bool>)
    requires 1 <= s.k <= 9 && b.Valid(s.k)
    ensures Proceed(sum, s.At(BlockStart), b.Text() + tail) == Proceed(sum, s.At(SelectorPlace(b.h, b.used, b.nGroups, b.nSelectors, [], 0)), tail)
  {
    hide Proceed, RowText, ToBits, Rank, BlockHeaderBits, Pow2;
    FieldSizes();
    var count := ToBits(b.nSelectors, 15) + tail;
    HeadParts(BlockHeaderBits(b.h.crc, b.h.origPtr), b.flags, RowText(b.flags, b.used, 0), ToBits(b.nGroups, 3), ToBits(b.nSelectors, 15), tail);
    HeaderRead(sum, s, b.h.crc, b.h.origPtr, b.flags + (RowText(b.flags, b.used, 0) + (ToBits(b.nGroups, 3) + count)));
    MappingRead(sum, s, b.h, b.flags, b.used, ToBits(b.nGroups, 3) + count);
    NumberRead(sum, s.At(Groups(b.h, b.used)), b.nGroups, 3, count);
    NumberRead(sum, s.At(SelectorCount(b.h, b.used, b.nGroups)), b.nSelectors, 15, tail);
  }

  /** A block in any valid form is read as its column. */
  lemma BlockRead(sum: Checksum, s: State, b: BlockText, tail: seq<bool>)
    requires 1 <= s.k <= 9 && b.Valid(s.k)
    ensures Proceed(sum, s.At(BlockStart), b.Text() + tail) == Proceed(sum, s.At(Output(b.h, b.Column())), tail)
  {
    hide Proceed, UnaryBits, TablesText, SymbolBits, AllReadable, Makes, Names, AlphaSize, SelectorOf, AllLengths, TableText.Valid, BlockHead.Valid, BlockHead.Text;
    var lens, selector := AllLengths(b.tables), SelectorOf(|b.tables|, b.js);
    var symbols := SymbolBits(lens, selector, 0, b.syms) + tail;
    FourParts(b.Head().Text(), UnaryBits(b.js, 0), TablesText(b.tables), SymbolBits(lens, selector, 0, b.syms), tail);
    HeadRead(sum, s, b.Head(), UnaryBits(b.js, 0) + (TablesText(b.tables) + symbols));
    SelectorsRead(sum, s, b.h, b.used, |b.tables|, b.js, TablesText(b.tables) + symbols);
    TablesRead(sum, s, b.h, b.used, selector, |b.tables|, [], b.tables, symbols);
    assert [] + lens == lens;
    SymbolsRead(sum, s, b.h, b.used, lens, selector, 0, Start(), b.syms, b.ranks, tail);
  }
}
