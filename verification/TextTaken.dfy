/**
 * What the decompressor has read on the way to the end of a stream, or to more selectors than there is
 * room for, is written as the format has it.
 */
module TextTaken {
  import opened Sequences
  import opened Words
  import opened Checksums
  import opened Powers
  import opened Bits
  import opened ByteMaps
  import opened MoveToFront
  import opened CanonicalHuffman
  import opened SymbolCoding
  import opened BlockFormat
  import opened BlockSender
  import opened ColumnSteps
  import opened StreamSteps
  import opened StreamText

  /** The run does not stop for want of input, and does not report an error. */
  ghost predicate Ends(sum: Checksum, s: State, bits: seq<bool>) {
    var status := Proceed(sum, s, bits).status;
    status == StreamEnd || status == Overrun
  }

  // ---------- Single fields ----------

  lemma Started(sum: Checksum, s: State, bits: seq<bool>)
    requires Ends(sum, s, bits)
    ensures var a := Await(s.stage, bits); a.Arrived? && Proceed(sum, s, bits) == Follow(sum, Next(sum, s, a.v), a.rest)
  {
    hide Next, Await;
  }

  lemma NumberTaken(sum: Checksum, s: State, n: nat, bits: seq<bool>) returns (v: nat, rest: seq<bool>)
    requires Ends(sum, s, bits) && !s.stage.Symbols? && Width(s.stage) == n
    ensures bits == ToBits(v, n) + rest && v < Pow2(n) && Proceed(sum, s, bits) == Follow(sum, Next(sum, s, v), rest)
  {
    hide Next, Width, Follow, Proceed, ToBits, Value, Pow2;
    Started(sum, s, bits);
    v, rest := Value(bits[..n]), bits[n..];
    ToBitsOfValue(bits[..n]);
    assert bits == bits[..n] + bits[n..];
  }

  lemma BitTaken(sum: Checksum, s: State, bits: seq<bool>) returns (b: bool, rest: seq<bool>)
    requires Ends(sum, s, bits) && !s.stage.Symbols? && Width(s.stage) == 1
    ensures bits == [b] + rest && Proceed(sum, s, bits) == Follow(sum, Next(sum, s, if b then 1 else 0), rest)
  {
    hide Next, Width, Follow, ToBits, Proceed, Pow2;
    var v;
    v, rest := NumberTaken(sum, s, 1, bits);
    TwoBits();
    b := v == 1;
    BitField(b);
  }

  lemma ByteTaken(sum: Checksum, s: State, bits: seq<bool>) returns (v: byte, rest: seq<bool>)
    requires Ends(sum, s, bits) && !s.stage.Symbols? && Width(s.stage) == 8
    ensures bits == ToBits(v, 8) + rest && Proceed(sum, s, bits) == Follow(sum, Next(sum, s, v), rest)
  {
    hide Next, Width, Follow, ToBits, Proceed, Pow2;
    Pow2Of24();
    var n;
    n, rest := NumberTaken(sum, s, 8, bits);
    v := n;
  }

  /** A string of bytes that goes on with this one. */
  lemma ByteJoins(s: seq<byte>, i: nat, bits: seq<bool>, rest: seq<bool>, later: seq<bool>)
    requires i < |s| && bits == ToBits(s[i], 8) + rest && rest == BytesFrom(s, i + 1) + later
    ensures bits == BytesFrom(s, i) + later
  {
    hide ToBits;
    Associate(ToBits(s[i], 8), BytesFrom(s, i + 1), later);
  }

  // ---------- Header ----------

  lemma {:induction false} MagicTaken(sum: Checksum, s: State, n: nat, bits: seq<bool>) returns (rest: seq<bool>)
    requires 1 <= n <= 5 && Ends(sum, s.At(BlockMagicAt(n)), bits)
    ensures bits == BytesFrom(BlockMagic(), n) + rest && Proceed(sum, s.At(BlockMagicAt(n)), bits) == Proceed(sum, s.At(BlockCrc([])), rest)
    decreases 6 - n
  {
    hide Proceed, BytesFrom, ToBits;
    var v, later := ByteTaken(sum, s.At(BlockMagicAt(n)), bits);
    if n < 5 {
      rest := MagicTaken(sum, s, n + 1, later);
    } else {
      rest := later;
      NoneLeft(BlockMagic(), later);
    }
    ByteJoins(BlockMagic(), n, bits, later, rest);
  }

  lemma NoneLeft(s: seq<byte>, rest: seq<bool>)
    ensures rest == BytesFrom(s, |s|) + rest
  {
  }

  lemma {:induction false} CrcTaken(sum: Checksum, s: State, got: seq<byte>, bits: seq<bool>) returns (crc: seq<byte>, rest: seq<bool>)
    requires |got| <= 3 && Ends(sum, s.At(BlockCrc(got)), bits)
    ensures got <= crc && |crc| == 4 && bits == BytesFrom(crc, |got|) + rest
    ensures Proceed(sum, s.At(BlockCrc(got)), bits) == Proceed(sum, s.At(RandBit(crc)), rest)
    decreases 4 - |got|
  {
    hide Proceed, BytesFrom, ToBits, AfterRows, AfterPosition, AfterCoding, AfterSymbol, AfterOutput;
    var v, later := ByteTaken(sum, s.At(BlockCrc(got)), bits);
    if |got| < 3 {
      crc, rest := CrcTaken(sum, s, got + [v], later);
    } else {
      crc, rest := got + [v], later;
      NoneLeft(crc, later);
    }
    assert (got + [v])[|got|] == v;
    ByteJoins(crc, |got|, bits, later, rest);
  }

  /** Three bytes, highest first, as one number. */
  lemma ThreeBytes(a: byte, b: byte, c: byte)
    ensures ToBits(a, 8) + (ToBits(b, 8) + ToBits(c, 8)) == ToBits(256 * (256 * a + b) + c, 24)
  {
    hide Value, Pow2, ToBits;
    Pow2Of24();
    ValueOfToBits(a, 8); ValueOfToBits(b, 8); ValueOfToBits(c, 8);
    ValueConcat(ToBits(a, 8), ToBits(b, 8));
    ValueConcat(ToBits(a, 8) + ToBits(b, 8), ToBits(c, 8));
    Associate(ToBits(a, 8), ToBits(b, 8), ToBits(c, 8));
    ToBitsOfValue(ToBits(a, 8) + ToBits(b, 8) + ToBits(c, 8));
  }

  lemma OrigPtrTaken(sum: Checksum, s: State, crc: seq<byte>, bits: seq<bool>) returns (p: nat, rest: seq<bool>)
    requires Ends(sum, s.At(OrigPtr(crc, 0, 0)), bits)
    ensures p <= 10 + 100_000 * s.k && p < 0x100_0000
    ensures bits == ToBits(p, 24) + rest && Proceed(sum, s.At(OrigPtr(crc, 0, 0)), bits) == Proceed(sum, s.At(Flags(Header(crc, p), [])), rest)
  {
    hide Proceed, ToBits;
    var a: nat, r1 := ByteTaken(sum, s.At(OrigPtr(crc, 0, 0)), bits);
    var b: nat, r2 := ByteTaken(sum, s.At(OrigPtr(crc, 1, a)), r1);
    var c: nat, r3 := ByteTaken(sum, s.At(OrigPtr(crc, 2, 256 * a + b)), r2);
    p, rest := 256 * (256 * a + b) + c, r3;
    ThreeBytes(a, b, c);
    assert bits == ToBits(a, 8) + (ToBits(b, 8) + ToBits(c, 8)) + rest;
  }

  lemma {:induction false} BytesConcat(s: seq<byte>, t: seq<byte>, i: nat)
    requires i <= |s|
    ensures BytesFrom(s + t, i) == BytesFrom(s, i) + BytesFrom(t, 0)
    decreases |s| - i
  {
    hide ToBits;
    if i < |s| {
      BytesConcat(s, t, i + 1);
      Associate(ToBits(s[i], 8), BytesFrom(s, i + 1), BytesFrom(t, 0));
    } else {
      SameBytes(s, t, 0);
      assert [] + BytesFrom(t, 0) == BytesFrom(t, 0);
    }
  }

  lemma {:induction false} SameBytes(s: seq<byte>, t: seq<byte>, i: nat)
    requires i <= |t|
    ensures BytesFrom(s + t, |s| + i) == BytesFrom(t, i)
    decreases |t| - i
  {
    hide ToBits;
    if i < |t| { SameBytes(s, t, i + 1); }
  }

  lemma HeaderParts<T>(a: seq<T>, b: seq<T>, c: seq<T>, d: seq<T>, rest: seq<T>)
    ensures a + (b + (c + (d + rest))) == ((a + b) + (c + d)) + rest
  {
  }

  /** A block begins with its magic number, checksum, a flag that is not set, and its start row. */
  lemma HeaderTaken(sum: Checksum, s: State, bits: seq<bool>) returns (h: Header, rest: seq<bool>)
    requires Ends(sum, s.At(BlockMagicAt(1)), bits)
    ensures |h.crc| == 4 && h.origPtr <= 10 + 100_000 * s.k && h.origPtr < 0x100_0000 && ToBits(0x31, 8) + bits == BlockHeaderBits(h.crc, h.origPtr) + rest
    ensures Proceed(sum, s.At(BlockMagicAt(1)), bits) == Proceed(sum, s.At(Flags(h, [])), rest)
  {
    hide Proceed, ToBits, BytesFrom;
    var r1 := MagicTaken(sum, s, 1, bits);
    var crc, r2 := CrcTaken(sum, s, [], r1);
    var b, r3 := BitTaken(sum, s.At(RandBit(crc)), r2);
    var p, r4 := OrigPtrTaken(sum, s, crc, r3);
    h, rest := Header(crc, p), r4;
    ByteJoins(BlockMagic(), 0, ToBits(0x31, 8) + bits, bits, r1);
    BytesConcat(BlockMagic(), crc, 0);
    HeaderParts(BytesFrom(BlockMagic(), 0), BytesFrom(crc, 0), [false], ToBits(p, 24), rest);
  }

  // ---------- Mapping table ----------

  lemma {:induction false} FlagsTaken(sum: Checksum, s: State, h: Header, got: seq<bool>, bits: seq<bool>) returns (flags: seq<bool>, rest: seq<bool>)
    requires |got| < 16 && Ends(sum, s.At(Flags(h, got)), bits)
    ensures got <= flags && |flags| == 16 && bits == flags[|got|..] + rest
    ensures Proceed(sum, s.At(Flags(h, got)), bits) == Proceed(sum, s.At(Rows(h, flags, [])), rest)
    decreases 16 - |got|
  {
    hide Proceed;
    var b, later := BitTaken(sum, s.At(Flags(h, got)), bits);
    if |got| < 15 {
      flags, rest := FlagsTaken(sum, s, h, got + [b], later);
    } else {
      flags, rest := got + [b], later;
      assert flags[16..] == [];
    }
    assert flags[|got|] == (got + [b])[|got|];
    assert flags[|got|..] == [b] + flags[|got| + 1..];
  }

  /** The rest of a row that is announced. */
  lemma {:induction false} InRowTaken(sum: Checksum, s: State, h: Header, flags: seq<bool>, used: seq<bool>, i: nat, j: nat, bits: seq<bool>) returns (row: seq<bool>, rest: seq<bool>)
    requires |flags| == 16 && i < 16 && flags[i] && j <= 16 && |used| == 16 * i + j && Ends(sum, s.At(Rows(h, flags, used)), bits)
    ensures |row| == 16 - j && bits == row + rest
    ensures Proceed(sum, s.At(Rows(h, flags, used)), bits) == Proceed(sum, s.At(Rows(h, flags, used + row)), rest)
    decreases 16 - j
  {
    hide Proceed;
    if j == 16 {
      row, rest := [], bits;
      assert used + [] == used && [] + bits == bits;
    } else {
      var b, later := BitTaken(sum, s.At(Rows(h, flags, used)), bits);
      var more;
      more, rest := InRowTaken(sum, s, h, flags, used + [b], i, j + 1, later);
      row := [b] + more;
      Associate(used, [b], more);
      Associate([b], more, rest);
    }
  }

  /** Every row that is not announced is empty, from the i-th on. */
  ghost predicate AnnouncedFrom(flags: seq<bool>, used: seq<bool>, i: nat) {
    |flags| == 16 && |used| == 256 && forall r :: i <= r < 16 && !flags[r] ==> used[16 * r..16 * r + 16] == NoRow()
  }

  /** One row: announced and there, or empty and not there. */
  lemma RowTaken(sum: Checksum, s: State, h: Header, flags: seq<bool>, got: seq<bool>, i: nat, bits: seq<bool>) returns (row: seq<bool>, rest: seq<bool>)
    requires |flags| == 16 && i < 16 && |got| == 16 * i && Ends(sum, s.At(Rows(h, flags, got)), bits)
    ensures |row| == 16 && (!flags[i] ==> row == NoRow()) && bits == (if flags[i] then row else []) + rest
    ensures Proceed(sum, s.At(Rows(h, flags, got)), bits) == Proceed(sum, s.At(Rows(h, flags, got + row)), rest)
  {
    hide Proceed, Rank;
    if flags[i] {
      row, rest := InRowTaken(sum, s, h, flags, got, i, 0, bits);
    } else {
      NothingRead(sum, s.At(Rows(h, flags, got)), bits);
      row, rest := NoRow(), bits;
      assert [] + bits == bits;
    }
  }

  lemma RowJoins(flags: seq<bool>, got: seq<bool>, row: seq<bool>, used: seq<bool>, i: nat)
    requires i < 16 && |got| == 16 * i && |row| == 16 && got + row <= used && AnnouncedFrom(flags, used, i + 1) && (!flags[i] ==> row == NoRow())
    ensures got <= used && used[16 * i..16 * i + 16] == row && AnnouncedFrom(flags, used, i)
  {
    hide NoRow;
    assert used[16 * i..16 * i + 16] == (got + row)[16 * i..16 * i + 16] == row;
  }

  lemma {:induction false} RowsTaken(sum: Checksum, s: State, h: Header, flags: seq<bool>, got: seq<bool>, i: nat, bits: seq<bool>) returns (used: seq<bool>, rest: seq<bool>)
    requires |flags| == 16 && i <= 16 && |got| == 16 * i && Ends(sum, s.At(Rows(h, flags, got)), bits)
    ensures got <= used && AnnouncedFrom(flags, used, i) && InUse(used) && bits == RowText(flags, used, i) + rest
    ensures Proceed(sum, s.At(Rows(h, flags, got)), bits) == Proceed(sum, s.At(Groups(h, used)), rest)
    decreases 16 - i
  {
    hide Proceed, Rank, NoRow;
    if i == 16 {
      NothingRead(sum, s.At(Rows(h, flags, got)), bits);
      used, rest := got, bits;
      assert [] + bits == bits;
    } else {
      hide Next, AnnouncedFrom;
      var row, later := RowTaken(sum, s, h, flags, got, i, bits);
      used, rest := RowsTaken(sum, s, h, flags, got + row, i + 1, later);
      RowJoins(flags, got, row, used, i);
      Associate(if flags[i] then row else [], RowText(flags, used, i + 1), rest);
    }
  }

  // ---------- Selectors ----------

  lemma {:induction false} UnaryTaken(sum: Checksum, s: State, h: Header, u: seq<bool>, nGroups: nat, nSelectors: nat, js: seq<nat>, j: nat, bits: seq<bool>) returns (n: nat, rest: seq<bool>)
    requires |js| < nSelectors && j < nGroups && Ends(sum, s.At(SelectorPlace(h, u, nGroups, nSelectors, js, j)), bits)
    ensures j <= n < nGroups && bits == Unary(n - j) + rest && |rest| < |bits|
    ensures Proceed(sum, s.At(SelectorPlace(h, u, nGroups, nSelectors, js, j)), bits) ==
            if |js| >= MAX_SELECTORS then Result(Overrun, s.output, rest) else Proceed(sum, s.At(SelectorPlace(h, u, nGroups, nSelectors, js + [n], 0)), rest)
    decreases nGroups - j
  {
    hide Proceed;
    var b, later := BitTaken(sum, s.At(SelectorPlace(h, u, nGroups, nSelectors, js, j)), bits);
    if b {
      n, rest := UnaryTaken(sum, s, h, u, nGroups, nSelectors, js, j + 1, later);
      Associate([true], Unary(n - j - 1), rest);
    } else {
      n, rest := j, later;
    }
  }

  /** All positions, or one more than there is room for. */
  lemma {:induction false} PositionsTaken(sum: Checksum, s: State, h: Header, u: seq<bool>, nGroups: nat, nSelectors: nat, got: seq<nat>, bits: seq<bool>) returns (js: seq<nat>, rest: seq<bool>)
    requires |got| <= nSelectors && |got| <= MAX_SELECTORS && 0 < nGroups && AllBelow(got, nGroups)
    requires Ends(sum, s.At(SelectorPlace(h, u, nGroups, nSelectors, got, 0)), bits)
    ensures got <= js && AllBelow(js, nGroups) && bits == UnaryBits(js, |got|) + rest
    ensures |js| == if nSelectors > MAX_SELECTORS then MAX_SELECTORS + 1 else nSelectors
    ensures Proceed(sum, s.At(SelectorPlace(h, u, nGroups, nSelectors, got, 0)), bits) ==
            if nSelectors > MAX_SELECTORS then Result(Overrun, s.output, rest) else Proceed(sum, s.At(Tables(h, u, SelectorOf(nGroups, js), nGroups, [], FirstLength)), rest)
    decreases nSelectors - |got|
  {
    hide Proceed, SelectorOf, Unary;
    if |got| == nSelectors {
      NothingRead(sum, s.At(SelectorPlace(h, u, nGroups, nSelectors, got, 0)), bits);
      js, rest := got, bits;
      assert [] + bits == bits;
    } else {
      var j, later := UnaryTaken(sum, s, h, u, nGroups, nSelectors, got, 0, bits);
      if |got| == MAX_SELECTORS {
        js, rest := got + [j], later;
        assert [] + later == later;
      } else {
        js, rest := PositionsTaken(sum, s, h, u, nGroups, nSelectors, got + [j], later);
      }
      assert js[|got|] == (got + [j])[|got|] == j;
      Associate(Unary(j), UnaryBits(js, |got| + 1), rest);
    }
  }

  // ---------- Coding tables ----------

  lemma {:induction false} WalkTaken(sum: Checksum, s: State, h: Header, u: seq<bool>, selector: seq<nat>, nGroups: nat, lens: seq<seq<int>>, len: seq<int>, curr: int, bits: seq<bool>) returns (walk: seq<bool>, rest: seq<bool>)
    requires |lens| < nGroups && 1 <= curr <= LONGEST_CODE && Ends(sum, s.At(Tables(h, u, selector, nGroups, lens, Steps(len, curr))), bits)
    ensures InRange(curr, walk) && bits == WalkText(walk) + rest
    ensures var len' := len + [Walked(curr, walk)];
            Proceed(sum, s.At(Tables(h, u, selector, nGroups, lens, Steps(len, curr))), bits) ==
            Proceed(sum, s.At(if |len'| < AlphaSize(u) then Tables(h, u, selector, nGroups, lens, Steps(len', Walked(curr, walk)))
                              else Tables(h, u, selector, nGroups, lens + [len'], FirstLength)), rest)
    decreases |bits|
  {
    hide Proceed, AlphaSize;
    var b, r1 := BitTaken(sum, s.At(Tables(h, u, selector, nGroups, lens, Steps(len, curr))), bits);
    if b {
      var down, r2 := BitTaken(sum, s.At(Tables(h, u, selector, nGroups, lens, Turn(len, curr))), r1);
      var more;
      more, rest := WalkTaken(sum, s, h, u, selector, nGroups, lens, len, if down then curr - 1 else curr + 1, r2);
      walk := [down] + more;
      assert walk[1..] == more;
      assert bits == ([true, down] + WalkText(more)) + rest;
    } else {
      walk, rest := [], r1;
    }
  }

  lemma {:induction false} WalksTaken(sum: Checksum, s: State, h: Header, u: seq<bool>, selector: seq<nat>, nGroups: nat, lens: seq<seq<int>>, len: seq<int>, curr: int, bits: seq<bool>) returns (walks: seq<seq<bool>>, rest: seq<bool>)
    requires |lens| < nGroups && 1 <= curr <= LONGEST_CODE && |len| < AlphaSize(u) && Ends(sum, s.At(Tables(h, u, selector, nGroups, lens, Steps(len, curr))), bits)
    ensures |len| + |walks| == AlphaSize(u) && AllInRange(curr, walks) && bits == WalksText(walks) + rest
    ensures Proceed(sum, s.At(Tables(h, u, selector, nGroups, lens, Steps(len, curr))), bits) ==
            Proceed(sum, s.At(Tables(h, u, selector, nGroups, lens + [len + WalkedLengths(curr, walks)], FirstLength)), rest)
    decreases AlphaSize(u) - |len|
  {
    hide Proceed, AlphaSize, WalkText, Walked;
    var walk, later := WalkTaken(sum, s, h, u, selector, nGroups, lens, len, curr, bits);
    var l := Walked(curr, walk);
    var more;
    WalkStays(curr, walk);
    if |len| + 1 < AlphaSize(u) {
      more, rest := WalksTaken(sum, s, h, u, selector, nGroups, lens, len + [l], l, later);
    } else {
      more, rest := [], later;
    }
    walks := [walk] + more;
    assert walks[1..] == more;
    Associate(len, [l], WalkedLengths(l, more));
    Associate(WalkText(walk), WalksText(more), rest);
    assert [] + later == later && len + [l] + [] == len + [l];
  }

  lemma {:induction false} WalkStays(curr: int, walk: seq<bool>)
    requires InRange(curr, walk)
    ensures 1 <= Walked(curr, walk) <= LONGEST_CODE
    decreases |walk|
  {
    if walk != [] { WalkStays(if walk[0] then curr - 1 else curr + 1, walk[1..]); }
  }

  lemma TableTaken(sum: Checksum, s: State, h: Header, u: seq<bool>, selector: seq<nat>, nGroups: nat, lens: seq<seq<int>>, bits: seq<bool>) returns (t: TableText, rest: seq<bool>)
    requires |lens| < nGroups && Ends(sum, s.At(Tables(h, u, selector, nGroups, lens, FirstLength)), bits)
    ensures t.Valid(AlphaSize(u)) && bits == t.Text() + rest
    ensures Proceed(sum, s.At(Tables(h, u, selector, nGroups, lens, FirstLength)), bits) ==
            Proceed(sum, s.At(Tables(h, u, selector, nGroups, lens + [t.Lengths()], FirstLength)), rest)
  {
    hide Proceed, AlphaSize, ToBits, Pow2, WalksText, WalkedLengths, AllInRange;
    FieldSizes();
    var start, later := NumberTaken(sum, s.At(Tables(h, u, selector, nGroups, lens, FirstLength)), 5, bits);
    var walks;
    walks, rest := WalksTaken(sum, s, h, u, selector, nGroups, lens, [], start, later);
    t := TableText(start, walks);
    assert [] + t.Lengths() == t.Lengths();
    Associate(ToBits(start, 5), WalksText(walks), rest);
  }

  lemma {:induction false} TablesTaken(sum: Checksum, s: State, h: Header, u: seq<bool>, selector: seq<nat>, nGroups: nat, lens: seq<seq<int>>, bits: seq<bool>) returns (tables: seq<TableText>, rest: seq<bool>)
    requires |lens| <= nGroups && Ends(sum, s.At(Tables(h, u, selector, nGroups, lens, FirstLength)), bits)
    ensures |lens| + |tables| == nGroups && (forall t :: 0 <= t < |tables| ==> tables[t].Valid(AlphaSize(u))) && bits == TablesText(tables) + rest
    ensures Proceed(sum, s.At(Tables(h, u, selector, nGroups, lens, FirstLength)), bits) == Proceed(sum, s.At(Symbols(h, u, lens + AllLengths(tables), selector, 0, Start())), rest)
    decreases nGroups - |lens|
  {
    hide Proceed, AlphaSize, TableText.Valid, TableText.Text, TableText.Lengths;
    if |lens| == nGroups {
      NothingRead(sum, s.At(Tables(h, u, selector, nGroups, lens, FirstLength)), bits);
      tables, rest := [], bits;
      assert lens + [] == lens && [] + bits == bits;
    } else {
      var t, later := TableTaken(sum, s, h, u, selector, nGroups, lens, bits);
      var more;
      more, rest := TablesTaken(sum, s, h, u, selector, nGroups, lens + [t.Lengths()], later);
      tables := [t] + more;
      assert tables[1..] == more;
      Associate(lens, [t.Lengths()], AllLengths(more));
      Associate(t.Text(), TablesText(more), rest);
    }
  }

  // ---------- Symbols ----------

  /** Reading a symbol looks at no bits beyond those it takes. */
  lemma {:induction false} ScanAlone(len: seq<int>, n: nat, code: seq<bool>, rest: seq<bool>)
    requires Scan(len, n, code + rest).Arrived? && Scan(len, n, code + rest).rest == rest
    ensures Scan(len, n, code) == Arrived(Scan(len, n, code + rest).v, [])
    decreases LONGEST_CODE + 1 - n
  {
    hide Value, Used, First;
    var bits := code + rest;
    ScanShrinks(len, n, bits);
    assert bits[..n] == code[..n];
    if Value(bits[..n]) < Used(len, n) {
      assert bits[n..] == rest;
    } else {
      ScanAlone(len, n + 1, code, rest);
    }
  }

  lemma {:induction false} ScanShrinks(len: seq<int>, n: nat, bits: seq<bool>)
    requires Scan(len, n, bits).Arrived?
    ensures |Scan(len, n, bits).rest| + n <= |bits|
    decreases LONGEST_CODE + 1 - n
  {
    hide Value, Used, First;
    if Value(bits[..n]) >= Used(len, n) { ScanShrinks(len, n + 1, bits); }
  }

  /** A symbol that is read, whatever the table, is readable, and its code stands there. */
  lemma SymbolTaken(sum: Checksum, s: State, bits: seq<bool>) returns (sym: nat, rest: seq<bool>)
    requires s.stage.Symbols? && Ends(sum, s, bits)
    ensures Readable(s.stage.lens, s.stage.selector, s.stage.done, sym) && bits == SymbolCode(s.stage.lens, s.stage.selector, s.stage.done, sym) + rest
    ensures |rest| < |bits| && Proceed(sum, s, bits) == Follow(sum, Next(sum, s, sym), rest)
  {
    hide Next, Follow, Proceed, Scan, CodeBits, First;
    Started(sum, s, bits);
    var a := SymbolAt(s.stage.lens, s.stage.selector, s.stage.done, bits);
    sym, rest := a.v, a.rest;
    var len := s.stage.lens[s.stage.selector[s.stage.done / G_SIZE]];
    FirstLevel(len);
    ScanIsCode(len, 1, bits);
    ScanAlone(len, 1, CodeBits(len, sym), rest);
    ScanTakes(len, 1, bits);
  }

  lemma FirstLevel(len: seq<int>)
    requires Lengths(len)
    ensures First(len, 1) == 0
  {
    NoneOfLength(len, 0, |len|);
  }

  lemma {:induction false} SymbolsTaken(sum: Checksum, s: State, h: Header, u: seq<bool>, lens: seq<seq<int>>, selector: seq<nat>, k: nat, flat: Flat, bits: seq<bool>) returns (syms: seq<nat>, ranks: seq<byte>, rest: seq<bool>)
    requires Ends(sum, s.At(Symbols(h, u, lens, selector, k, flat)), bits)
    ensures AllReadable(lens, selector, k, syms) && Makes(flat, syms, AlphaSize(u) - 2, 100_000 * s.k, ranks)
    ensures h.origPtr < |ranks| && bits == SymbolBits(lens, selector, k, syms) + rest
    ensures Proceed(sum, s.At(Symbols(h, u, lens, selector, k, flat)), bits) == Proceed(sum, s.At(Output(h, Mapped(Names(u), ranks))), rest)
    decreases |bits|
  {
    hide Proceed, Readable, SymbolCode, Take, Names, AlphaSize;
    var at := s.At(Symbols(h, u, lens, selector, k, flat));
    var sym, later := SymbolTaken(sum, at, bits);
    var more;
    match Take(flat, sym, AlphaSize(u) - 2, 100_000 * s.k) {
      case More(flat') =>
        more, ranks, rest := SymbolsTaken(sum, s, h, u, lens, selector, k + 1, flat', later);
      case Complete(r) =>
        more, ranks, rest := [], r, later;
        assert [] + later == later;
      case Refused =>
        return;
    }
    syms := [sym] + more;
    assert syms[1..] == more;
    Associate(SymbolCode(lens, selector, k, sym), SymbolBits(lens, selector, k + 1, more), rest);
  }

  /** A column that fits the block. */
  lemma {:induction false} MakesFits(flat: Flat, syms: seq<nat>, nInUse: nat, nblockMAX: nat, ranks: seq<byte>)
    requires Makes(flat, syms, nInUse, nblockMAX, ranks)
    ensures |ranks| <= nblockMAX
    decreases |syms|
  {
    match Take(flat, syms[0], nInUse, nblockMAX)
    case More(flat') => MakesFits(flat', syms[1..], nInUse, nblockMAX, ranks);
    case Complete(_) =>
  }

  // ---------- Blocks ----------

  /** Behind the first byte of a block, the head of a valid one. */
  lemma HeadTaken(sum: Checksum, s: State, bits: seq<bool>) returns (b: BlockHead, rest: seq<bool>)
    requires 1 <= s.k <= 9 && Ends(sum, s.At(BlockMagicAt(1)), bits)
    ensures b.Valid(s.k) && ToBits(0x31, 8) + bits == b.Text() + rest
    ensures Proceed(sum, s.At(BlockMagicAt(1)), bits) == Proceed(sum, s.At(SelectorPlace(b.h, b.used, b.nGroups, b.nSelectors, [], 0)), rest)
  {
    hide Proceed, RowText, ToBits, Rank, BlockHeaderBits, Pow2;
    FieldSizes();
    var h, r1 := HeaderTaken(sum, s, bits);
    var flags, r2 := FlagsTaken(sum, s, h, [], r1);
    var used, r3 := RowsTaken(sum, s, h, flags, [], 0, r2);
    var nGroups, r4 := NumberTaken(sum, s.At(Groups(h, used)), 3, r3);
    var n, r5 := NumberTaken(sum, s.At(SelectorCount(h, used, nGroups)), 15, r4);
    b, rest := BlockHead(h, flags, used, nGroups, n), r5;
    HeadParts(BlockHeaderBits(h.crc, h.origPtr), flags, RowText(flags, used, 0), ToBits(nGroups, 3), ToBits(n, 15), rest);
  }

  /** Behind the selectors of a block, the rest of the text of a valid one has been read when its column is there. */
  lemma BodyTaken(sum: Checksum, s: State, head: BlockHead, js: seq<nat>, bits: seq<bool>) returns (b: BlockText, rest: seq<bool>)
    requires 1 <= s.k <= 9 && head.Valid(s.k) && |js| == head.nSelectors <= MAX_SELECTORS && AllBelow(js, head.nGroups)
    requires Ends(sum, s.At(Tables(head.h, head.used, SelectorOf(head.nGroups, js), head.nGroups, [], FirstLength)), bits)
    ensures b.Valid(s.k) && b.Head() == head && b.Text() + rest == head.Text() + (UnaryBits(js, 0) + bits)
    ensures Proceed(sum, s.At(Tables(head.h, head.used, SelectorOf(head.nGroups, js), head.nGroups, [], FirstLength)), bits) == Proceed(sum, s.At(Output(b.h, b.Column())), rest)
  {
    hide Proceed, UnaryBits, TablesText, SymbolBits, AllReadable, Makes, Names, AlphaSize, SelectorOf, AllLengths, TableText.Valid, BlockHead.Text;
    var selector := SelectorOf(head.nGroups, js);
    var tables, r1 := TablesTaken(sum, s, head.h, head.used, selector, head.nGroups, [], bits);
    assert [] + AllLengths(tables) == AllLengths(tables);
    var syms, ranks, r2 := SymbolsTaken(sum, s, head.h, head.used, AllLengths(tables), selector, 0, Start(), r1);
    MakesFits(Start(), syms, AlphaSize(head.used) - 2, 100_000 * s.k, ranks);
    b, rest := BlockText(head.h, head.flags, head.used, js, tables, syms, ranks), r2;
    FourParts(head.Text(), UnaryBits(js, 0), TablesText(tables), SymbolBits(AllLengths(tables), selector, 0, syms), rest);
  }
}
