/** Two compressed files byte by byte: nothing at all, and a single letter. */
module KnownStreams {
  import opened Words
  import opened Powers
  import opened Bits
  import opened ByteCasts
  import opened WordBits
  import opened Checksums
  import opened RunCoding
  import opened BurrowsWheeler
  import opened ByteMaps
  import opened MoveToFront
  import opened CanonicalHuffman
  import opened SymbolCoding
  import opened BlockFormat
  import opened BlockSender
  import opened StreamFormat
  import opened StreamSteps
  import opened StreamMeaning
  import BlockChecksum

  // ---------- Numbers and bytes as bits ----------

  /** s, a string of n bits with value v, and p = 2^n. */
  ghost predicate IsNumber(s: seq<bool>, v: nat, n: nat, p: nat) {
    s == ToBits(v, n) && p == Pow2(n) && v < p
  }

  lemma {:induction false} ToBitsJoin(v: nat, a: nat, w: nat, b: nat)
    requires w < Pow2(b)
    ensures ToBits(v, a) + ToBits(w, b) == ToBits(v * Pow2(b) + w, a + b)
    decreases b
  {
    if b == 0 {
      assert ToBits(v, a) + [] == ToBits(v, a);
    } else {
      ToBitsJoin(v, a, w / 2, b - 1);
      HalfOfJoin(v, Pow2(b - 1), w);
    }
  }

  lemma HalfOfJoin(v: nat, p: nat, w: nat)
    ensures (v * (2 * p) + w) / 2 == v * p + w / 2 && (v * (2 * p) + w) % 2 == w % 2
  {
    assert v * (2 * p) == 2 * (v * p);
  }

  /** A field in front of a string whose value is known. */
  lemma Front(v: nat, a: nat, q: nat, s: seq<bool>, w: nat, b: nat, p: nat)
    requires Pow2(a) == q && v < q && IsNumber(s, w, b, p)
    ensures IsNumber(ToBits(v, a) + s, v * p + w, a + b, q * p)
  {
    hide ToBits, Pow2;
    ToBitsJoin(v, a, w, b);
    Pow2Sum(a, b);
    Bounded(v, q, w, p);
  }

  lemma Bounded(v: nat, q: nat, w: nat, p: nat)
    requires v < q && w < p
    ensures v * p + w < q * p
  {
    MulMonotone(v + 1, q, p);
  }

  lemma FrontByte(c: byte, s: seq<byte>, w: nat, b: nat, p: nat)
    requires IsNumber(BytesToBits(s), w, b, p)
    ensures IsNumber(BytesToBits([c] + s), c * p + w, 8 + b, 256 * p)
  {
    hide ToBits, Pow2, BytesToBits;
    Pow2Of24();
    BytesToBitsFirst(c, s);
    Front(c, 8, 256, BytesToBits(s), w, b, p);
  }

  // ---------- Nothing ----------

  /** The compressed empty file, of the largest block size. */
  function EmptyFile(): seq<byte> {
    [0x42, 0x5a, 0x68, 0x39, 0x17, 0x72, 0x45, 0x38, 0x50, 0x90, 0, 0, 0, 0]
  }

  lemma EmptyFileDecodes(sum: Checksum)
    requires sum.Good()
    ensures DecodeStream(sum, BytesToBits(EmptyFile())) == Result(StreamEnd, [], [])
  {
    hide DecodeStream, BytesToBits, BytesFrom, Checksum.Good;
    SentIsDecoded(sum, 9, [], []);
    BytesFromIsBits(FileMagic(9), 0);
    BytesFromIsBits(EndMagic() + [0, 0, 0, 0], 0);
    BytesToBitsConcat(FileMagic(9), EndMagic() + [0, 0, 0, 0]);
    assert EmptyFile() == FileMagic(9) + (EndMagic() + [0, 0, 0, 0]);
    assert FileMagic(9)[0..] == FileMagic(9) && (EndMagic() + [0, 0, 0, 0])[0..] == EndMagic() + [0, 0, 0, 0];
    var bits := BytesToBits(EmptyFile());
    assert WholeStream(9, sum, []) == bits by { assert BytesFrom(FileMagic(9), 0) + [] == BytesFrom(FileMagic(9), 0); }
    assert bits + [] == bits;
  }

  // ---------- The letter a ----------

  /** The compressed file of the letter a. */
  function LetterFile(): seq<byte> {
    LetterHead() + LetterBody()
  }

  /** Magic number and block size, magic number of a block and its checksum. */
  function LetterHead(): seq<byte> {
    [0x42, 0x5a, 0x68, 0x39, 0x31, 0x41, 0x59, 0x26, 0x53, 0x59, 0x19, 0x93, 0x9b, 0x6b]
  }

  function LetterBody(): seq<byte> {
    [0x0, 0x0, 0x0, 0x1, 0x0, 0x20, 0x0, 0x20, 0x0, 0x21, 0x18, 0x46, 0x82, 0xee, 0x48, 0xa7, 0xa, 0x12, 0x3, 0x32, 0x73, 0x6d, 0x60]
  }

  /** The value of a byte string, highest byte first. */
  function Big(s: seq<byte>): nat {
    if s == [] then 0 else 256 * Big(s[..|s| - 1]) + s[|s| - 1]
  }

  lemma NoBits()
    ensures ToBits(0, 0) == []
  {
  }

  lemma {:induction false} BytesAreBig(s: seq<byte>)
    ensures BytesToBits(s) == ToBits(Big(s), 8 * |s|)
  {
    hide ToBits, BytesToBits, Pow2;
    if s == [] {
      NoBytes(s);
      assert ToBits(0, 0) == [] by { NoBits(); }
    } else {
      var n := |s| - 1;
      BytesAreBig(s[..n]);
      Pow2Of24();
      ToBitsJoin(Big(s[..n]), 8 * n, s[n], 8);
      assert s == s[..n] + [s[n]];
      BytesToBitsAppend(s[..n], s[n]);
    }
  }

  lemma BigNext(s: seq<byte>, n: nat, v: nat, c: byte)
    requires n < |s| && Big(s[..n]) == v && s[n] == c
    ensures Big(s[..n + 1]) == 256 * v + c
  {
    assert s[..n + 1][..n] == s[..n];
  }

  lemma LetterBodyIs()
    ensures Big(LetterBody()) == 0x1002000200021184682ee48a70a120332736d60 && |LetterBody()| == 23
  {
    hide Big;
    var s := LetterBody();
    NoneBig(s[..0]);
    BigNext(s, 0, 0x0, 0x0);
    BigNext(s, 1, 0x0, 0x0);
    BigNext(s, 2, 0x0, 0x0);
    BigNext(s, 3, 0x0, 0x1);
    BigNext(s, 4, 0x1, 0x0);
    BigNext(s, 5, 0x100, 0x20);
    BigNext(s, 6, 0x10020, 0x0);
    BigNext(s, 7, 0x1002000, 0x20);
    BigNext(s, 8, 0x100200020, 0x0);
    BigNext(s, 9, 0x10020002000, 0x21);
    BigNext(s, 10, 0x1002000200021, 0x18);
    BigNext(s, 11, 0x100200020002118, 0x46);
    BigNext(s, 12, 0x10020002000211846, 0x82);
    BigNext(s, 13, 0x1002000200021184682, 0xee);
    BigNext(s, 14, 0x1002000200021184682ee, 0x48);
    BigNext(s, 15, 0x1002000200021184682ee48, 0xa7);
    BigNext(s, 16, 0x1002000200021184682ee48a7, 0xa);
    BigNext(s, 17, 0x1002000200021184682ee48a70a, 0x12);
    BigNext(s, 18, 0x1002000200021184682ee48a70a12, 0x3);
    BigNext(s, 19, 0x1002000200021184682ee48a70a1203, 0x32);
    BigNext(s, 20, 0x1002000200021184682ee48a70a120332, 0x73);
    BigNext(s, 21, 0x1002000200021184682ee48a70a12033273, 0x6d);
    BigNext(s, 22, 0x1002000200021184682ee48a70a120332736d, 0x60);
    assert s[..23] == s;
  }

  lemma NoneBig(s: seq<byte>)
    requires s == []
    ensures Big(s) == 0
  {
  }

  // ---------- Its block ----------

  function Used(): (u: seq<bool>)
    ensures |u| == 256
  {
    seq<bool>(256, i => i == 0x61)
  }

  /** Codes of two, two and one bits, in both tables. */
  function Table(): seq<int> { [2, 2, 1] }

  /** One RUNA, and the end mark. */
  function LetterContents(): Body {
    Body(Used(), [Table(), Table()], [0], [0], [0, 2])
  }

  function LetterBlock(): Sent {
    Sent([0x19, 0x93, 0x9b, 0x6b], 0, LetterContents(), [0x61], [Run(0x61, 1)])
  }

  lemma {:induction false} RankOfLetter(c: nat)
    requires c <= 256
    ensures Rank(Used(), c) == if c <= 0x61 then 0 else 1
  {
    if c > 0 { RankOfLetter(c - 1); }
  }

  lemma TableIsDecodable()
    ensures Decodable(Table())
  {
    Pow2Of17();
    assert Pow2(18) == 262144 && Pow2(19) == 524288 && Pow2(20) == 1048576;
    hide Pow2;
    var t := Table();
    assert Kraft(t, 1) == Pow2(18);
    assert Kraft(t, 2) == 2 * Pow2(18);
  }

  lemma FirstCodes()
    ensures First(Table(), 1) == 0 && First(Table(), 2) == 2
  {
    var t := Table();
    assert OfLength(t, 1, 1) == 0 && OfLength(t, 1, 2) == 0 && OfLength(t, 1, 3) == 1;
    assert OfLength(t, 0, 1) == 0 && OfLength(t, 0, 2) == 0 && OfLength(t, 0, 3) == 0;
    assert CanonicalHuffman.Used(t, 0) == 0 && First(t, 1) == 0 && CanonicalHuffman.Used(t, 1) == 1;
  }

  lemma ContentsAreValid()
    ensures LetterContents().Valid()
  {
    hide Decodable;
    TableIsDecodable();
    assert TablesAfter(2, [0], 0) == seq(2, t => t);
  }

  lemma LetterDecoded()
    ensures Decoded([0]) == [0]
  {
    hide Read;
    ReadSingle(Start(), RUNA);
  }

  lemma LetterIsSendable()
    ensures Sendable([Table(), Table()], [0], 0, [0, 2])
  {
    hide Decodable;
    TableIsDecodable();
    var lens := [Table(), Table()];
    assert SendableAt(lens, [0], 0, 0) && SendableAt(lens, [0], 0 + 1, 2);
  }

  lemma LetterRanks()
    ensures Used()[0x61] && Ranks(Used(), [0x61]) == [0]
  {
    hide Rank;
    RankOfLetter(0x61);
  }

  lemma LetterIsCarried()
    ensures Carries(LetterContents(), Used(), [0x61])
  {
    hide Decodable, Rank, Ranks, Used, Table, Body.Valid, Decoded, Sendable;
    ContentsAreValid();
    LetterIsSendable();
    TableSymbols();
    RankOfLetter(256);
    LetterDecoded();
    LetterRanks();
    assert [0, 2][..1] == [0];
  }

  lemma TableSymbols()
    ensures |Table()| == 3
  {
  }

  // ---------- Its checksum ----------

  lemma LetterChecksum(table: seq<bv32>)
    requires BlockChecksum.IsBzTable(table)
    ensures BzipChecksum(table).OfBytes([0x61]) == WordBytes(0x1993_9b6b) == [0x19, 0x93, 0x9b, 0x6b]
  {
    hide WordBytes, BlockChecksum.Steps, BlockChecksum.IsBzTable, Xor, Checksum.OfBytes;
    BlockChecksum.ChecksumIsBits(table, [0x61]);
    LetterRun();
    LetterSteps();
    LetterWord();
    LetterBytes();
  }

  lemma LetterRun()
    ensures BlockChecksum.BitRun(0xffff_ffff, [0x61]) == BlockChecksum.Steps(0x9eff_ffff, 8)
  {
    hide BlockChecksum.Steps, ToByte;
    SameByte(ToByte(0x61), 0x61);
    assert [0x61][..0] == [];
    assert BlockChecksum.BitRun(0xffff_ffff, []) == 0xffff_ffff;
    LetterOver();
  }

  lemma LetterOver()
    ensures Xor(0xffff_ffff, BlockChecksum.Top(0x61)) == 0x9eff_ffff
  {
  }

  lemma LetterSteps()
    ensures BlockChecksum.Steps(0x9eff_ffff, 8) == 0xe66c_6494
  {
    assert BlockChecksum.Steps(0x9eff_ffff, 2) == 0x727d_c492;
    assert BlockChecksum.Steps(0x9eff_ffff, 4) == 0xcd36_0fff;
    assert BlockChecksum.Steps(0x9eff_ffff, 6) == 0x399b_1925;
  }

  lemma LetterWord()
    ensures Xor(0xe66c_6494, 0xffff_ffff) == 0x1993_9b6b
  {
  }

  lemma LetterBytes()
    ensures WordBytes(0x1993_9b6b) == [0x19, 0x93, 0x9b, 0x6b]
  {
    assert ByteAt(0x1993_9b6b, 24) == 0x19 && ByteAt(0x1993_9b6b, 16) == 0x93 && ByteAt(0x1993_9b6b, 8) == 0x9b && ByteAt(0x1993_9b6b, 0) == 0x6b;
  }

  /** The combined checksum of one block is that of the block. */
  lemma LetterCombined(table: seq<bv32>)
    requires BlockChecksum.IsBzTable(table)
    ensures Combined(BzipChecksum(table), [LetterBlock()], 1) == [0x19, 0x93, 0x9b, 0x6b]
  {
    hide WordBytes, BytesWord, CombineWords, BlockChecksum.IsBzTable;
    TableSize(table);
    BlockChecksum.CombinedForm(table, [LetterBlock()], 0);
    BlockChecksum.CombinedForm(table, [LetterBlock()], 1);
    LetterBytes();
    BytesAreWord(0x1993_9b6b);
    FirstCombined();
  }

  lemma TableSize(table: seq<bv32>)
    requires BlockChecksum.IsBzTable(table)
    ensures |table| == 256
  {
  }

  lemma FirstCombined()
    ensures CombineWords(0, 0x1993_9b6b) == 0x1993_9b6b
  {
  }

  lemma LetterIsOk(table: seq<bv32>)
    requires BlockChecksum.IsBzTable(table)
    ensures LetterBlock().Ok(BzipChecksum(table), 900_000) && LetterContents().Valid()
  {
    hide WordBytes, BlockChecksum.IsBzTable, Checksum.OfBytes, Body.Valid, Carries, Used;
    TableSize(table);
    ContentsAreValid();
    LetterIsCarried();
    LetterChecksum(table);
    var runs := [Run(0x61, 1)];
    assert runs[..0] == [];
    assert Flatten(runs) == [0x61] && EncodeRuns(runs) == [0x61];
    assert Unsorted([0x61], 0, 1) == [0x61];
  }

  // ---------- Its bits ----------

  lemma TrailerBytes()
    ensures Big([0x17, 0x72, 0x45, 0x38, 0x50, 0x90, 0x19, 0x93, 0x9b, 0x6b]) == 0x1772_4538_5090_1993_9b6b
  {
    hide Big;
    var s: seq<byte> := [0x17, 0x72, 0x45, 0x38, 0x50, 0x90, 0x19, 0x93, 0x9b, 0x6b];
    NoneBig(s[..0]);
    BigNext(s, 0, 0x0, 0x17);
    BigNext(s, 1, 0x17, 0x72);
    BigNext(s, 2, 0x1772, 0x45);
    BigNext(s, 3, 0x177245, 0x38);
    BigNext(s, 4, 0x17724538, 0x50);
    BigNext(s, 5, 0x1772453850, 0x90);
    BigNext(s, 6, 0x177245385090, 0x19);
    BigNext(s, 7, 0x17724538509019, 0x93);
    BigNext(s, 8, 0x1772453850901993, 0x9b);
    BigNext(s, 9, 0x17724538509019939b, 0x6b);
    assert s[..10] == s;
  }

  lemma SomePowers()
    ensures Pow2(1) == 2 && Pow2(3) == 8 && Pow2(5) == 32 && Pow2(10) == 1024 && Pow2(15) == 32768 && Pow2(16) == 65536
    ensures Pow2(24) == 0x100_0000 && Pow2(80) == 0x1_0000_0000_0000_0000_0000
  {
    Pow2Of24();
    Pow2Of32();
    Pow2Sum(32, 32);
    Pow2Sum(64, 16);
    assert Pow2(15) == 32768;
    assert Pow2(2) == 4 && Pow2(9) == 512;
  }

  lemma Padding()
    ensures IsNumber(ToBits(0, 5), 0, 5, 32)
  {
    assert Pow2(2) == 4 && Pow2(4) == 16;
  }

  /** Everything behind the checksum of the block, field by field. */
  function Fields(): (s: seq<bool>) {
    ToBits(0, 1) + (ToBits(0, 24) + (ToBits(0x200, 16) + (ToBits(0x4000, 16) + (ToBits(2, 3) + (ToBits(1, 15) + (ToBits(0, 1) + (ToBits(70, 10) + (ToBits(70, 10) + (ToBits(4, 3) + (ToBits(0x17724538509019939b6b, 80) + ToBits(0, 5)))))))))))
  }

  lemma FieldsAre()
    ensures IsNumber(Fields(), 0x1002000200021184682ee48a70a120332736d60, 184, 0x10000000000000000000000000000000000000000000000)
  {
    hide ToBits, IsNumber, Pow2;
    SomePowers();
    Padding();
    var s0 := ToBits(0, 5);
    Front(0x17724538509019939b6b, 80, 0x100000000000000000000, s0, 0x0, 5, 0x20);
    var s1 := ToBits(0x17724538509019939b6b, 80) + s0;
    Front(0x4, 3, 0x8, s1, 0x2ee48a70a120332736d60, 85, 0x2000000000000000000000);
    var s2 := ToBits(0x4, 3) + s1;
    Front(0x46, 10, 0x400, s2, 0x82ee48a70a120332736d60, 88, 0x10000000000000000000000);
    var s3 := ToBits(0x46, 10) + s2;
    Front(0x46, 10, 0x400, s3, 0x4682ee48a70a120332736d60, 98, 0x4000000000000000000000000);
    var s4 := ToBits(0x46, 10) + s3;
    Front(0x0, 1, 0x2, s4, 0x1184682ee48a70a120332736d60, 108, 0x1000000000000000000000000000);
    var s5 := ToBits(0x0, 1) + s4;
    Front(0x1, 15, 0x8000, s5, 0x1184682ee48a70a120332736d60, 109, 0x2000000000000000000000000000);
    var s6 := ToBits(0x1, 15) + s5;
    Front(0x2, 3, 0x8, s6, 0x21184682ee48a70a120332736d60, 124, 0x10000000000000000000000000000000);
    var s7 := ToBits(0x2, 3) + s6;
    Front(0x4000, 16, 0x10000, s7, 0x200021184682ee48a70a120332736d60, 127, 0x80000000000000000000000000000000);
    var s8 := ToBits(0x4000, 16) + s7;
    Front(0x200, 16, 0x10000, s8, 0x2000200021184682ee48a70a120332736d60, 143, 0x800000000000000000000000000000000000);
    var s9 := ToBits(0x200, 16) + s8;
    Front(0x0, 24, 0x1000000, s9, 0x1002000200021184682ee48a70a120332736d60, 159, 0x8000000000000000000000000000000000000000);
    var s10 := ToBits(0x0, 24) + s9;
    Front(0x0, 1, 0x2, s10, 0x1002000200021184682ee48a70a120332736d60, 183, 0x8000000000000000000000000000000000000000000000);
    var s11 := ToBits(0x0, 1) + s10;
  }

  lemma FieldsAreBytes()
    ensures Fields() == BytesToBits(LetterBody())
  {
    hide ToBits, Pow2, Big, Fields, LetterBody, BytesToBits;
    FieldsAre();
    LetterBodyIs();
    BytesAreBig(LetterBody());
  }

  // ---------- Its fields ----------

  lemma {:induction false} Zeros(n: nat)
    ensures ToBits(0, n) == seq(n, _ => false)
  {
    if n > 0 { Zeros(n - 1); }
  }

  lemma OneBit(b: bool)
    ensures ToBits(if b then 1 else 0, 1) == [b]
  {
    assert ToBits(0, 0) == [];
  }

  lemma RowsInUse(i: nat)
    requires i < 16
    ensures RowUsed(Used(), i) <==> i == 6
  {
    if i == 6 { assert Used()[96..112][1]; }
  }

  lemma {:induction false} FlagsAre(i: nat)
    requires i <= 16
    ensures FlagBits(Used(), i) == ToBits(if i <= 6 then 0x200 else 0, 16 - i)
    decreases 16 - i
  {
    hide ToBits, Pow2, Used, RowUsed;
    if i < 16 {
      FlagsAre(i + 1);
      RowsInUse(i);
      OneBit(i == 6);
      FlagPowers(i);
      ToBitsJoin(if i == 6 then 1 else 0, 1, if i < 6 then 0x200 else 0, 15 - i);
      assert (if i == 6 then 1 else 0) * Pow2(15 - i) == if i == 6 then 0x200 else 0;
    } else {
      NoBits();
    }
  }

  lemma FlagPowers(i: nat)
    requires i < 16
    ensures Pow2(9) == 0x200 && (i < 6 ==> 0x200 < Pow2(15 - i))
  {
    if i < 6 { Pow2Monotone(10, 15 - i); }
    assert Pow2(2) == 4 && Pow2(4) == 16 && Pow2(6) == 64 && Pow2(8) == 256;
  }

  lemma {:induction false} RowsFrom(i: nat)
    requires i <= 16
    ensures RowBits(Used(), i) == if i <= 6 then Used()[96..112] else []
    decreases 16 - i
  {
    hide Used, RowUsed;
    if i < 16 {
      RowsFrom(i + 1);
      RowsInUse(i);
    }
  }

  lemma RowIs()
    ensures Used()[96..112] == ToBits(0x4000, 16)
  {
    hide Pow2;
    Zeros(14);
    assert ToBits(1, 2) == [false, true] by { assert ToBits(0, 0) == []; }
    assert Pow2(14) == 0x4000 by { FourteenthPower(); }
    ToBitsJoin(1, 2, 0, 14);
    assert Used()[96..112] == [false, true] + seq(14, _ => false);
  }

  lemma FourteenthPower()
    ensures Pow2(14) == 0x4000
  {
    assert Pow2(2) == 4 && Pow2(4) == 16 && Pow2(6) == 64 && Pow2(8) == 256 && Pow2(10) == 1024 && Pow2(12) == 4096;
  }

  lemma TableIs()
    ensures Lengths(Table()) && TableBits(Table()) == ToBits(70, 10)
  {
    var t := Table();
    assert LengthBits(t, 1, 3) == [];
    assert LengthBits(t, 2, 2) == [true, true, false] by { assert Moves(1, 1) == [false] && Moves(2, 1) == [true, true] + Moves(1, 1); }
    assert LengthBits(t, 2, 1) == [false, true, true, false] by { assert Moves(2, 2) == [false]; }
    assert LengthBits(t, 2, 0) == [false, false, true, true, false];
    FiveBits();
    assert Pow2(5) == 32;
    ToBitsJoin(2, 5, 6, 5);
  }

  lemma FiveBits()
    ensures ToBits(6, 5) == [false, false, true, true, false]
  {
    assert ToBits(0, 0) == [];
    assert ToBits(0, 2) == [false, false] by { assert ToBits(0, 1) == [false]; }
    assert ToBits(1, 3) == [false, false, true];
    assert ToBits(3, 4) == [false, false, true, true];
  }

  lemma TablesAre()
    ensures TablesBits([Table(), Table()], 0) == ToBits(70, 10) + ToBits(70, 10)
  {
    hide ToBits, TableBits, CanonicalHuffman.Lengths;
    TableIs();
    var lens := [Table(), Table()];
    assert TablesBits(lens, 2) == [];
    assert TablesBits(lens, 1) == ToBits(70, 10) + [];
    assert ToBits(70, 10) + [] == ToBits(70, 10);
  }

  lemma SymbolsAre()
    ensures SymbolBits([Table(), Table()], [0], 0, [0, 2]) == ToBits(4, 3)
  {
    hide ToBits, First;
    FirstCodes();
    TableIsDecodable();
    var lens, syms := [Table(), Table()], [0, 2];
    assert CodeBits(Table(), 0) == ToBits(2, 2) && CodeBits(Table(), 2) == ToBits(0, 1) by { assert OfLength(Table(), 2, 0) == 0 && OfLength(Table(), 1, 2) == 0; }
    assert syms[1..] == [2] && [2][1..] == [];
    assert SymbolBits(lens, [0], 2, []) == [];
    assert SymbolBits(lens, [0], 1, [2]) == ToBits(0, 1) + [];
    assert ToBits(0, 1) + [] == ToBits(0, 1);
    ToBitsJoin(2, 2, 0, 1) by { assert Pow2(1) == 2; }
    assert Pow2(1) == 2;
  }

  /** The parts of the block behind its checksum, the trailer and the padding. */
  lemma PartsAre(flag: seq<bool>, start: seq<bool>, flags: seq<bool>, rows: seq<bool>, groups: seq<bool>, count: seq<bool>, unary: seq<bool>,
                 tables: seq<bool>, table: seq<bool>, syms: seq<bool>, trailer: seq<bool>, pad: seq<bool>)
    ensures ((flag + start) + (flags + (rows + (groups + (count + (unary + ((tables + table) + syms))))))) + (trailer + pad)
            == flag + (start + (flags + (rows + (groups + (count + (unary + (tables + (table + (syms + (trailer + pad))))))))))
  {
  }

  lemma TrailerIs()
    ensures BytesFrom(EndMagic() + [0x19, 0x93, 0x9b, 0x6b], 0) == ToBits(0x1772_4538_5090_1993_9b6b, 80)
  {
    hide ToBits, BytesToBits, BytesFrom, Big;
    var s: seq<byte> := [0x17, 0x72, 0x45, 0x38, 0x50, 0x90, 0x19, 0x93, 0x9b, 0x6b];
    assert EndMagic() + [0x19, 0x93, 0x9b, 0x6b] == s && s[0..] == s;
    BytesFromIsBits(s, 0);
    BytesAreBig(s);
    TrailerBytes();
  }

  lemma EncodingIs()
    ensures LetterContents().Valid()
    ensures LetterContents().Encoding() == ToBits(0x200, 16) + (ToBits(0x4000, 16) + (ToBits(2, 3) + (ToBits(1, 15) + (ToBits(0, 1) +
            ((ToBits(70, 10) + ToBits(70, 10)) + ToBits(4, 3))))))
  {
    hide ToBits, Used, Table, TablesBits, SymbolBits, FlagBits, RowBits, Body.Valid, Decodable;
    ContentsAreValid();
    FlagsAre(0);
    RowsFrom(0);
    RowIs();
    TablesAre();
    SymbolsAre();
    OneBit(false);
    assert UnaryBits([0], 1) == [];
    assert UnaryBits([0], 0) == [false] by { assert Unary(0) == [false]; }
  }

  lemma HeadIs()
    ensures BytesFrom(FileMagic(9), 0) + BytesFrom(BlockMagic() + [0x19, 0x93, 0x9b, 0x6b], 0) == BytesToBits(LetterHead())
  {
    hide ToBits, BytesToBits, BytesFrom;
    var a, b := FileMagic(9), BlockMagic() + [0x19, 0x93, 0x9b, 0x6b];
    BytesFromIsBits(a, 0);
    BytesFromIsBits(b, 0);
    assert a[0..] == a && b[0..] == b && a + b == LetterHead();
    BytesToBitsConcat(a, b);
  }

  lemma Regrouped(a: seq<bool>, b: seq<bool>, c: seq<bool>, d: seq<bool>, e: seq<bool>, f: seq<bool>)
    ensures ((a + (((b + c) + d) + [])) + e) + f == (a + b) + ((c + d) + (e + f))
  {
  }

  lemma BlockBitsAre(s: Sent)
    requires s.body.Valid()
    ensures BlocksBits([s], 0) == s.Bits() + []
  {
    assert BlocksBits([s], 1) == [];
  }

  /** The file is the header, the block, the trailer and five bits of padding. */
  lemma LetterFileIs(table: seq<bv32>)
    requires BlockChecksum.IsBzTable(table)
    ensures LetterContents().Valid() && WholeStream(9, BzipChecksum(table), [LetterBlock()]) + ToBits(0, 5) == BytesToBits(LetterFile())
  {
    hide ToBits, BytesToBits, BytesFrom, Body.Valid, Body.Encoding, BlockChecksum.IsBzTable, LetterHead, LetterBody, Combined, BlocksBits, FileMagic, BlockMagic, EndMagic;
    ContentsAreValid();
    LetterCombined(table);
    BlockBitsAre(LetterBlock());
    EncodingIs();
    OneBit(false);
    TrailerIs();
    FieldsAreBytes();
    HeadIs();
    BytesToBitsConcat(LetterHead(), LetterBody());
    var crc: seq<byte> := [0x19, 0x93, 0x9b, 0x6b];
    var e := LetterContents().Encoding();
    Regrouped(BytesFrom(FileMagic(9), 0), BytesFrom(BlockMagic() + crc, 0), [false] + ToBits(0, 24), e, BytesFrom(EndMagic() + crc, 0), ToBits(0, 5));
    PartsAre(ToBits(0, 1), ToBits(0, 24), ToBits(0x200, 16), ToBits(0x4000, 16), ToBits(2, 3), ToBits(1, 15), ToBits(0, 1),
             ToBits(70, 10), ToBits(70, 10), ToBits(4, 3), ToBits(0x1772_4538_5090_1993_9b6b, 80), ToBits(0, 5));
  }

  /** The compressed file of the letter a is decoded to the letter a. */
  lemma LetterFileDecodes(table: seq<bv32>)
    requires BlockChecksum.IsBzTable(table)
    ensures DecodeStream(BzipChecksum(table), BytesToBits(LetterFile())) == Result(StreamEnd, [0x61], ToBits(0, 5))
  {
    hide DecodeStream, BytesToBits, ToBits, WholeStream, Body.Valid, Sent.Ok, BlockChecksum.IsBzTable, LetterFile;
    TableSize(table);
    BzipIsGood(table);
    LetterIsOk(table);
    LetterFileIs(table);
    var sent := [LetterBlock()];
    assert BytesOf(sent, 0) == [];
    assert Flatten([Run(0x61, 1)]) == [0x61] by { assert [Run(0x61, 1)][..0] == []; }
    assert BytesOf(sent, 1) == [0x61];
    SentIsDecoded(BzipChecksum(table), 9, sent, ToBits(0, 5));
  }
}
