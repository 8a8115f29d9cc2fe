/** The checksum of a bzip2 block, bit by bit: what the table of the program stands for, and how the blocks' checksums go together. */
module BlockChecksum {
  import opened ByteCasts
  import opened Checksums
  import opened StreamFormat
  import opened WordBits
  import opened Words

  // ---------- One bit at a time ----------

  /** The register after one bit, the highest first. */
  function Step(x: bv32): bv32 {
    if Clear(x) then Twice(x) else Xor(Twice(x), 0x04c1_1db7)
  }

  /** The highest bit is not set. */
  predicate Clear(x: bv32) { x & 0x8000_0000 == 0 }

  function Steps(x: bv32, n: nat): bv32 {
    if n == 0 then x else Step(Steps(x, n - 1))
  }

  /** `i << 24` */
  function Top(b: bv8): bv32 { (b as bv32) << 24 }

  /** The table of the library: entry i is what eight steps make of i in the highest byte. */
  ghost predicate IsBzTable(table: seq<bv32>) {
    |table| == 256 && forall i :: 0 <= i < 256 ==> table[i] == Steps(Top(ToByte(i)), 8)
  }

  /** The register after a string, without a table. */
  function BitRun(c: bv32, s: seq<byte>): bv32 {
    if s == [] then c else ByteStep(BitRun(c, s[..|s| - 1]), ToByte(s[|s| - 1]))
  }

  /** The byte is laid over the highest one, and eight steps are taken. */
  function ByteStep(c: bv32, b: bv8): bv32 {
    Steps(Xor(c, Top(b)), 8)
  }

  /** There is such a table, and its second and last words are the ones listed in the source. */
  lemma TableExists()
    ensures exists table :: IsBzTable(table)
    ensures forall table :: IsBzTable(table) ==> table[1] == 0x04c1_1db7 && table[255] == 0xb1f7_40b4
  {
    hide Steps, Top, ToByte;
    var table := seq<bv32>(256, i requires 0 <= i < 256 => Steps(Top(ToByte(i)), 8));
    assert IsBzTable(table);
    TopBytes();
    StepsOfOne();
    StepsOfLast();
  }

  lemma TopBytes()
    ensures Top(ToByte(1)) == 0x0100_0000 && Top(ToByte(255)) == 0xff00_0000
  {
    hide ToByte;
    SameByte(ToByte(1), 1);
    SameByte(ToByte(255), 255);
  }

  lemma StepsOfOne()
    ensures Steps(0x0100_0000, 8) == 0x04c1_1db7
  {
    assert Steps(0x0100_0000, 4) == 0x1000_0000;
  }

  lemma StepsOfLast()
    ensures Steps(0xff00_0000, 8) == 0xb1f7_40b4
  {
    assert Steps(0xff00_0000, 4) == 0xc84f_bdbd;
  }

  // ---------- The steps are linear ----------

  lemma ClearAdds(a: bv32, b: bv32)
    ensures Clear(Xor(a, b)) <==> Clear(a) == Clear(b)
  {
  }

  lemma TwiceAdds(a: bv32, b: bv32)
    ensures Twice(Xor(a, b)) == Xor(Twice(a), Twice(b))
  {
  }

  lemma StepAdds(a: bv32, b: bv32)
    ensures Step(Xor(a, b)) == Xor(Step(a), Step(b))
  {
    hide Xor, Clear, Twice;
    var x, y, p := Twice(a), Twice(b), 0x04c1_1db7;
    ClearAdds(a, b);
    TwiceAdds(a, b);
    XorLaws(x, y, p);
    XorLaws(x, p, y);
    XorLaws(y, p, x);
    XorSwap(x, p, y, p);
    XorLaws(p, p, 0);
    XorLaws(Xor(x, y), 0, 0);
  }

  lemma {:induction false} StepsAdd(a: bv32, b: bv32, n: nat)
    ensures Steps(Xor(a, b), n) == Xor(Steps(a, n), Steps(b, n))
  {
    hide Step, Xor;
    if n > 0 {
      StepsAdd(a, b, n - 1);
      StepAdds(Steps(a, n - 1), Steps(b, n - 1));
    }
  }

  lemma {:induction false} StepsTwice(x: bv32, m: nat, n: nat)
    ensures Steps(Steps(x, m), n) == Steps(x, m + n)
  {
    hide Step;
    if n > 0 { StepsTwice(x, m, n - 1); }
  }

  /** All but the highest byte. */
  function Lower24(x: bv32): bv32 { x & 0x00ff_ffff }

  lemma ClearStep(x: bv32)
    requires Clear(x)
    ensures Step(x) == Twice(x)
  {
  }

  lemma TwoSteps(x: bv32)
    requires Clear(x) && Clear(Twice(x))
    ensures Steps(x, 2) == Twice(Twice(x))
  {
    hide Step, Clear, Twice;
    ClearStep(x);
    ClearStep(Twice(x));
    assert Steps(x, 1) == Step(x);
  }

  lemma Lower24Clear(x: bv32)
    ensures var u := Lower24(x); var u2 := Twice(Twice(u)); var u4 := Twice(Twice(u2)); var u6 := Twice(Twice(u4));
            && Clear(u) && Clear(Twice(u)) && Clear(u2) && Clear(Twice(u2)) && Clear(u4) && Clear(Twice(u4)) && Clear(u6) && Clear(Twice(u6))
            && Twice(Twice(u6)) == LeftByte(x)
  {
  }

  /** Without its highest byte a word is just shifted. */
  lemma EightLower(x: bv32)
    ensures Steps(Lower24(x), 8) == LeftByte(x)
  {
    hide Steps, Lower24, Twice, Clear, LeftByte;
    var u := Lower24(x);
    var u2 := Twice(Twice(u));
    var u4 := Twice(Twice(u2));
    Lower24Clear(x);
    TwoSteps(u);
    TwoSteps(u2);
    TwoSteps(u4);
    TwoSteps(Twice(Twice(u4)));
    StepsTwice(u, 2, 2);
    StepsTwice(u, 4, 2);
    StepsTwice(u, 6, 2);
  }

  lemma SplitWord(x: bv32)
    ensures x == Xor(Top(HighByte(x)), Lower24(x))
  {
  }

  /** Eight steps, with one look into the table. */
  lemma EightSteps(x: bv32)
    ensures Steps(x, 8) == Xor(Steps(Top(HighByte(x)), 8), LeftByte(x))
  {
    hide Steps, Top, HighByte, Lower24, LeftByte, Xor;
    SplitWord(x);
    StepsAdd(Top(HighByte(x)), Lower24(x), 8);
    EightLower(x);
  }

  // ---------- The register ----------

  lemma LaidOverTop(crc: bv32, c: bv8)
    ensures HighByte(Xor(crc, Top(c))) == LaidOver(HighByte(crc), c) && LeftByte(Xor(crc, Top(c))) == LeftByte(crc)
  {
  }

  /** `(crcVar << 8) ^ BZ2_crc32Table[..]` is eight single steps. */
  lemma UpdateIsSteps(table: seq<bv32>, crc: bv32, c: byte)
    requires IsBzTable(table)
    ensures UpdateWord(table, crc, c) == Steps(Xor(crc, Top(ToByte(c))), 8)
  {
    hide Steps, Top, HighByte, LeftByte, ToByte, Xor, LaidOver;
    var x, i := Xor(crc, Top(ToByte(c))), LaidOver(HighByte(crc), ToByte(c));
    LaidOverTop(crc, ToByte(c));
    EightSteps(x);
    ByteIndex(i);
    XorLaws(LeftByte(crc), Steps(Top(i), 8), 0);
  }

  /** With that table the register of a block is the bitwise one, started from all ones. */
  lemma {:induction false} RegisterIsBits(table: seq<bv32>, s: seq<byte>)
    requires IsBzTable(table)
    ensures BzipChecksum(table).Register(s) == BitRun(0xffff_ffff, s)
  {
    hide UpdateWord, Steps, Top, ToByte, Xor;
    RegisterForm(table, s);
    if s != [] {
      RegisterIsBits(table, s[..|s| - 1]);
      UpdateIsSteps(table, BitRun(0xffff_ffff, s[..|s| - 1]), s[|s| - 1]);
    }
  }

  lemma RegisterForm(table: seq<bv32>, s: seq<byte>)
    requires |table| == 256
    ensures BzipChecksum(table).Register(s) ==
            if s == [] then 0xffff_ffff else UpdateWord(table, BzipChecksum(table).Register(s[..|s| - 1]), s[|s| - 1])
    ensures BzipChecksum(table).OfBytes(s) == WordBytes(FinishWord(BzipChecksum(table).Register(s)))
  {
    hide UpdateWord, WordBytes, FinishWord;
  }

  /** The checksum of a block: the complement of the bitwise register, highest byte first. */
  lemma ChecksumIsBits(table: seq<bv32>, s: seq<byte>)
    requires IsBzTable(table)
    ensures BzipChecksum(table).OfBytes(s) == WordBytes(Xor(BitRun(0xffff_ffff, s), 0xffff_ffff))
  {
    hide WordBytes, Xor, FinishWord, Steps;
    RegisterIsBits(table, s);
    RegisterForm(table, s);
    Complement(BitRun(0xffff_ffff, s));
  }

  lemma Complement(w: bv32)
    ensures FinishWord(w) == Xor(w, 0xffff_ffff) && Xor(w, Xor(w, 0xffff_ffff)) == 0xffff_ffff
  {
  }

  // ---------- The residue ----------

  function Rest(w: bv32, k: nat): bv32 {
    if k == 0 then w else LeftByte(Rest(w, k - 1))
  }

  /** After a byte of a word has been fed in, the register and what is left of the word add up to eight steps of both. */
  lemma OneByte(c: bv32, w: bv32)
    ensures Xor(ByteStep(c, HighByte(w)), LeftByte(w)) == Steps(Xor(c, w), 8)
  {
    hide Steps, Top, HighByte, LeftByte, Xor;
    var b := Top(HighByte(w));
    EightSteps(w);
    StepsAdd(c, b, 8);
    StepsAdd(c, w, 8);
    XorLaws(Steps(c, 8), Steps(b, 8), LeftByte(w));
  }

  lemma {:induction false} SomeBytes(c: bv32, w: bv32, s: seq<byte>)
    requires |s| <= 4 && forall k :: 0 <= k < |s| ==> ToByte(s[k]) == HighByte(Rest(w, k))
    ensures Xor(BitRun(c, s), Rest(w, |s|)) == Steps(Xor(c, w), 8 * |s|)
  {
    hide HighByte, Xor, LeftByte, ByteStep, ToByte, Step;
    var n := |s|;
    if n > 0 {
      SomeBytes(c, w, s[..n - 1]);
      OneByte(BitRun(c, s[..n - 1]), Rest(w, n - 1));
      StepsTwice(Xor(c, w), 8 * (n - 1), 8);
    }
  }

  lemma BytesAreHigh(w: bv32)
    ensures ByteAt(w, 24) == HighByte(w) && ByteAt(w, 16) == HighByte(LeftByte(w)) && ByteAt(w, 8) == HighByte(LeftByte(LeftByte(w)))
    ensures ByteAt(w, 0) == HighByte(LeftByte(LeftByte(LeftByte(w)))) && LeftByte(LeftByte(LeftByte(LeftByte(w)))) == 0
  {
  }

  lemma FourRests(w: bv32)
    ensures Rest(w, 0) == w && Rest(w, 1) == LeftByte(w) && Rest(w, 2) == LeftByte(LeftByte(w)) && Rest(w, 3) == LeftByte(LeftByte(LeftByte(w)))
    ensures Rest(w, 4) == LeftByte(LeftByte(LeftByte(LeftByte(w))))
  {
    hide LeftByte;
    assert Rest(w, 2) == LeftByte(Rest(w, 1));
    assert Rest(w, 4) == LeftByte(Rest(w, 3));
  }

  /** The bytes of a word, as bit vectors. */
  lemma WordBytesAre(w: bv32)
    ensures var s := WordBytes(w); ToByte(s[0]) == ByteAt(w, 24) && ToByte(s[1]) == ByteAt(w, 16) && ToByte(s[2]) == ByteAt(w, 8) && ToByte(s[3]) == ByteAt(w, 0)
  {
    hide ToByte, ByteAt;
    ByteIndex(ByteAt(w, 24));
    ByteIndex(ByteAt(w, 16));
    ByteIndex(ByteAt(w, 8));
    ByteIndex(ByteAt(w, 0));
  }

  lemma FourBytes(c: bv32, w: bv32)
    ensures BitRun(c, WordBytes(w)) == Steps(Xor(c, w), 32)
  {
    hide HighByte, Xor, LeftByte, BitRun, ToByte, Steps, ByteAt, WordBytes, Rest;
    BytesAreHigh(w);
    WordBytesAre(w);
    FourRests(w);
    var s := WordBytes(w);
    forall k | 0 <= k < 4 ensures ToByte(s[k]) == HighByte(Rest(w, k)) {
      if k == 0 { } else if k == 1 { } else if k == 2 { } else { }
    }
    SomeBytes(c, w, s);
    XorLaws(BitRun(c, s), 0, 0);
  }

  lemma {:induction false} RunConcat(c: bv32, s: seq<byte>, t: seq<byte>)
    ensures BitRun(c, s + t) == BitRun(BitRun(c, s), t)
  {
    hide ByteStep, ToByte;
    if t == [] {
      assert s + t == s;
    } else {
      var n := |t| - 1;
      RunConcat(c, s, t[..n]);
      assert (s + t)[..|s + t| - 1] == s + t[..n];
    }
  }

  lemma AllOnesStepped()
    ensures Steps(0xffff_ffff, 32) == 0xc704_dd7b
  {
    assert Steps(0xffff_ffff, 4) == 0xc7b0_424d;
    assert Steps(0xffff_ffff, 8) == 0x4e08_bfb4;
    assert Steps(0xffff_ffff, 12) == 0xf38f_8d9c;
    assert Steps(0xffff_ffff, 16) == 0x00b7_647d;
    assert Steps(0xffff_ffff, 20) == 0x0b76_47d0;
    assert Steps(0xffff_ffff, 24) == 0xb764_7d00;
    assert Steps(0xffff_ffff, 28) == 0x5d0c_1b61;
  }

  /** Followed by its checksum, every block leaves the register at c704dd7b. */
  lemma Residue(table: seq<bv32>, s: seq<byte>)
    requires IsBzTable(table)
    ensures BzipChecksum(table).Register(s + BzipChecksum(table).OfBytes(s)) == 0xc704_dd7b
  {
    hide Steps, WordBytes, Xor, BitRun, IsBzTable, Checksum.Register, Checksum.OfBytes;
    var r := BitRun(0xffff_ffff, s);
    var w := Xor(r, 0xffff_ffff);
    ChecksumIsBits(table, s);
    RegisterIsBits(table, s + WordBytes(w));
    RunConcat(0xffff_ffff, s, WordBytes(w));
    FourBytes(r, w);
    Complement(r);
    AllOnesStepped();
  }

  // ---------- Several blocks ----------

  lemma TurnedForm(c: bv32)
    ensures Turned(c) == Or(Twice(c), Down(c, 31))
  {
    hide Down;
    DownOfTwentyFour(c);
    DownDown(c, 24, 7);
    var x := Down(c, 24);
    assert Down(x, 7) == x >> 7 by { DownOfSeven(x); }
  }

  lemma DownOfSeven(x: bv32)
    ensures Down(x, 7) == x >> 7
  {
    assert Down(x, 2) == Half(Half(x)) by { assert Down(x, 1) == Half(x); }
    assert Down(x, 4) == Half(Half(Down(x, 2)));
    assert Down(x, 6) == Half(Half(Down(x, 4)));
  }

  lemma TurnedBit(c: bv32, i: nat)
    requires i < 32
    ensures BitOf(Turned(c), i) == BitOf(c, (i + 31) % 32)
  {
    hide BitOf, Turned, Or, Twice, Down;
    TurnedForm(c);
    var top := Down(c, 31);
    BitLaws(Twice(c), top, i);
    TwiceBit(c, i);
    DownBit(c, 31, i);
    TurnsFrom(i);
    if i > 0 { NoHighBits(c, i + 31); }
  }

  lemma TurnsFrom(i: nat)
    requires i < 32
    ensures (i + 31) % 32 == if i == 0 then 31 else i - 1
  {
  }

  /** Whether an odd number of the blocks j, j + 1, up to n, have set the bit that n - 1 - k turns take to place i, for block k. */
  ghost predicate OddAt(sent: seq<Sent>, j: nat, n: nat, i: nat)
    requires j <= n <= |sent|
    decreases n - j
  {
    j < n && BitOf(BytesWord(sent[j].crc), (i - (n - 1 - j)) % 32) != OddAt(sent, j + 1, n, i)
  }

  lemma {:induction false} OneBlockMore(sent: seq<Sent>, j: nat, n: nat, i: nat)
    requires j <= n < |sent| && i < 32
    ensures OddAt(sent, j, n + 1, i) == (OddAt(sent, j, n, (i + 31) % 32) != BitOf(BytesWord(sent[n].crc), i))
    decreases n - j
  {
    hide BitOf, BytesWord;
    if j < n {
      OneBlockMore(sent, j + 1, n, i);
      TurnedPlace(i, n - j);
    } else {
      assert !OddAt(sent, n + 1, n + 1, i);
    }
  }

  lemma TurnedPlace(i: nat, d: nat)
    requires d > 0 && i < 32
    ensures (i - d) % 32 == ((i + 31) % 32 - (d - 1)) % 32
  {
    if i == 0 { assert (0 - d) % 32 == (31 - (d - 1) - 32) % 32; } else { assert (i + 31) % 32 == i - 1; }
  }

  /** The checksum of n blocks is the exclusive or of their words, that of block k turned to the left n - 1 - k times. */
  lemma {:induction false} CombinedBit(table: seq<bv32>, sent: seq<Sent>, n: nat, i: nat)
    requires |table| == 256 && n <= |sent| && i < 32
    ensures BitOf(BytesWord(Combined(BzipChecksum(table), sent, n)), i) == OddAt(sent, 0, n, i)
  {
    hide BitOf, BytesWord, WordBytes, CombineWords;
    CombinedForm(table, sent, n);
    if n == 0 {
      ZeroBits(i);
    } else {
      var c, d := BytesWord(Combined(BzipChecksum(table), sent, n - 1)), BytesWord(sent[n - 1].crc);
      CombinedBit(table, sent, n - 1, (i + 31) % 32);
      OneBlockMore(sent, 0, n - 1, i);
      BytesAreWord(CombineWords(c, d));
      CombineBit(c, d, i);
    }
  }

  lemma CombineBit(c: bv32, d: bv32, i: nat)
    requires i < 32
    ensures BitOf(CombineWords(c, d), i) == (BitOf(c, (i + 31) % 32) != BitOf(d, i))
  {
    hide BitOf, Turned, Xor;
    TurnedBit(c, i);
    BitLaws(Turned(c), d, i);
  }

  lemma CombinedForm(table: seq<bv32>, sent: seq<Sent>, n: nat)
    requires |table| == 256 && n <= |sent|
    ensures n == 0 ==> BytesWord(Combined(BzipChecksum(table), sent, n)) == 0
    ensures n > 0 ==> Combined(BzipChecksum(table), sent, n) ==
                      WordBytes(CombineWords(BytesWord(Combined(BzipChecksum(table), sent, n - 1)), BytesWord(sent[n - 1].crc)))
  {
    hide WordBytes, CombineWords;
    ZeroJoin();
    if n > 0 { hide BytesWord; }
  }

  lemma ZeroJoin()
    ensures BytesWord([0, 0, 0, 0]) == 0
  {
    assert ToByte(0) == 0;
  }
}
