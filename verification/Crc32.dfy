/** The CRC of a buffer: bytes up to a word boundary, braids of words, and the bytes that are left. */
module Crc32 {
  import opened ByteCasts
  import opened CrcPolynomials
  import opened CrcTables
  import opened CrcCombine
  import opened CrcBraids

  // ---------- Braid tables ----------

  /** What byte i, as the k-th of a word, has become at that word's place in the next block. */
  function BraidEntry(k: nat, i: nat): bv32
    requires k < W && i < 256
  {
    ShiftUp(Widen(ToByte(i)), 8 * (N * W - k))
  }

  ghost predicate IsBraidTable(table: seq<bv32>, k: nat)
    requires k < W
  {
    |table| == 256 && forall i :: 0 <= i < 256 ==> table[i] == BraidEntry(k, i)
  }

  ghost predicate AreBraidTables(tables: seq<array<bv32>>)
    reads set k | 0 <= k < |tables| :: tables[k]
  {
    |tables| == W && forall k :: 0 <= k < W ==> IsBraidTable(tables[k][..], k)
  }

  /** `i << 24` */
  function High(b: bv8): bv32 { (b as bv32) << 24 }

  lemma HighBits(b: bv8)
    ensures Upper(High(b)) == High(b) && Upper(Right8(High(b))) == Right8(High(b)) && Upper(Right8(Right8(High(b)))) == Right8(Right8(High(b)))
    ensures Right8(Right8(Right8(High(b)))) == Widen(b)
    ensures b != 0 ==> High(b) != 0
  {
  }

  lemma HighIsWidened(b: bv8)
    ensures ShiftUp(High(b), 24) == Widen(b)
  {
    hide ShiftUp, Upper, Right8, High, Widen;
    HighBits(b);
    var h := High(b);
    UpperEight(h);
    UpperEight(Right8(h));
    UpperEight(Right8(Right8(h)));
    ShiftUpTwice(h, 8, 8);
    ShiftUpTwice(h, 16, 8);
  }

  lemma EntryByProduct(k: nat, b: bv8)
    requires k < W
    ensures Product(High(b), ShiftUp(One(), 8 * (N * W + 3 - k))) == ShiftUp(Widen(b), 8 * (N * W - k))
  {
    hide ShiftUp, High, Widen, Product, One;
    ProductPower(High(b), 8 * (N * W + 3 - k));
    ShiftUpTwice(High(b), 24, 8 * (N * W - k));
    HighIsWidened(b);
  }

  method BraidTable(x2n: array<bv32>, k: nat) returns (ltl: array<bv32>)
    requires IsX2nTable(x2n[..]) && k < W
    ensures fresh(ltl) && IsBraidTable(ltl[..], k)
  {
    hide ShiftUp, High, Widen, Product, One;
    var p := X2nmodp(x2n, 8 * (N * W + 3 - k), 0);
    assert Powers.Pow2(0) == 1;
    ltl := new bv32[256];
    ltl[0] := 0;
    ZeroEntry(k);
    for i := 1 to 256
      invariant forall j :: 0 <= j < i ==> ltl[j] == BraidEntry(k, j)
    {
      ByteNotZero(ToByte(i));
      HighNotZero(ToByte(i));
      EntryByProduct(k, ToByte(i));
      var q := Multmodp(High(ToByte(i)), p);
      ltl[i] := q;
    }
  }

  lemma ByteNotZero(b: bv8)
    requires b as int != 0
    ensures b != 0
  {
  }

  lemma HighNotZero(b: bv8)
    requires b != 0
    ensures High(b) != 0
  {
  }

  lemma ZeroEntry(k: nat)
    requires k < W
    ensures BraidEntry(k, 0) == 0
  {
    hide ShiftUp;
    assert ToByte(0) == 0;
    WidenZero();
    ZeroShift(8 * (N * W - k));
  }

  lemma WidenZero()
    ensures Widen(0) == 0
  {
  }

  method Braid(x2n: array<bv32>) returns (tables: seq<array<bv32>>)
    requires IsX2nTable(x2n[..])
    ensures AreBraidTables(tables)
  {
    hide IsBraidTable;
    tables := [];
    for k := 0 to W
      invariant |tables| == k && forall j :: 0 <= j < k ==> fresh(tables[j]) && IsBraidTable(tables[j][..], j)
    {
      var ltl := BraidTable(x2n, k);
      tables := tables + [ltl];
    }
  }

  // ---------- Braids ----------

  /** One word of a braid: its register, carried over to the same place in the next block. */
  method BraidWord(tables: seq<array<bv32>>, word: bv64) returns (crc: bv32)
    requires AreBraidTables(tables)
    ensures crc == ShiftUp(WordRegister(word), 64 * (N - 1))
  {
    hide ShiftUp, Widen, Add, Register, Byte64, Right64, Tail;
    crc := 0;
    NoBytes(0, word);
    ZeroShift(8 * (N * W));
    var data := word;
    for k := 0 to W
      invariant data == Tail(word, k)
      invariant crc == ShiftUp(Register(0, Bytes(word, k)), 8 * (N * W - k))
    {
      var b := Byte64(data);
      ByteIndex(b);
      assert IsBraidTable(tables[k][..], k);
      assert tables[k][..][b as int] == BraidEntry(k, b as int);
      OneMoreByte(word, k);
      crc := if k == 0 then tables[0][b as int] else Add(crc, tables[k][b as int]);
      data := NextTail(word, k, data);
    }
  }

  method NextTail(ghost word: bv64, ghost k: nat, data: bv64) returns (r: bv64)
    requires data == Tail(word, k)
    ensures r == Tail(word, k + 1)
  {
    r := Right64(data);
  }

  lemma OneMoreByte(word: bv64, k: nat)
    requires k < W
    ensures var before, b := ShiftUp(Register(0, Bytes(word, k)), 8 * (N * W - k)), Byte64(Tail(word, k));
            && ShiftUp(Register(0, Bytes(word, k + 1)), 8 * (N * W - (k + 1))) == Add(before, ShiftUp(Widen(b), 8 * (N * W - k)))
            && (k == 0 ==> before == 0 && Add(before, ShiftUp(Widen(b), 8 * (N * W - k))) == ShiftUp(Widen(b), 8 * (N * W - k)))
  {
    hide ShiftUp, Widen, Add, Register, Byte64, Tail;
    var c, b := Register(0, Bytes(word, k)), Byte64(Tail(word, k));
    RegisterAppend(0, Bytes(word, k), b);
    ShiftUpTwice(Add(c, Widen(b)), 8, 8 * (N * W - (k + 1)));
    ShiftUpAdds(c, Widen(b), 8 * (N * W - k));
    NoBytes(0, word);
    ZeroShift(8 * (N * W));
    AddLaws(ShiftUp(Widen(b), 8 * (N * W - k)), 0, 0);
  }

  /** The registers of words. */
  function Registers(ws: seq<bv64>): (r: seq<bv32>)
    ensures |r| == |ws| && forall i :: 0 <= i < |ws| ==> r[i] == WordRegister(ws[i])
  {
    seq<bv32>(|ws|, i requires 0 <= i < |ws| => WordRegister(ws[i]))
  }

  /** The registers of a block of words into which the braids have been added. */
  function Injected(crcs: seq<bv32>, gs: seq<bv32>): seq<bv32>
    requires |crcs| <= |gs|
  {
    Sums(gs[..|crcs|], ShiftAll(crcs, 64)) + gs[|crcs|..]
  }

  lemma InjectedFirst(c: bv32, gs: seq<bv32>)
    requires |gs| >= N
    ensures Injected([c, 0, 0, 0, 0], gs) == [Add(gs[0], ShiftUp(c, 64))] + gs[1..]
  {
    hide ShiftUp, Add;
    ZeroShift(64);
    forall j | 1 <= j < N ensures Add(gs[j], ShiftUp(0, 64)) == gs[j] { AddLaws(gs[j], 0, 0); }
  }

  /** The first braid takes over the register, the others start from zero. */
  lemma InjectFirst(c: bv32, gs: seq<bv32>)
    requires |gs| >= N
    ensures Run(0, Injected([c, 0, 0, 0, 0], gs)) == Run(c, gs)
  {
    hide ShiftUp, Add, Run, Injected, NextWord;
    var g := Add(gs[0], ShiftUp(c, 64));
    InjectedFirst(c, gs);
    assert gs == [gs[0]] + gs[1..];
    RunConcat(c, [gs[0]], gs[1..]);
    RunConcat(0, [g], gs[1..]);
    RunOne(c, gs[0]);
    RunOne(0, g);
    FirstWord(c, gs[0]);
  }

  lemma FirstWord(c: bv32, g: bv32)
    ensures NextWord(0, Add(g, ShiftUp(c, 64))) == NextWord(c, g)
  {
    hide ShiftUp, Add;
    ZeroShift(64);
    AddLaws(Add(g, ShiftUp(c, 64)), 0, 0);
  }

  lemma RunOne(c: bv32, g: bv32)
    ensures Run(c, [g]) == NextWord(c, g)
  {
    hide NextWord;
    assert [g][..0] == [];
  }

  /** Carrying all braids from one block to the next. */
  lemma NextBlock(crcs: seq<bv32>, gs: seq<bv32>, crcs': seq<bv32>)
    requires |crcs| == |crcs'| == N && |gs| >= 2 * N
    requires crcs' == ShiftAll(Sums(gs[..N], ShiftAll(crcs, 64)), 64 * (N - 1))
    ensures Run(0, Injected(crcs, gs)) == Run(0, Injected(crcs', gs[N..]))
  {
    hide ShiftUp, Add, Run;
    var a, hs, rest := Sums(gs[..N], ShiftAll(crcs, 64)), gs[N..2 * N], gs[2 * N..];
    assert Injected(crcs, gs) == (a + hs) + rest;
    assert gs[N..][..N] == hs && gs[N..][N..] == rest;
    CarryOver(a, hs);
    RunConcat(0, a + hs, rest);
    assert ShiftAll(crcs', 64) == ShiftAll(a, 64 * N) by {
      forall j | 0 <= j < N ensures ShiftAll(crcs', 64)[j] == ShiftAll(a, 64 * N)[j] { ShiftUpTwice(a[j], 64 * (N - 1), 64); }
    }
    RunConcat(0, Sums(hs, ShiftAll(crcs', 64)), rest);
  }

  /** The register after blocks of N words, all but the last of which go through the braids. */
  method Braided(table: array<bv32>, tables: seq<array<bv32>>, c: bv32, words: seq<bv64>, blks0: nat) returns (crc: bv32)
    requires IsCrcTable(table[..]) && AreBraidTables(tables) && blks0 >= 1 && |words| == N * blks0
    ensures crc == Run(c, Registers(words))
  {
    hide ShiftUp, Add, Run, IsCrcTable, AreBraidTables, WordRegister;
    ghost var gs := Registers(words);
    var crcs: seq<bv32> := [c, 0, 0, 0, 0];
    InjectFirst(c, gs);
    var blks, at: nat := blks0 - 1, 0;
    assert gs[0..] == gs;
    while blks > 0
      invariant 0 <= blks < blks0 && at == N * (blks0 - 1 - blks) && |crcs| == N
      invariant Run(0, Injected(crcs, gs[at..])) == Run(c, gs)
    {
      ghost var crcs0 := crcs;
      var next: seq<bv32> := [];
      for j := 0 to N
        invariant |next| == j && forall i :: 0 <= i < j ==> next[i] == ShiftUp(Add(gs[at + i], ShiftUp(crcs0[i], 64)), 64 * (N - 1))
      {
        var word := Xor64(Zext(crcs[j]), words[at + j]);
        WordAdds(crcs[j], words[at + j]);
        var q := BraidWord(tables, word);
        next := next + [q];
      }
      assert next == ShiftAll(Sums(gs[at..][..N], ShiftAll(crcs0, 64)), 64 * (N - 1));
      NextBlock(crcs0, gs[at..], next);
      assert gs[at..][N..] == gs[at + N..];
      crcs := next;
      at := at + N;
      blks := blks - 1;
    }
    crc := LastBlock(table, crcs, words[at..]);
    assert Registers(words[at..]) == gs[at..];
    assert Injected(crcs, gs[at..]) == Sums(gs[at..], ShiftAll(crcs, 64));
  }

  /** The last block combines the braids. */
  method LastBlock(table: array<bv32>, crcs: seq<bv32>, words: seq<bv64>) returns (crc: bv32)
    requires IsCrcTable(table[..]) && |crcs| == N == |words|
    ensures crc == Run(0, Sums(Registers(words), ShiftAll(crcs, 64)))
  {
    hide ShiftUp, Add, IsCrcTable, WordRegister, Run, Xor64, Zext;
    ghost var a := Sums(Registers(words), ShiftAll(crcs, 64));
    crc := 0;
    RunNone(0);
    assert a[..0] == [];
    for j := 0 to N
      invariant crc == Run(0, a[..j])
    {
      var data := Xor64(Xor64(Zext(crcs[j]), words[j]), Zext(crc));
      Xor64Laws(Xor64(Zext(crcs[j]), words[j]), Zext(crc), 0);
      WordAdds(crcs[j], words[j]);
      WordAdds(crc, Xor64(Zext(crcs[j]), words[j]));
      RunAppend(0, a[..j], a[j]);
      assert a[..j + 1] == a[..j] + [a[j]];
      crc := CrcWord(table, data, 0, data);
    }
    assert a[..N] == a;
  }

  lemma RunNone(c: bv32)
    ensures Run(c, []) == c
  {
  }

  lemma RunAppend(c: bv32, gs: seq<bv32>, g: bv32)
    ensures Run(c, gs + [g]) == Add(g, ShiftUp(Run(c, gs), 64))
  {
    hide Add, ShiftUp;
    assert (gs + [g])[..|gs|] == gs;
  }

  // ---------- Words from memory ----------

  /** A byte below the bytes of a word. */
  function Join(b: bv8, rest: bv64): bv64 { (b as bv64) | (rest << 8) }

  /** The word at the start of these bytes, least significant byte first. */
  function Load(s: seq<bv8>): bv64 {
    if s == [] then 0 else Join(s[0], Load(s[1..]))
  }

  /** Words of n bytes have no bits above them. */
  function Mask(n: nat): bv64 {
    if n == 0 then 0 else Join(0xff, Mask(n - 1))
  }

  predicate Within(w: bv64, m: bv64) { w & m == w }

  lemma JoinWithin(b: bv8, rest: bv64, m: bv64)
    requires Within(rest, m)
    ensures Within(Join(b, rest), Join(0xff, m))
  {
  }

  lemma {:induction false} LoadWithin(s: seq<bv8>)
    ensures Within(Load(s), Mask(|s|))
  {
    hide Join, Within;
    if s == [] { NothingWithin(); } else {
      LoadWithin(s[1..]);
      JoinWithin(s[0], Load(s[1..]), Mask(|s| - 1));
    }
  }

  lemma NothingWithin()
    ensures Within(0, 0)
  {
  }

  lemma SevenBytes()
    ensures Mask(7) == 0x00ff_ffff_ffff_ffff
  {
    assert Mask(2) == 0xffff;
    assert Mask(4) == 0xffff_ffff;
    assert Mask(6) == 0xffff_ffff_ffff;
  }

  lemma {:induction false} SmallerMask(n: nat, w: bv64)
    requires n < 7 && Within(w, Mask(n))
    ensures Within(w, Mask(n + 1))
  {
    MaskGrows(n);
    WithinMore(w, Mask(n), Mask(n + 1));
  }

  lemma {:induction false} MaskGrows(n: nat)
    ensures Within(Mask(n), Mask(n + 1))
  {
    hide Join, Within;
    if n == 0 { NothingBelow(Mask(1)); } else {
      MaskGrows(n - 1);
      JoinWithin(0xff, Mask(n - 1), Mask(n));
    }
  }

  lemma NothingBelow(m: bv64)
    ensures Within(0, m)
  {
  }

  lemma WithinMore(w: bv64, m: bv64, m': bv64)
    requires Within(w, m) && Within(m, m')
    ensures Within(w, m')
  {
  }

  lemma {:induction false} UpToSeven(w: bv64, n: nat)
    requires n <= 7 && Within(w, Mask(n))
    ensures Within(w, Mask(7))
    decreases 7 - n
  {
    hide Within, Mask;
    if n < 7 {
      SmallerMask(n, w);
      UpToSeven(w, n + 1);
    }
  }

  lemma Unjoin(b: bv8, rest: bv64)
    requires Within(rest, 0x00ff_ffff_ffff_ffff)
    ensures Byte64(Join(b, rest)) == b && Right64(Join(b, rest)) == rest
  {
  }

  lemma {:induction false} LoadTail(s: seq<bv8>, k: nat)
    requires k <= |s| <= W
    ensures Tail(Load(s), k) == Load(s[k..])
    ensures k < |s| ==> Byte64(Tail(Load(s), k)) == s[k]
  {
    hide Join, Within, Byte64, Right64, Mask;
    if k > 0 {
      LoadTail(s, k - 1);
      assert s[k - 1..][1..] == s[k..];
      SevenBytes();
      LoadWithin(s[k..]);
      UpToSeven(Load(s[k..]), |s| - k);
      Unjoin(s[k - 1], Load(s[k..]));
    } else {
      assert s[0..] == s;
    }
    if k < |s| {
      assert s[k..][1..] == s[k + 1..];
      SevenBytes();
      LoadWithin(s[k + 1..]);
      UpToSeven(Load(s[k + 1..]), |s| - k - 1);
      Unjoin(s[k], Load(s[k + 1..]));
    }
  }

  lemma {:induction false} BytesOfLoad(s: seq<bv8>, k: nat)
    requires k <= |s| <= W
    ensures Bytes(Load(s), k) == s[..k]
  {
    hide Byte64, Tail;
    if k > 0 {
      BytesOfLoad(s, k - 1);
      LoadTail(s, k - 1);
      assert s[..k] == s[..k - 1] + [s[k - 1]];
    }
  }

  /** The words of a buffer. */
  function WordsOf(s: seq<bv8>, n: nat): (ws: seq<bv64>)
    requires |s| == W * n
    ensures |ws| == n
  {
    seq<bv64>(n, i requires 0 <= i < n && |s| == W * n => Load(s[W * i..W * i + W]))
  }

  lemma LastWord(s: seq<bv8>, n: nat)
    requires |s| == W * n && n > 0
    ensures WordsOf(s, n) == WordsOf(s[..W * (n - 1)], n - 1) + [Load(s[W * (n - 1)..])]
  {
    hide Load;
    var init := s[..W * (n - 1)];
    forall i | 0 <= i < n
      ensures WordsOf(s, n)[i] == (WordsOf(init, n - 1) + [Load(s[W * (n - 1)..])])[i]
    {
      if i < n - 1 {
        assert init[W * i..W * i + W] == s[W * i..W * i + W];
      } else {
        assert s[W * i..W * i + W] == s[W * (n - 1)..];
      }
    }
  }

  /** Running over words is running over their bytes. */
  lemma {:induction false} RunIsRegister(c: bv32, s: seq<bv8>, n: nat)
    requires |s| == W * n
    ensures Run(c, Registers(WordsOf(s, n))) == Register(c, s)
  {
    hide Add, ShiftUp, Register, Run, WordRegister, Load, Bytes;
    if n == 0 {
      assert Registers(WordsOf(s, n)) == [];
      RunNone(c);
      EmptyRegister(c);
    } else {
      var init, last := s[..W * (n - 1)], s[W * (n - 1)..];
      RunIsRegister(c, init, n - 1);
      LastWord(s, n);
      assert Registers(WordsOf(s, n)) == Registers(WordsOf(init, n - 1)) + [WordRegister(Load(last))];
      var r := Register(c, init);
      RunAppend(c, Registers(WordsOf(init, n - 1)), WordRegister(Load(last)));
      BytesOfLoad(last, W);
      assert last[..W] == last;
      StartInWord(r, Load(last));
      WordAdds(r, Load(last));
      assert s == init + last;
      RegisterConcat(c, init, last);
    }
  }

  lemma EmptyRegister(c: bv32)
    ensures Register(c, []) == c
  {
  }

  // ---------- The whole buffer ----------

  /** `crc = (crc >> 8) ^ crc_table[(crc ^ *buf++) & 0xff]` for the bytes from i on. */
  method Bytewise(table: array<bv32>, ghost c: bv32, crc0: bv32, buf: seq<bv8>, i: nat, upTo: nat) returns (crc: bv32)
    requires IsCrcTable(table[..]) && i <= upTo <= |buf|
    requires crc0 == Register(c, buf[..i])
    ensures crc == Register(c, buf[..upTo])
  {
    hide IsCrcTable, Register;
    crc := crc0;
    for k := i to upTo
      invariant crc == Register(c, buf[..k])
    {
      RegisterAppend(c, buf[..k], buf[k]);
      assert buf[..k + 1] == buf[..k] + [buf[k]];
      crc := StepByTable(table, crc, buf[k]);
    }
  }

  /** How many bytes there are before the next word boundary. */
  function ToBoundary(address: nat): (n: nat)
    ensures n < W
  {
    if address % W == 0 then 0 else W - address % W
  }

  lemma Boundary(address: nat, at: nat)
    requires at <= ToBoundary(address)
    ensures (address + at) % W == 0 <==> at == ToBoundary(address)
  {
  }

  /**
   * The checksum of buf, which lies at the given address, going on from crc.
   */
  method Crc32Z(table: array<bv32>, tables: seq<array<bv32>>, crc: bv32, buf: seq<bv8>, address: nat) returns (r: bv32)
    requires IsCrcTable(table[..]) && AreBraidTables(tables)
    ensures r == Crc(crc, buf)
  {
    hide IsCrcTable, AreBraidTables, Register, Run, Add;
    var c := Add(crc, ALL_ONES);
    var at, len: nat := 0, |buf|;
    var now := c;
    EmptyRegister(c);
    assert buf[..0] == [];
    if len >= N * W + W - 1 {
      while len > 0 && (address + at) % W != 0
        invariant at + len == |buf| && now == Register(c, buf[..at])
        invariant at <= ToBoundary(address)
      {
        Boundary(address, at);
        RegisterAppend(c, buf[..at], buf[at]);
        assert buf[..at + 1] == buf[..at] + [buf[at]];
        now := StepByTable(table, now, buf[at]);
        at, len := at + 1, len - 1;
      }
      var blks: nat := len / (N * W);
      len := len - blks * (N * W);
      var slice := buf[at..at + blks * (N * W)];
      var words := WordsOf(slice, blks * N);
      now := Braided(table, tables, now, words, blks);
      RunIsRegister(Register(c, buf[..at]), slice, blks * N);
      RegisterConcat(c, buf[..at], slice);
      at := at + blks * (N * W);
      assert buf[..at] == buf[..at - blks * (N * W)] + slice;
    }
    while len >= 8
      invariant at + len == |buf| && now == Register(c, buf[..at])
    {
      now := Bytewise(table, c, now, buf, at, at + 8);
      at, len := at + 8, len - 8;
    }
    now := Bytewise(table, c, now, buf, at, at + len);
    assert buf[..at + len] == buf;
    r := Add(now, ALL_ONES);
  }
}
