/** The byte table and the byte-at-a-time register. */
module CrcTables {
  import opened ByteCasts
  import opened CrcPolynomials

  /** The register after one byte: the byte is added in, and both are multiplied by x^8. */
  function ByteStep(c: bv32, b: bv8): bv32 {
    ShiftUp(Add(c, Widen(b)), 8)
  }

  /** The register after a byte string, as section 8 of RFC 1952 computes it. */
  function Register(c: bv32, s: seq<bv8>): bv32 {
    if s == [] then c else ByteStep(Register(c, s[..|s| - 1]), s[|s| - 1])
  }

  const ALL_ONES: bv32 := 0xffff_ffff

  /** The checksum of s, going on from a checksum of what came before. */
  function Crc(crc: bv32, s: seq<bv8>): bv32 {
    Add(Register(Add(crc, ALL_ONES), s), ALL_ONES)
  }

  // ---------- The table ----------

  /** The register for one byte. */
  function Entry(i: nat): bv32
    requires i < 256
  {
    ShiftUp(Widen(ToByte(i)), 8)
  }

  ghost predicate IsCrcTable(table: seq<bv32>) {
    |table| == 256 && forall i :: 0 <= i < 256 ==> table[i] == Entry(i)
  }

  method MakeCrcTable() returns (table: array<bv32>)
    ensures fresh(table) && IsCrcTable(table[..])
  {
    hide TimesX, ShiftUp;
    table := new bv32[256];
    for i := 0 to 256
      invariant forall k :: 0 <= k < i ==> table[k] == Entry(k)
    {
      var p := EightSteps(Widen(ToByte(i)));
      table[i] := p;
    }
  }

  method EightSteps(c: bv32) returns (p: bv32)
    ensures p == ShiftUp(c, 8)
  {
    hide TimesX;
    p := c;
    for j := 0 to 8
      invariant p == ShiftUp(c, j)
    {
      StepIs(p);
      p := if p & 1 == 1 then (p >> 1) ^ POLY else p >> 1;
    }
  }

  lemma StepIs(p: bv32)
    ensures TimesX(p) == if p & 1 == 1 then (p >> 1) ^ POLY else p >> 1
  {
  }

  // ---------- Looking up ----------

  function LowByte(v: bv32): bv8 { (v & 0xff) as bv8 }

  function Widen(b: bv8): bv32 { b as bv32 }

  function Upper(v: bv32): bv32 { v & 0xffff_ff00 }

  function Right8(v: bv32): bv32 { v >> 8 }

  predicate Even(v: bv32) { v & 1 == 0 }

  lemma EntryOf(b: bv8)
    ensures 0 <= b as int < 256 && Entry(b as int) == ShiftUp(Widen(b), 8)
  {
    hide ShiftUp, Widen;
    ByteIndex(b);
  }

  lemma SplitWord(v: bv32)
    ensures v == Add(Upper(v), Widen(LowByte(v)))
  {
  }

  lemma EvenStep(v: bv32)
    requires Even(v)
    ensures TimesX(v) == Half(v)
  {
  }

  lemma UpperEven(v: bv32)
    ensures var u := Upper(v); var u2 := Half(Half(u)); var u4 := Half(Half(u2)); var u6 := Half(Half(u4));
            && Even(u) && Even(Half(u)) && Even(u2) && Even(Half(u2)) && Even(u4) && Even(Half(u4)) && Even(u6) && Even(Half(u6))
            && Half(Half(u6)) == Right8(v)
  {
  }

  lemma TwoSteps(u: bv32)
    requires Even(u) && Even(Half(u))
    ensures ShiftUp(u, 2) == Half(Half(u))
  {
    hide TimesX, Even, Half;
    EvenStep(u);
    EvenStep(Half(u));
    assert ShiftUp(u, 1) == Half(u);
  }

  /** Without its low byte a word is just shifted. */
  lemma UpperEight(v: bv32)
    ensures ShiftUp(Upper(v), 8) == Right8(v)
  {
    hide ShiftUp, Upper, Half, Even, Right8;
    var u := Upper(v);
    var u2 := Half(Half(u));
    var u4 := Half(Half(u2));
    UpperEven(v);
    TwoSteps(u);
    TwoSteps(u2);
    TwoSteps(u4);
    TwoSteps(Half(Half(u4)));
    ShiftUpTwice(u, 2, 2);
    ShiftUpTwice(u, 4, 2);
    ShiftUpTwice(u, 6, 2);
  }

  /** Multiplying by x^8 with one look into the table. */
  lemma LookUp(v: bv32)
    ensures ShiftUp(v, 8) == Add(Right8(v), ShiftUp(Widen(LowByte(v)), 8))
  {
    hide Upper, LowByte, Add, ShiftUp, Right8, Widen;
    SplitWord(v);
    ShiftUpAdds(Upper(v), Widen(LowByte(v)), 8);
    UpperEight(v);
  }

  /** `(crc >> 8) ^ crc_table[(crc ^ b) & 0xff]` */
  method StepByTable(table: array<bv32>, crc: bv32, b: bv8) returns (r: bv32)
    requires IsCrcTable(table[..])
    ensures r == ByteStep(crc, b)
  {
    hide ShiftUp, LowByte, Right8, Add, Widen, Entry;
    var v := Add(crc, Widen(b));
    LookUp(v);
    DroppedByte(crc, b);
    EntryOf(LowByte(v));
    r := Add(Right8(crc), table[LowByte(v) as int]);
  }

  lemma DroppedByte(crc: bv32, b: bv8)
    ensures Right8(Add(crc, Widen(b))) == Right8(crc)
  {
  }

  lemma RegisterAppend(c: bv32, s: seq<bv8>, b: bv8)
    ensures Register(c, s + [b]) == ByteStep(Register(c, s), b)
  {
    assert (s + [b])[..|s|] == s;
  }

  lemma {:induction false} RegisterConcat(c: bv32, s: seq<bv8>, t: seq<bv8>)
    ensures Register(c, s + t) == Register(Register(c, s), t)
  {
    hide ByteStep;
    if t == [] {
      assert s + t == s;
    } else {
      var init, last := t[..|t| - 1], t[|t| - 1];
      RegisterConcat(c, s, init);
      assert s + t == (s + init) + [last];
      RegisterAppend(c, s + init, last);
    }
  }

  /** A change of the register passes through n bytes as multiplication by x^(8n). */
  lemma {:induction false} RegisterAdds(c: bv32, d: bv32, s: seq<bv8>)
    ensures Register(Add(c, d), s) == Add(Register(c, s), ShiftUp(d, 8 * |s|))
  {
    hide ShiftUp, Add;
    if s == [] {
      NoShift(d);
    } else {
      var init, b := s[..|s| - 1], s[|s| - 1];
      RegisterAdds(c, d, init);
      var r, e := Register(c, init), ShiftUp(d, 8 * |init|);
      AddLaws(r, e, Widen(b));
      AddLaws(e, Widen(b), r);
      AddLaws(r, Widen(b), e);
      ShiftUpAdds(Add(r, Widen(b)), e, 8);
      ShiftUpTwice(d, 8 * |init|, 8);
    }
  }

  lemma NoShift(d: bv32)
    ensures ShiftUp(d, 0) == d
  {
  }

  // ---------- Combining ----------

  /** The checksum of a concatenation from the checksums of its parts. */
  lemma CrcOfConcat(s: seq<bv8>, t: seq<bv8>)
    ensures Crc(0, s + t) == Add(ShiftUp(Crc(0, s), 8 * |t|), Crc(0, t))
  {
    hide ShiftUp, Add, Register;
    var f := ALL_ONES;
    AddLaws(0, f, 0);
    var r := Register(f, s);
    RegisterConcat(f, s, t);
    RegisterAdds(f, Add(r, f), t);
    AddLaws(f, r, f);
    AddLaws(r, f, f);
    AddLaws(r, 0, 0);
    var a, b := Register(f, t), ShiftUp(Add(r, f), 8 * |t|);
    AddLaws(a, b, f);
    AddLaws(b, a, f);
  }

  /** Going on from a checksum is the checksum of the concatenation. */
  lemma CrcGoesOn(s: seq<bv8>, t: seq<bv8>)
    ensures Crc(Crc(0, s), t) == Crc(0, s + t)
  {
    hide ShiftUp, Add, Register;
    var f := ALL_ONES;
    var r := Register(Add(0, f), s);
    RegisterConcat(Add(0, f), s, t);
    AddLaws(r, f, f);
    AddLaws(r, 0, 0);
    AddLaws(f, 0, 0);
  }
}
