/** The residue of the checksum: a string followed by its own checksum has one and the same checksum, whatever the string. */
module CrcResidue {
  import opened CrcPolynomials
  import opened CrcTables

  /** A word as four bytes, the lowest first, as section 2.3.1 of RFC 1952 stores it. */
  function LowestFirst(w: bv32): seq<bv8> {
    [(w & 0xff) as bv8, ((w >> 8) & 0xff) as bv8, ((w >> 16) & 0xff) as bv8, ((w >> 24) & 0xff) as bv8]
  }

  function Rest(w: bv32, k: nat): bv32 {
    if k == 0 then w else Right8(Rest(w, k - 1))
  }

  /** After a byte of a word has been fed in, the register and what is left of the word add up to eight steps of both. */
  lemma OneByte(c: bv32, w: bv32)
    ensures Add(ByteStep(c, LowByte(w)), Right8(w)) == ShiftUp(Add(c, w), 8)
  {
    hide LowByte, Add, ShiftUp, Right8, Widen;
    var b := Widen(LowByte(w));
    LookUp(w);
    ShiftUpAdds(c, b, 8);
    ShiftUpAdds(c, w, 8);
    AddLaws(ShiftUp(c, 8), ShiftUp(b, 8), Right8(w));
    AddLaws(Right8(w), ShiftUp(b, 8), 0);
  }

  lemma {:induction false} SomeBytes(c: bv32, w: bv32, s: seq<bv8>)
    requires |s| <= 4 && forall k :: 0 <= k < |s| ==> s[k] == LowByte(Rest(w, k))
    ensures Add(Register(c, s), Rest(w, |s|)) == ShiftUp(Add(c, w), 8 * |s|)
  {
    hide LowByte, Add, ShiftUp, Right8, ByteStep;
    var n := |s|;
    if n == 0 {
      NoShift(Add(c, w));
    } else {
      SomeBytes(c, w, s[..n - 1]);
      OneByte(Register(c, s[..n - 1]), Rest(w, n - 1));
      ShiftUpTwice(Add(c, w), 8 * (n - 1), 8);
    }
  }

  lemma BytesAreLow(w: bv32)
    ensures var s := LowestFirst(w); s[0] == LowByte(w) && s[1] == LowByte(Right8(w)) && s[2] == LowByte(Right8(Right8(w)))
    ensures LowestFirst(w)[3] == LowByte(Right8(Right8(Right8(w)))) && Right8(Right8(Right8(Right8(w)))) == 0
  {
  }

  /** Feeding a word in multiplies it and the register by x^32. */
  lemma FourBytes(c: bv32, w: bv32)
    ensures Register(c, LowestFirst(w)) == ShiftUp(Add(c, w), 32)
  {
    hide LowByte, Add, ShiftUp, Right8, LowestFirst, Register, Rest;
    BytesAreLow(w);
    FourRests(w);
    FourLong(w);
    var s := LowestFirst(w);
    forall k | 0 <= k < 4 ensures s[k] == LowByte(Rest(w, k)) {
      if k == 0 { } else if k == 1 { } else if k == 2 { } else { }
    }
    SomeBytes(c, w, s);
    AddLaws(Register(c, s), 0, 0);
  }

  lemma FourRests(w: bv32)
    ensures Rest(w, 0) == w && Rest(w, 1) == Right8(w) && Rest(w, 2) == Right8(Right8(w)) && Rest(w, 3) == Right8(Right8(Right8(w)))
    ensures Rest(w, 4) == Right8(Right8(Right8(Right8(w))))
  {
    hide Right8;
    assert Rest(w, 2) == Right8(Rest(w, 1));
    assert Rest(w, 4) == Right8(Rest(w, 3));
  }

  lemma FourLong(w: bv32)
    ensures |LowestFirst(w)| == 4
  {
  }

  lemma AllOnesShifted()
    ensures ShiftUp(0xffff_ffff, 32) == 0xdebb_20e3
  {
    assert ShiftUp(0xffff_ffff, 4) == 0xb242_0de3;
    assert ShiftUp(0xffff_ffff, 8) == 0x2dfd_1072;
    assert ShiftUp(0xffff_ffff, 12) == 0x39b1_f1cf;
    assert ShiftUp(0xffff_ffff, 16) == 0xbe26_ed00;
    assert ShiftUp(0xffff_ffff, 20) == 0x0be2_6ed0;
    assert ShiftUp(0xffff_ffff, 24) == 0x00be_26ed;
    assert ShiftUp(0xffff_ffff, 28) == 0x86d8_30ba;
  }

  lemma OpposedWords(r: bv32)
    ensures Add(r, Add(r, 0xffff_ffff)) == 0xffff_ffff && Add(0xdebb_20e3, 0xffff_ffff) == 0x2144_df1c
  {
  }

  lemma Conditioned(s: seq<bv8>)
    ensures Crc(0, s) == Add(Register(0xffff_ffff, s), 0xffff_ffff)
  {
    hide Register;
  }

  /** Followed by its checksum, lowest byte first, every string has the checksum 2144df1c. */
  lemma Residue(s: seq<bv8>)
    ensures Crc(0, s + LowestFirst(Crc(0, s))) == 0x2144_df1c
  {
    hide Add, ShiftUp, LowestFirst, Register;
    var w := Crc(0, s);
    var f: bv32 := 0xffff_ffff;
    RegisterConcat(f, s, LowestFirst(w));
    var r := Register(f, s);
    FourBytes(r, w);
    Conditioned(s);
    Conditioned(s + LowestFirst(w));
    OpposedWords(r);
    AllOnesShifted();
  }
}
