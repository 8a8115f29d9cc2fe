/** x^(2^32) is x modulo the CRC polynomial, so that the table of repeated squares may wrap round. */
module CrcPeriod {
  import opened Powers
  import opened CrcPolynomials

  lemma SquareAdds(a: bv32, b: bv32)
    ensures Product(Add(a, b), Add(a, b)) == Add(Product(a, a), Product(b, b))
  {
    hide Product, Add;
    var ab := Product(a, b);
    ProductAdds(Add(a, b), a, b);
    ProductCommutes(Add(a, b), a);
    ProductCommutes(Add(a, b), b);
    ProductAdds(a, a, b);
    ProductAdds(b, a, b);
    ProductCommutes(a, b);
    AddSwap(Product(a, a), ab, ab, Product(b, b));
    AddLaws(ab, Product(b, b), Product(a, a));
    AddLaws(Product(a, a), ab, 0);
    AddLaws(Product(b, b), ab, 0);
    AddLaws(Add(ab, Product(b, b)), 0, 0);
    AddLaws(Product(a, a), ab, Add(ab, Product(b, b)));
    AddLaws(ab, ab, Product(b, b));
    AddLaws(Product(b, b), 0, 0);
  }

  /** The squares of the powers of x in b, from bit m down. */
  function Squares(b: bv32, m: bv32): bv32
    requires m == 0 || Single(m)
    decreases Rank(m)
  {
    if m == 0 then 0
    else
      HalfSingle(m);
      Add(if Has(b, m) then Product(m, m) else 0, Squares(b, Half(m)))
  }

  lemma ZeroSquare()
    ensures Product(0, 0) == 0
  {
    hide Times, One, Single;
    TimesZero(0, One());
  }

  /** Squaring is additive, so a square is the sum of the squares of its powers. */
  lemma {:induction false} SquareIsSum(b: bv32, m: bv32)
    requires Single(m)
    ensures Product(Down(b, m), Down(b, m)) == Squares(b, m)
    decreases Rank(m)
  {
    hide Product, Down, Has, Half, Single, Add, Rank;
    HalfSingle(m);
    DownStep(b, m);
    ZeroSquare();
    SquareAdds(if Has(b, m) then m else 0, if Half(m) == 0 then 0 else Down(b, Half(m)));
    if Half(m) != 0 { SquareIsSum(b, Half(m)); } else { NoSquares(b); }
  }

  lemma NoSquares(b: bv32)
    ensures Squares(b, 0) == 0
  {
  }

  /** The square of x^(i+1) from the square of x^i. */
  lemma NextSquare(m: bv32, s: bv32, m': bv32, s': bv32)
    requires Product(m, m) == s && TimesX(m) == m' && TimesX(TimesX(s)) == s'
    ensures Product(m', m') == s'
  {
    hide TimesX, Times, Single, One;
    TimesCommutesX(TimesX(m), m, One());
    ProductCommutes(TimesX(m), m);
    TimesCommutesX(m, m, One());
  }

  lemma SquaresStep(b: bv32, m: bv32, s: bv32, m': bv32)
    requires Single(m) && Product(m, m) == s && Half(m) == m' && (m' == 0 || Single(m'))
    ensures Squares(b, m) == Term(b, m, s, Squares(b, m'))
  {
    hide Product, Half, Single, Squares, Term, Add, Has;
    SquaresUnfold(b, m);
    TermIs(b, m, s, Squares(b, m'));
  }

  lemma TermIs(b: bv32, m: bv32, s: bv32, rest: bv32)
    ensures Term(b, m, s, rest) == Add(if Has(b, m) then s else 0, rest)
  {
    hide Term, Add, Has;
    if Has(b, m) {
      TermWith(b, m, s, rest);
    } else {
      TermWithout(b, m, s, rest);
      AddLaws(rest, 0, 0);
    }
  }

  lemma TermWith(b: bv32, m: bv32, s: bv32, rest: bv32)
    requires Has(b, m)
    ensures Term(b, m, s, rest) == Add(s, rest)
  {
  }

  lemma TermWithout(b: bv32, m: bv32, s: bv32, rest: bv32)
    requires !Has(b, m)
    ensures Term(b, m, s, rest) == rest
  {
  }

  lemma SquaresUnfold(b: bv32, m: bv32)
    requires Single(m)
    ensures Half(m) == 0 || Single(Half(m))
    ensures Squares(b, m) == Add(if Has(b, m) then Product(m, m) else 0, Squares(b, Half(m)))
  {
    hide Product, Has, Half, Single, Add;
    HalfSingle(m);
  }

  /** s, if b has bit m, and the rest. */
  function Term(b: bv32, m: bv32, s: bv32, rest: bv32): bv32 {
    if b & m != 0 then s ^ rest else rest
  }

  /** The squares of x^0 to x^7 that are in b, added to the rest. */
  function Squares0(b: bv32, rest: bv32): bv32 {
    Term(b, 0x8000_0000, 0x8000_0000,
    Term(b, 0x4000_0000, 0x2000_0000,
    Term(b, 0x2000_0000, 0x0800_0000,
    Term(b, 0x1000_0000, 0x0200_0000,
    Term(b, 0x0800_0000, 0x0080_0000,
    Term(b, 0x0400_0000, 0x0020_0000,
    Term(b, 0x0200_0000, 0x0008_0000,
    Term(b, 0x0100_0000, 0x0002_0000, rest))))))))
  }

  /** The squares of x^8 to x^15 that are in b, added to the rest. */
  function Squares8(b: bv32, rest: bv32): bv32 {
    Term(b, 0x0080_0000, 0x0000_8000,
    Term(b, 0x0040_0000, 0x0000_2000,
    Term(b, 0x0020_0000, 0x0000_0800,
    Term(b, 0x0010_0000, 0x0000_0200,
    Term(b, 0x0008_0000, 0x0000_0080,
    Term(b, 0x0004_0000, 0x0000_0020,
    Term(b, 0x0002_0000, 0x0000_0008,
    Term(b, 0x0001_0000, 0x0000_0002, rest))))))))
  }

  /** The squares of x^16 to x^23 that are in b, added to the rest. */
  function Squares16(b: bv32, rest: bv32): bv32 {
    Term(b, 0x0000_8000, 0xedb8_8320,
    Term(b, 0x0000_4000, 0x3b6e_20c8,
    Term(b, 0x0000_2000, 0x0edb_8832,
    Term(b, 0x0000_1000, 0xee0e_612c,
    Term(b, 0x0000_0800, 0x3b83_984b,
    Term(b, 0x0000_0400, 0x9584_24a2,
    Term(b, 0x0000_0200, 0xc8d9_8a08,
    Term(b, 0x0000_0100, 0x3236_6282, rest))))))))
  }

  /** The squares of x^24 to x^31 that are in b, added to the rest. */
  function Squares24(b: bv32, rest: bv32): bv32 {
    Term(b, 0x0000_0080, 0xe135_1b80,
    Term(b, 0x0000_0040, 0x384d_46e0,
    Term(b, 0x0000_0020, 0x0e13_51b8,
    Term(b, 0x0000_0010, 0x0384_d46e,
    Term(b, 0x0000_0008, 0xed59_b63b,
    Term(b, 0x0000_0004, 0xa032_af3e,
    Term(b, 0x0000_0002, 0xc5b4_28ef,
    Term(b, 0x0000_0001, 0xaa09_c88b, rest))))))))
  }

  lemma Sum0(b: bv32)
    requires Product(0x8000_0000, 0x8000_0000) == 0x8000_0000
    ensures Single(0x8000_0000) && Single(0x0080_0000)
    ensures Squares(b, 0x8000_0000) == Squares0(b, Squares(b, 0x0080_0000))
    ensures Product(0x0080_0000, 0x0080_0000) == 0x0000_8000
  {
    hide Product, Squares, Term;
    SquaresStep(b, 0x8000_0000, 0x8000_0000, 0x4000_0000);
    NextSquare(0x8000_0000, 0x8000_0000, 0x4000_0000, 0x2000_0000);
    SquaresStep(b, 0x4000_0000, 0x2000_0000, 0x2000_0000);
    NextSquare(0x4000_0000, 0x2000_0000, 0x2000_0000, 0x0800_0000);
    SquaresStep(b, 0x2000_0000, 0x0800_0000, 0x1000_0000);
    NextSquare(0x2000_0000, 0x0800_0000, 0x1000_0000, 0x0200_0000);
    SquaresStep(b, 0x1000_0000, 0x0200_0000, 0x0800_0000);
    NextSquare(0x1000_0000, 0x0200_0000, 0x0800_0000, 0x0080_0000);
    SquaresStep(b, 0x0800_0000, 0x0080_0000, 0x0400_0000);
    NextSquare(0x0800_0000, 0x0080_0000, 0x0400_0000, 0x0020_0000);
    SquaresStep(b, 0x0400_0000, 0x0020_0000, 0x0200_0000);
    NextSquare(0x0400_0000, 0x0020_0000, 0x0200_0000, 0x0008_0000);
    SquaresStep(b, 0x0200_0000, 0x0008_0000, 0x0100_0000);
    NextSquare(0x0200_0000, 0x0008_0000, 0x0100_0000, 0x0002_0000);
    SquaresStep(b, 0x0100_0000, 0x0002_0000, 0x0080_0000);
    NextSquare(0x0100_0000, 0x0002_0000, 0x0080_0000, 0x0000_8000);
  }

  lemma Sum8(b: bv32)
    requires Product(0x0080_0000, 0x0080_0000) == 0x0000_8000
    ensures Single(0x0080_0000) && Single(0x0000_8000)
    ensures Squares(b, 0x0080_0000) == Squares8(b, Squares(b, 0x0000_8000))
    ensures Product(0x0000_8000, 0x0000_8000) == 0xedb8_8320
  {
    hide Product, Squares, Term;
    SquaresStep(b, 0x0080_0000, 0x0000_8000, 0x0040_0000);
    NextSquare(0x0080_0000, 0x0000_8000, 0x0040_0000, 0x0000_2000);
    SquaresStep(b, 0x0040_0000, 0x0000_2000, 0x0020_0000);
    NextSquare(0x0040_0000, 0x0000_2000, 0x0020_0000, 0x0000_0800);
    SquaresStep(b, 0x0020_0000, 0x0000_0800, 0x0010_0000);
    NextSquare(0x0020_0000, 0x0000_0800, 0x0010_0000, 0x0000_0200);
    SquaresStep(b, 0x0010_0000, 0x0000_0200, 0x0008_0000);
    NextSquare(0x0010_0000, 0x0000_0200, 0x0008_0000, 0x0000_0080);
    SquaresStep(b, 0x0008_0000, 0x0000_0080, 0x0004_0000);
    NextSquare(0x0008_0000, 0x0000_0080, 0x0004_0000, 0x0000_0020);
    SquaresStep(b, 0x0004_0000, 0x0000_0020, 0x0002_0000);
    NextSquare(0x0004_0000, 0x0000_0020, 0x0002_0000, 0x0000_0008);
    SquaresStep(b, 0x0002_0000, 0x0000_0008, 0x0001_0000);
    NextSquare(0x0002_0000, 0x0000_0008, 0x0001_0000, 0x0000_0002);
    SquaresStep(b, 0x0001_0000, 0x0000_0002, 0x0000_8000);
    NextSquare(0x0001_0000, 0x0000_0002, 0x0000_8000, 0xedb8_8320);
  }

  lemma Sum16(b: bv32)
    requires Product(0x0000_8000, 0x0000_8000) == 0xedb8_8320
    ensures Single(0x0000_8000) && Single(0x0000_0080)
    ensures Squares(b, 0x0000_8000) == Squares16(b, Squares(b, 0x0000_0080))
    ensures Product(0x0000_0080, 0x0000_0080) == 0xe135_1b80
  {
    hide Product, Squares, Term;
    SquaresStep(b, 0x0000_8000, 0xedb8_8320, 0x0000_4000);
    NextSquare(0x0000_8000, 0xedb8_8320, 0x0000_4000, 0x3b6e_20c8);
    SquaresStep(b, 0x0000_4000, 0x3b6e_20c8, 0x0000_2000);
    NextSquare(0x0000_4000, 0x3b6e_20c8, 0x0000_2000, 0x0edb_8832);
    SquaresStep(b, 0x0000_2000, 0x0edb_8832, 0x0000_1000);
    NextSquare(0x0000_2000, 0x0edb_8832, 0x0000_1000, 0xee0e_612c);
    SquaresStep(b, 0x0000_1000, 0xee0e_612c, 0x0000_0800);
    NextSquare(0x0000_1000, 0xee0e_612c, 0x0000_0800, 0x3b83_984b);
    SquaresStep(b, 0x0000_0800, 0x3b83_984b, 0x0000_0400);
    NextSquare(0x0000_0800, 0x3b83_984b, 0x0000_0400, 0x9584_24a2);
    SquaresStep(b, 0x0000_0400, 0x9584_24a2, 0x0000_0200);
    NextSquare(0x0000_0400, 0x9584_24a2, 0x0000_0200, 0xc8d9_8a08);
    SquaresStep(b, 0x0000_0200, 0xc8d9_8a08, 0x0000_0100);
    NextSquare(0x0000_0200, 0xc8d9_8a08, 0x0000_0100, 0x3236_6282);
    SquaresStep(b, 0x0000_0100, 0x3236_6282, 0x0000_0080);
    NextSquare(0x0000_0100, 0x3236_6282, 0x0000_0080, 0xe135_1b80);
  }

  lemma Sum24(b: bv32)
    requires Product(0x0000_0080, 0x0000_0080) == 0xe135_1b80
    ensures Single(0x0000_0080)
    ensures Squares(b, 0x0000_0080) == Squares24(b, Squares(b, 0x0000_0000))
  {
    hide Product, Squares, Term;
    SquaresStep(b, 0x0000_0080, 0xe135_1b80, 0x0000_0040);
    NextSquare(0x0000_0080, 0xe135_1b80, 0x0000_0040, 0x384d_46e0);
    SquaresStep(b, 0x0000_0040, 0x384d_46e0, 0x0000_0020);
    NextSquare(0x0000_0040, 0x384d_46e0, 0x0000_0020, 0x0e13_51b8);
    SquaresStep(b, 0x0000_0020, 0x0e13_51b8, 0x0000_0010);
    NextSquare(0x0000_0020, 0x0e13_51b8, 0x0000_0010, 0x0384_d46e);
    SquaresStep(b, 0x0000_0010, 0x0384_d46e, 0x0000_0008);
    NextSquare(0x0000_0010, 0x0384_d46e, 0x0000_0008, 0xed59_b63b);
    SquaresStep(b, 0x0000_0008, 0xed59_b63b, 0x0000_0004);
    NextSquare(0x0000_0008, 0xed59_b63b, 0x0000_0004, 0xa032_af3e);
    SquaresStep(b, 0x0000_0004, 0xa032_af3e, 0x0000_0002);
    NextSquare(0x0000_0004, 0xa032_af3e, 0x0000_0002, 0xc5b4_28ef);
    SquaresStep(b, 0x0000_0002, 0xc5b4_28ef, 0x0000_0001);
    NextSquare(0x0000_0002, 0xc5b4_28ef, 0x0000_0001, 0xaa09_c88b);
    SquaresStep(b, 0x0000_0001, 0xaa09_c88b, 0x0000_0000);
  }

  /** The square of b, from the squares of the powers of x. */
  function Square(b: bv32): bv32 {
    Squares0(b, Squares8(b, Squares16(b, Squares24(b, 0))))
  }

  lemma SquareIs(b: bv32)
    ensures Product(b, b) == Square(b)
  {
    hide Product, Squares, Squares0, Squares8, Squares16, Squares24, Single;
    ProductOne(One());
    Sum0(b);
    Sum8(b);
    Sum16(b);
    Sum24(b);
    NoSquares(b);
    TopIsOne(b);
    SquareIsSum(b, One());
  }

  lemma TopIsOne(b: bv32)
    ensures One() == 0x8000_0000 && Single(One()) && Down(b, One()) == b
  {
  }

  lemma EightSquares0()
    ensures Square(0x4000_0000) == 0x2000_0000
    ensures Square(0x2000_0000) == 0x0800_0000
    ensures Square(0x0800_0000) == 0x0080_0000
    ensures Square(0x0080_0000) == 0x0000_8000
    ensures Square(0x0000_8000) == 0xedb8_8320
    ensures Square(0xedb8_8320) == 0xb1e6_b092
    ensures Square(0xb1e6_b092) == 0xa06a_2517
    ensures Square(0xa06a_2517) == 0xed62_7dae
  {
  }

  lemma EightSquares8()
    ensures Square(0xed62_7dae) == 0x88d1_4467
    ensures Square(0x88d1_4467) == 0xd7bb_fe6a
    ensures Square(0xd7bb_fe6a) == 0xec44_7f11
    ensures Square(0xec44_7f11) == 0x8e7e_a170
    ensures Square(0x8e7e_a170) == 0x6427_800e
    ensures Square(0x6427_800e) == 0x4d47_bae0
    ensures Square(0x4d47_bae0) == 0x09fe_548f
    ensures Square(0x09fe_548f) == 0x8385_2d0f
  {
  }

  lemma EightSquares16()
    ensures Square(0x8385_2d0f) == 0x3036_2f1a
    ensures Square(0x3036_2f1a) == 0x7b5a_9cc3
    ensures Square(0x7b5a_9cc3) == 0x31fe_c169
    ensures Square(0x31fe_c169) == 0x9fec_022a
    ensures Square(0x9fec_022a) == 0x6c8d_edc4
    ensures Square(0x6c8d_edc4) == 0x15d6_874d
    ensures Square(0x15d6_874d) == 0x5fde_7a4e
    ensures Square(0x5fde_7a4e) == 0xbad9_0e37
  {
  }

  lemma EightSquares24()
    ensures Square(0xbad9_0e37) == 0x2e4e_5eef
    ensures Square(0x2e4e_5eef) == 0x4eab_a214
    ensures Square(0x4eab_a214) == 0xa8a4_72c0
    ensures Square(0xa8a4_72c0) == 0x429a_969e
    ensures Square(0x429a_969e) == 0x148d_302a
    ensures Square(0x148d_302a) == 0xc40b_a6d0
    ensures Square(0xc40b_a6d0) == 0xc4e2_2c3c
    ensures Square(0xc4e2_2c3c) == 0x4000_0000
  {
  }

  /** x^(2^k) */
  function XPower2(k: nat): bv32 {
    ShiftUp(One(), Pow2(k))
  }

  lemma NextPower(k: nat)
    ensures XPower2(k + 1) == Product(XPower2(k), XPower2(k)) == Square(XPower2(k))
  {
    hide Product, Square, ShiftUp, One;
    PowersMultiply(Pow2(k), Pow2(k));
    SquareIs(XPower2(k));
  }

  lemma EightPowers(k: nat)
    ensures XPower2(k + 8) == Square(Square(Square(Square(Square(Square(Square(Square(XPower2(k)))))))))
  {
    hide XPower2, Square;
    NextPower(k); NextPower(k + 1); NextPower(k + 2); NextPower(k + 3);
    NextPower(k + 4); NextPower(k + 5); NextPower(k + 6); NextPower(k + 7);
  }

  lemma FirstPower()
    ensures XPower2(0) == 0x4000_0000
  {
    assert Pow2(0) == 1;
    assert ShiftUp(One(), 0) == One();
  }

  /** Squaring x thirty-two times leads back to x. */
  lemma BackToX()
    ensures XPower2(32) == XPower2(0)
  {
    hide XPower2, Square;
    FirstPower();
    EightSquares0(); EightSquares8(); EightSquares16(); EightSquares24();
    EightPowers(0); EightPowers(8); EightPowers(16); EightPowers(24);
  }

  /** So the exponents 2^k repeat every thirty-two. */
  lemma {:induction false} PowersRepeat(k: nat)
    ensures XPower2(k) == XPower2(k % 32)
  {
    hide XPower2, Product;
    if k == 32 {
      BackToX();
    } else if k > 32 {
      PowersRepeat(k - 1);
      NextPower(k - 1);
      NextPower((k - 1) % 32);
      if k % 32 == 0 { BackToX(); }
    }
  }
}
