/** The single bits of 32-bit words. */
module WordBits {

  // Named, so that proofs can go by the laws of the operations instead of by all bits at once.

  function Half(x: bv32): bv32 { x >> 1 }

  function Twice(x: bv32): bv32 { x << 1 }

  predicate Low(x: bv32) { x & 1 == 1 }

  function Xor(x: bv32, y: bv32): bv32 { x ^ y }

  function And(x: bv32, y: bv32): bv32 { x & y }

  function Or(x: bv32, y: bv32): bv32 { x | y }

  lemma XorLaws(a: bv32, b: bv32, c: bv32)
    ensures Xor(a, b) == Xor(b, a) && Xor(Xor(a, b), c) == Xor(a, Xor(b, c))
    ensures Xor(a, 0) == a && Xor(a, a) == 0
  {
    hide Xor;
    XorCommutes(a, b);
    XorAssociates(a, b, c);
    XorZero(a);
  }

  lemma XorCommutes(a: bv32, b: bv32)
    ensures Xor(a, b) == Xor(b, a)
  {
  }

  lemma XorAssociates(a: bv32, b: bv32, c: bv32)
    ensures Xor(Xor(a, b), c) == Xor(a, Xor(b, c))
  {
  }

  lemma XorZero(a: bv32)
    ensures Xor(a, 0) == a && Xor(a, a) == 0
  {
  }

  lemma XorSwap(a: bv32, b: bv32, c: bv32, d: bv32)
    ensures Xor(Xor(a, b), Xor(c, d)) == Xor(Xor(a, c), Xor(b, d))
  {
    hide Xor;
    XorLaws(a, b, Xor(c, d));
    XorLaws(b, c, d);
    XorLaws(c, b, d);
    XorLaws(a, c, Xor(b, d));
  }

  /** Bit n, counted from the lowest. */
  predicate BitOf(x: bv32, n: nat)
    decreases n
  {
    if n == 0 then Low(x) else BitOf(Half(x), n - 1)
  }

  lemma LowOfXor(x: bv32, y: bv32)
    ensures Low(Xor(x, y)) == (Low(x) != Low(y)) && Half(Xor(x, y)) == Xor(Half(x), Half(y))
  {
  }

  lemma LowOfAnd(x: bv32, y: bv32)
    ensures Low(And(x, y)) == (Low(x) && Low(y)) && Half(And(x, y)) == And(Half(x), Half(y))
  {
  }

  lemma LowOfOr(x: bv32, y: bv32)
    ensures Low(Or(x, y)) == (Low(x) || Low(y)) && Half(Or(x, y)) == Or(Half(x), Half(y))
  {
  }

  lemma {:induction false} BitLaws(x: bv32, y: bv32, n: nat)
    ensures BitOf(Xor(x, y), n) == (BitOf(x, n) != BitOf(y, n))
    ensures BitOf(And(x, y), n) == (BitOf(x, n) && BitOf(y, n))
    ensures BitOf(Or(x, y), n) == (BitOf(x, n) || BitOf(y, n))
    decreases n
  {
    hide Half, Low, Xor, And, Or;
    LowOfXor(x, y);
    LowOfAnd(x, y);
    LowOfOr(x, y);
    if n > 0 { BitLaws(Half(x), Half(y), n - 1); }
  }

  // ---------- Shifts ----------

  /** All bits but the highest. */
  const ALL_BUT_TOP: bv32 := 0x7fff_ffff

  lemma HalfOfTwice(x: bv32)
    ensures Half(Twice(x)) == And(x, ALL_BUT_TOP) && !Low(Twice(x))
  {
  }

  /** The n lowest bits are set. */
  predicate Full(x: bv32, n: nat)
    decreases n
  {
    n > 0 ==> Low(x) && Full(Half(x), n - 1)
  }

  lemma AllButTopFull()
    ensures Full(ALL_BUT_TOP, 31)
  {
    assert Full(0x1, 1); assert Full(0x7, 3); assert Full(0x1f, 5); assert Full(0x7f, 7);
    assert Full(0x1ff, 9); assert Full(0x7ff, 11); assert Full(0x1fff, 13); assert Full(0x7fff, 15);
    assert Full(0x1ffff, 17); assert Full(0x7ffff, 19); assert Full(0x1fffff, 21); assert Full(0x7fffff, 23);
    assert Full(0x1ffffff, 25); assert Full(0x7ffffff, 27); assert Full(0x1fffffff, 29); assert Full(0x7fffffff, 31);
  }

  lemma {:induction false} FullBits(x: bv32, n: nat, i: nat)
    requires i < n && Full(x, n)
    ensures BitOf(x, i)
    decreases n
  {
    hide Half, Low;
    if i > 0 { FullBits(Half(x), n - 1, i - 1); }
  }

  lemma ZeroWord()
    ensures Half(0) == 0 && !Low(0)
  {
  }

  lemma {:induction false} ZeroBits(n: nat)
    ensures !BitOf(0, n)
    decreases n
  {
    hide Half, Low;
    ZeroWord();
    if n > 0 { ZeroBits(n - 1); }
  }

  /** A shift to the left by one moves every bit up. */
  lemma TwiceBit(x: bv32, n: nat)
    requires n < 32
    ensures BitOf(Twice(x), n) == (n >= 1 && BitOf(x, n - 1))
  {
    hide Half, Low, Twice, And;
    HalfOfTwice(x);
    if n >= 1 {
      BitLaws(x, ALL_BUT_TOP, n - 1);
      AllButTopFull();
      FullBits(ALL_BUT_TOP, 31, n - 1);
    }
  }

  /** x << k */
  function Up(x: bv32, k: nat): bv32 {
    if k == 0 then x else Twice(Up(x, k - 1))
  }

  lemma {:induction false} UpBit(x: bv32, k: nat, n: nat)
    requires n < 32
    ensures BitOf(Up(x, k), n) == (n >= k && BitOf(x, n - k))
    decreases k
  {
    hide Half, Low, Twice;
    if k > 0 {
      TwiceBit(Up(x, k - 1), n);
      if n >= 1 { UpBit(x, k - 1, n - 1); }
    }
  }

  /** x >> k */
  function Down(x: bv32, k: nat): bv32 {
    if k == 0 then x else Half(Down(x, k - 1))
  }

  lemma {:induction false} DownBit(x: bv32, k: nat, n: nat)
    ensures BitOf(Down(x, k), n) == BitOf(x, n + k)
    decreases k
  {
    hide Half, Low;
    if k > 0 { DownBit(x, k - 1, n + 1); }
  }

  lemma {:induction false} UpUp(x: bv32, j: nat, k: nat)
    ensures Up(Up(x, j), k) == Up(x, j + k)
  {
    hide Twice;
    if k > 0 { UpUp(x, j, k - 1); }
  }

  lemma {:induction false} DownDown(x: bv32, j: nat, k: nat)
    ensures Down(Down(x, j), k) == Down(x, j + k)
  {
    hide Half;
    if k > 0 { DownDown(x, j, k - 1); }
  }

  // ---------- Shifts by literal amounts ----------

  lemma DownOfEight(x: bv32)
    ensures Down(x, 8) == x >> 8
  {
    assert Down(x, 1) == Half(x);
    assert Down(x, 2) == Half(Half(x));
    assert Down(x, 4) == Half(Half(Down(x, 2)));
    assert Down(x, 6) == Half(Half(Down(x, 4)));
  }

  lemma DownOfEleven(x: bv32)
    ensures Down(x, 11) == x >> 11
  {
    DownOfEight(x);
    assert Down(x, 9) == Half(Down(x, 8));
    assert Down(x, 10) == Half(Down(x, 9));
  }

  lemma DownOfTwentyFour(x: bv32)
    ensures Down(x, 24) == x >> 24 && Down(x, 32) == 0
  {
    hide Down;
    DownOfEight(x);
    DownDown(x, 8, 8);
    DownOfEight(Down(x, 8));
    DownDown(x, 16, 8);
    DownOfEight(Down(x, 16));
    DownDown(x, 24, 8);
    DownOfEight(Down(x, 24));
  }

  lemma UpOfEight(x: bv32)
    ensures Up(x, 8) == x << 8
  {
    assert Up(x, 1) == Twice(x);
    assert Up(x, 2) == Twice(Twice(x));
    assert Up(x, 4) == Twice(Twice(Up(x, 2)));
    assert Up(x, 6) == Twice(Twice(Up(x, 4)));
  }

  lemma UpOfEighteen(x: bv32)
    ensures Up(x, 18) == x << 18
  {
    UpOfEight(x);
    UpUp(x, 8, 8);
    UpOfEight(Up(x, 8));
    assert Up(x, 17) == Twice(Up(x, 16));
    assert Up(x, 18) == Twice(Up(x, 17));
  }

  lemma UpOfTwentyFour(x: bv32)
    ensures Up(x, 24) == x << 24
  {
    hide Up;
    UpOfEight(x);
    UpUp(x, 8, 8);
    UpOfEight(Up(x, 8));
    UpUp(x, 16, 8);
    UpOfEight(Up(x, 16));
  }

  /** A word has no bits from the 32nd on. */
  lemma NoHighBits(x: bv32, n: nat)
    requires n >= 32
    ensures !BitOf(x, n)
  {
    hide Down;
    DownOfTwentyFour(x);
    DownBit(x, 32, n - 32);
    ZeroBits(n - 32);
  }
}
