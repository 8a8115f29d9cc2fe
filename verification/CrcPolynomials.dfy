/** Arithmetic modulo the CRC polynomial: a word holds a polynomial over GF(2), lowest power in the highest bit. */
module CrcPolynomials {

  const POLY: bv32 := 0xedb8_8320

  // ---------- Words ----------
  // Named, so that proofs can go by their laws instead of by their bits.

  /** The sum of two polynomials. */
  function Add(a: bv32, b: bv32): bv32 { a ^ b }

  /** Multiplication by x. */
  function TimesX(b: bv32): bv32 {
    if b & 1 == 1 then (b >> 1) ^ POLY else b >> 1
  }

  function And(a: bv32, b: bv32): bv32 { a & b }

  function Or(a: bv32, b: bv32): bv32 { a | b }

  /** The bits below the single bit m. */
  function Below(m: bv32): bv32 { if m == 0 then 0 else m - 1 }

  predicate Has(a: bv32, m: bv32) { And(a, m) != 0 }

  function Half(m: bv32): bv32 { m >> 1 }

  /** The bits of a at and below the single bit m. */
  function Down(a: bv32, m: bv32): bv32 { And(a, Or(m, Below(m))) }

  function Rank(m: bv32): nat { m as int }

  /** m is a single bit. */
  predicate Single(m: bv32) { m != 0 && m & (m - 1) == 0 }

  /** x^0 */
  function One(): (r: bv32)
    ensures Single(r) && forall a: bv32 {:trigger Down(a, r)} :: Down(a, r) == a
  {
    0x8000_0000
  }

  lemma AddLaws(a: bv32, b: bv32, c: bv32)
    ensures Add(a, b) == Add(b, a) && Add(Add(a, b), c) == Add(a, Add(b, c))
    ensures Add(a, 0) == a && Add(0, a) == a && Add(a, a) == 0
  {
    hide Add;
    AddCommutes(a, b);
    AddAssociates(a, b, c);
    AddZero(a);
  }

  lemma AddCommutes(a: bv32, b: bv32)
    ensures Add(a, b) == Add(b, a)
  {
  }

  lemma AddAssociates(a: bv32, b: bv32, c: bv32)
    ensures Add(Add(a, b), c) == Add(a, Add(b, c))
  {
  }

  lemma AddZero(a: bv32)
    ensures Add(a, 0) == a && Add(0, a) == a && Add(a, a) == 0
  {
  }

  lemma AddSwap(a: bv32, b: bv32, c: bv32, d: bv32)
    ensures Add(Add(a, b), Add(c, d)) == Add(Add(a, c), Add(b, d))
  {
    hide Add;
    AddLaws(a, b, Add(c, d));
    AddLaws(b, c, d);
    AddLaws(c, b, d);
    AddLaws(a, c, Add(b, d));
  }

  predicate Odd(a: bv32) { a & 1 == 1 }

  lemma TimesXForm(a: bv32)
    ensures TimesX(a) == if Odd(a) then Add(Half(a), POLY) else Half(a)
  {
  }

  lemma HalfAdds(a: bv32, b: bv32)
    ensures Half(Add(a, b)) == Add(Half(a), Half(b))
  {
  }

  lemma OddAdds(a: bv32, b: bv32)
    ensures Odd(Add(a, b)) <==> (Odd(a) != Odd(b))
  {
  }

  lemma TimesXAdds(a: bv32, b: bv32)
    ensures TimesX(Add(a, b)) == Add(TimesX(a), TimesX(b))
  {
    hide TimesX, Add, Half, Odd;
    TimesXForm(a);
    TimesXForm(b);
    TimesXForm(Add(a, b));
    HalfAdds(a, b);
    OddAdds(a, b);
    AddSwap(Half(a), Half(b), POLY, POLY);
    AddLaws(Half(a), Half(b), POLY);
    AddLaws(Half(a), POLY, Half(b));
    AddLaws(Half(b), POLY, POLY);
    AddSwap(Half(a), POLY, Half(b), POLY);
    AddLaws(POLY, POLY, POLY);
    AddLaws(Add(Half(a), Half(b)), POLY, POLY);
  }

  lemma TimesXZero()
    ensures TimesX(0) == 0
  {
  }

  lemma TimesXInjective(b: bv32)
    requires TimesX(b) == 0
    ensures b == 0
  {
  }

  lemma HalfSingle(m: bv32)
    requires Single(m)
    ensures Rank(Half(m)) < Rank(m) && (Half(m) != 0 ==> Single(Half(m)) && TimesX(m) == Half(m))
  {
  }

  /** The part of a from m down is the bit at m and the part below. */
  lemma DownStep(a: bv32, m: bv32)
    requires Single(m)
    ensures Down(a, m) == Add(if Has(a, m) then m else 0, if Half(m) == 0 then 0 else Down(a, Half(m)))
  {
    hide And, Or, Below, Half, Add, Single;
    BelowSingle(m);
    BitOrNot(a, m);
    TwoMasks(a, m, Below(m));
    AndZero(a);
  }

  lemma BelowSingle(m: bv32)
    requires Single(m)
    ensures Below(m) == if Half(m) == 0 then 0 else Or(Half(m), Below(Half(m)))
    ensures And(m, Below(m)) == 0
  {
  }

  lemma BitOrNot(a: bv32, m: bv32)
    requires Single(m)
    ensures And(a, m) == 0 || And(a, m) == m
  {
  }

  lemma TwoMasks(a: bv32, p: bv32, q: bv32)
    requires And(p, q) == 0
    ensures And(a, Or(p, q)) == Add(And(a, p), And(a, q))
    ensures And(a, Or(p, q)) == 0 <==> And(a, p) == 0 && And(a, q) == 0
  {
    hide And, Or, Add;
    MaskSum(a, p, q);
    MaskNone(a, p, q);
  }

  lemma MaskSum(a: bv32, p: bv32, q: bv32)
    requires And(p, q) == 0
    ensures And(a, Or(p, q)) == Add(And(a, p), And(a, q))
  {
  }

  lemma MaskNone(a: bv32, p: bv32, q: bv32)
    ensures And(a, Or(p, q)) == 0 <==> And(a, p) == 0 && And(a, q) == 0
  {
    hide And, Or;
    MaskOr(a, p, q);
    OrNone(And(a, p), And(a, q));
  }

  lemma MaskOr(a: bv32, p: bv32, q: bv32)
    ensures And(a, Or(p, q)) == Or(And(a, p), And(a, q))
  {
  }

  lemma OrNone(x: bv32, y: bv32)
    ensures Or(x, y) == 0 <==> x == 0 && y == 0
  {
  }

  lemma AndZero(a: bv32)
    ensures And(a, 0) == 0
  {
  }

  // ---------- Products ----------

  /** The product of the part of a from bit m down, and b. */
  function Times(a: bv32, b: bv32, m: bv32): bv32
    requires m == 0 || Single(m)
    decreases Rank(m)
  {
    if m == 0 then 0
    else
      HalfSingle(m);
      Add(if Has(a, m) then b else 0, Times(a, TimesX(b), Half(m)))
  }

  function Product(a: bv32, b: bv32): bv32 {
    Times(a, b, One())
  }

  lemma TimesStep(a: bv32, b: bv32, m: bv32)
    requires Single(m)
    ensures Half(m) == 0 || Single(Half(m))
    ensures Times(a, b, m) == Add(if Has(a, m) then b else 0, Times(a, TimesX(b), Half(m)))
  {
    hide TimesX, Half, Has, Add;
    HalfSingle(m);
  }

  lemma {:induction false} TimesAdds(a: bv32, b: bv32, c: bv32, m: bv32)
    requires m == 0 || Single(m)
    ensures Times(a, Add(b, c), m) == Add(Times(a, b, m), Times(a, c, m))
    decreases Rank(m)
  {
    hide TimesX, Single, Has, Half, Rank, Add;
    AddLaws(0, 0, 0);
    if m != 0 {
      HalfSingle(m);
      TimesXAdds(b, c);
      TimesAdds(a, TimesX(b), TimesX(c), Half(m));
      AddSwap(b, c, Times(a, TimesX(b), Half(m)), Times(a, TimesX(c), Half(m)));
      AddSwap(0, 0, Times(a, TimesX(b), Half(m)), Times(a, TimesX(c), Half(m)));
    }
  }

  lemma {:induction false} TimesCommutesX(a: bv32, b: bv32, m: bv32)
    requires m == 0 || Single(m)
    ensures Times(a, TimesX(b), m) == TimesX(Times(a, b, m))
    decreases Rank(m)
  {
    hide TimesX, Single, Has, Half, Rank, Add;
    TimesXZero();
    if m != 0 {
      HalfSingle(m);
      TimesCommutesX(a, TimesX(b), Half(m));
      TimesXAdds(b, Times(a, TimesX(b), Half(m)));
      TimesXAdds(0, Times(a, TimesX(b), Half(m)));
    }
  }

  lemma {:induction false} TimesZero(a: bv32, m: bv32)
    requires m == 0 || Single(m)
    ensures Times(a, 0, m) == 0
    decreases Rank(m)
  {
    hide TimesX, Single, Has, Half, Rank, Add;
    TimesXZero();
    AddLaws(0, 0, 0);
    if m != 0 {
      HalfSingle(m);
      TimesZero(a, Half(m));
    }
  }

  lemma NoFactor(a: bv32, b: bv32)
    ensures Times(a, b, 0) == 0
  {
  }

  /** Multiplying by a and by b can be exchanged. */
  lemma {:induction false} TimesExchange(a: bv32, b: bv32, c: bv32, m: bv32, n: bv32)
    requires (m == 0 || Single(m)) && (n == 0 || Single(n))
    ensures Times(a, Times(b, c, n), m) == Times(b, Times(a, c, m), n)
    decreases Rank(n)
  {
    hide TimesX, Single, Has, Half, Rank, Add, Times;
    TimesZero(a, m);
    if n == 0 {
      NoFactor(b, c);
      NoFactor(b, Times(a, c, m));
    } else {
      HalfSingle(n);
      var first, rest := if Has(b, n) then c else 0, Times(b, TimesX(c), Half(n));
      TimesExchange(a, b, TimesX(c), m, Half(n));
      TimesCommutesX(a, c, m);
      TimesAdds(a, first, rest, m);
      TimesStep(b, c, n);
      TimesStep(b, Times(a, c, m), n);
    }
  }

  /** A power of x times the part of a from there down is that part of a. */
  lemma {:induction false} TimesSingle(a: bv32, m: bv32)
    requires Single(m)
    ensures Times(a, m, m) == Down(a, m)
    decreases Rank(m)
  {
    hide TimesX, Single, Has, Half, Rank, Add, Down;
    HalfSingle(m);
    DownStep(a, m);
    TimesStep(a, m, m);
    if Half(m) != 0 { TimesSingle(a, Half(m)); } else { NoFactor(a, TimesX(m)); }
  }

  /** x^0 is neutral. */
  lemma ProductOne(a: bv32)
    ensures Product(a, One()) == a
  {
    hide Times, Single, Down, One;
    TimesSingle(a, One());
  }

  lemma ProductCommutes(a: bv32, b: bv32)
    ensures Product(a, b) == Product(b, a)
  {
    hide Times, Single, Down, One;
    TimesExchange(a, b, One(), One(), One());
    ProductOne(a);
    ProductOne(b);
  }

  lemma ProductAssociates(a: bv32, b: bv32, c: bv32)
    ensures Product(Product(a, b), c) == Product(a, Product(b, c))
  {
    hide Times, Single, Down, One;
    ProductCommutes(Product(a, b), c);
    TimesExchange(c, a, b, One(), One());
    ProductCommutes(b, c);
  }

  lemma ProductAdds(a: bv32, b: bv32, c: bv32)
    ensures Product(a, Add(b, c)) == Add(Product(a, b), Product(a, c))
  {
    hide Times, Single, Down, One, Add;
    TimesAdds(a, b, c, One());
  }

  // ---------- Powers of x ----------

  /** b times x^n */
  function ShiftUp(b: bv32, n: nat): bv32 {
    if n == 0 then b else TimesX(ShiftUp(b, n - 1))
  }

  lemma {:induction false} ShiftUpAdds(a: bv32, b: bv32, n: nat)
    ensures ShiftUp(Add(a, b), n) == Add(ShiftUp(a, n), ShiftUp(b, n))
  {
    hide TimesX, Add;
    if n > 0 {
      ShiftUpAdds(a, b, n - 1);
      TimesXAdds(ShiftUp(a, n - 1), ShiftUp(b, n - 1));
    }
  }

  lemma {:induction false} ShiftUpTwice(b: bv32, m: nat, n: nat)
    ensures ShiftUp(ShiftUp(b, m), n) == ShiftUp(b, m + n)
  {
    hide TimesX;
    if n > 0 { ShiftUpTwice(b, m, n - 1); }
  }

  /** Multiplying by x^n is n multiplications by x. */
  lemma {:induction false} ProductPower(b: bv32, n: nat)
    ensures Product(b, ShiftUp(One(), n)) == ShiftUp(b, n)
  {
    hide TimesX, Times, Single, Down, One;
    if n == 0 {
      ProductOne(b);
    } else {
      ProductPower(b, n - 1);
      TimesCommutesX(b, ShiftUp(One(), n - 1), One());
    }
  }

  lemma PowersMultiply(m: nat, n: nat)
    ensures Product(ShiftUp(One(), m), ShiftUp(One(), n)) == ShiftUp(One(), m + n)
  {
    hide TimesX, Product, One;
    ProductPower(ShiftUp(One(), m), n);
    ShiftUpTwice(One(), m, n);
  }

  /** No power of x is zero. */
  lemma {:induction false} PowerNotZero(n: nat)
    ensures ShiftUp(One(), n) != 0
  {
    hide TimesX;
    if n > 0 {
      PowerNotZero(n - 1);
      if ShiftUp(One(), n) == 0 { TimesXInjective(ShiftUp(One(), n - 1)); }
    }
  }

  // ---------- The multiplication loop ----------

  lemma {:induction false} NothingLeft(a: bv32, b: bv32, m: bv32)
    requires m == 0 || (Single(m) && Down(a, m) == 0)
    ensures Times(a, b, m) == 0
    decreases Rank(m)
  {
    hide TimesX, Single, Half, Has, Rank, Add, Down;
    if m != 0 {
      HalfSingle(m);
      LowerBits(a, m);
      AddLaws(0, 0, 0);
      NothingLeft(a, TimesX(b), Half(m));
    }
  }

  lemma LowerBits(a: bv32, m: bv32)
    requires Single(m)
    ensures Down(a, m) == 0 ==> !Has(a, m) && (Half(m) != 0 ==> Down(a, Half(m)) == 0)
    ensures Down(a, m) != 0 && !Has(a, m) ==> Half(m) != 0 && Down(a, Half(m)) != 0
    ensures if And(a, Below(m)) == 0 then Half(m) != 0 ==> Down(a, Half(m)) == 0 else Half(m) != 0 && Down(a, Half(m)) != 0
  {
    hide And, Or, Below, Half, Add, Single;
    BelowSingle(m);
    TwoMasks(a, m, Below(m));
    AndZero(a);
  }

  /** a times b modulo the polynomial; a must not be zero. */
  method Multmodp(a: bv32, b0: bv32) returns (p: bv32)
    requires a != 0
    ensures p == Product(a, b0)
  {
    hide TimesX, Single, Half, Has, Rank, Add, Down, And, Or, Below;
    var m: bv32, b := 1 << 31, b0;
    p := 0;
    assert m == One();
    AddLaws(Product(a, b), 0, 0);
    while true
      invariant Single(m) && Down(a, m) != 0
      invariant Add(p, Times(a, b, m)) == Product(a, b0)
      decreases Rank(m)
    {
      HalfSingle(m);
      LowerBits(a, m);
      AddLaws(p, if Has(a, m) then b else 0, Times(a, TimesX(b), Half(m)));
      AddLaws(p, 0, 0);
      AddLaws(Times(a, TimesX(b), Half(m)), 0, 0);
      BranchIs(a, b, m, p);
      if a & m != 0 {
        p := p ^ b;
        if a & (m - 1) == 0 {
          NothingLeft(a, TimesX(b), Half(m));
          AddLaws(p, 0, 0);
          break;
        }
      }
      m := m >> 1;
      b := if b & 1 == 1 then (b >> 1) ^ POLY else b >> 1;
    }
  }

  lemma BranchIs(a: bv32, b: bv32, m: bv32, p: bv32)
    ensures Has(a, m) == (a & m != 0) && Add(p, b) == p ^ b && Half(m) == m >> 1
    ensures m != 0 ==> And(a, Below(m)) == a & (m - 1)
    ensures TimesX(b) == if b & 1 == 1 then (b >> 1) ^ POLY else b >> 1
  {
  }
}
