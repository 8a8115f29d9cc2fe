/** The period certification of the SFMT generator. */
module SfmtPeriod {

  function Parity(): (p: seq<bv32>)
    ensures |p| == 4
  {
    [0x0000_0001, 0, 0, 0x13c9_e684]
  }

  // ---------- Odd numbers of bits ----------

  function Half(x: bv32): bv32 { x >> 1 }

  function Sum(x: bv32, y: bv32): bv32 { x ^ y }

  predicate Bit(x: bv32) { x & 1 == 1 }

  /** An odd number of the n lowest bits of x are set. */
  predicate OddBits(x: bv32, n: nat)
    decreases n
  {
    n > 0 && Bit(x) != OddBits(Half(x), n - 1)
  }

  /** x >> n */
  function Right(x: bv32, n: nat): bv32
    decreases n
  {
    if n == 0 then x else Right(Half(x), n - 1)
  }

  lemma SumBits(x: bv32, y: bv32)
    ensures Bit(Sum(x, y)) == (Bit(x) != Bit(y)) && Half(Sum(x, y)) == Sum(Half(x), Half(y))
  {
  }

  lemma {:induction false} OddOfSum(x: bv32, y: bv32, n: nat)
    ensures OddBits(Sum(x, y), n) == (OddBits(x, n) != OddBits(y, n))
    decreases n
  {
    hide Bit, Half, Sum;
    if n > 0 {
      SumBits(x, y);
      OddOfSum(Half(x), Half(y), n - 1);
    }
  }

  lemma {:induction false} OddOfParts(x: bv32, a: nat, b: nat)
    ensures OddBits(x, a + b) == (OddBits(x, a) != OddBits(Right(x, a), b))
    decreases a
  {
    hide Bit, Half;
    if a > 0 { OddOfParts(Half(x), a - 1, b); }
  }

  /** Folding the upper half onto the lower one keeps the oddness. */
  lemma OddOfFold(x: bv32, n: nat)
    ensures OddBits(x, 2 * n) == OddBits(Sum(x, Right(x, n)), n)
  {
    hide Bit, Half, Sum, Right, OddBits;
    OddOfParts(x, n, n);
    OddOfSum(x, Right(x, n), n);
  }

  /** `for (i = 16; i > 0; i >>= 1) inner ^= inner >> i; inner &= 1;` */
  method FoldDown(x: bv32) returns (r: bv32)
    ensures r == if OddBits(x, 32) then 1 else 0
  {
    hide OddBits, Right, Sum, Shr;
    r := x;
    var i: nat := 16;
    while i > 0
      invariant i in {0, 1, 2, 4, 8, 16}
      invariant OddBits(r, if i == 0 then 1 else 2 * i) == OddBits(x, 32)
    {
      OddOfFold(r, i);
      ShiftIsRight(r, i);
      r := Sum(r, Shr(r, i));
      i := i / 2;
    }
    LastBit(r);
    r := r & 1;
  }

  /** `x >> i`, for the shifts of the loop */
  function Shr(x: bv32, i: nat): bv32
    requires i in {0, 1, 2, 4, 8, 16}
  {
    match i
    case 16 => x >> 16
    case 8 => x >> 8
    case 4 => x >> 4
    case 2 => x >> 2
    case 1 => x >> 1
    case _ => x
  }

  lemma ShiftIsRight(x: bv32, i: nat)
    requires i in {1, 2, 4, 8, 16}
    ensures Right(x, i) == Shr(x, i)
    decreases i
  {
    hide Half, Right, Shr;
    RightTwice(x, 1, 1);
    RightTwice(x, 2, 2);
    RightTwice(x, 4, 4);
    RightTwice(x, 8, 8);
    RightOnce(x);
    RightOnce(Right(x, 1));
    ShrOne(x);
    ShrOne(Shr(x, 2));
    ShrTwo(x);
    ShrTwo(Shr(x, 2));
    ShrFour(x);
    ShrFour(Shr(x, 4));
    ShrEight(x);
    ShrEight(Shr(x, 8));
    if i > 2 {
      ShiftIsRight(x, i / 2);
      ShiftIsRight(Right(x, i / 2), i / 2);
    }
  }

  lemma RightOnce(x: bv32)
    ensures Right(x, 1) == Shr(x, 1)
  {
    assert Right(Half(x), 0) == Half(x);
  }

  lemma ShrOne(x: bv32)
    ensures Shr(Shr(x, 1), 1) == Shr(x, 2)
  {
  }

  lemma ShrTwo(x: bv32)
    ensures Shr(Shr(x, 2), 2) == Shr(x, 4)
  {
  }

  lemma ShrFour(x: bv32)
    ensures Shr(Shr(x, 4), 4) == Shr(x, 8)
  {
  }

  lemma ShrEight(x: bv32)
    ensures Shr(Shr(x, 8), 8) == Shr(x, 16)
  {
  }

  lemma {:induction false} RightTwice(x: bv32, a: nat, b: nat)
    ensures Right(Right(x, a), b) == Right(x, a + b)
    decreases a
  {
    hide Half;
    if a > 0 { RightTwice(Half(x), a - 1, b); }
  }

  lemma LastBit(x: bv32)
    ensures x & 1 == if OddBits(x, 1) then 1 else 0
  {
  }

  // ---------- The parity check ----------

  function Masked(x: bv32, m: bv32): bv32 { x & m }

  /** The bits that the parity vector selects in the first n cells, added up. */
  function Selected(cells: seq<bv32>, n: nat): bv32
    requires n <= 4 == |cells|
  {
    if n == 0 then 0 else Sum(Selected(cells, n - 1), Masked(cells[n - 1], Parity()[n - 1]))
  }

  /** An odd number of the selected bits of the first n cells are set. */
  predicate OddlySelected(cells: seq<bv32>, n: nat)
    requires n <= 4 == |cells|
  {
    n > 0 && OddlySelected(cells, n - 1) != OddBits(Masked(cells[n - 1], Parity()[n - 1]), 32)
  }

  /** The state is on the long period. */
  predicate Certified(cells: seq<bv32>)
    requires |cells| == 4
  {
    OddlySelected(cells, 4)
  }

  /** The selected bits are the lowest of the first cell and those of one word in the last. */
  lemma CertifiedMeans(cells: seq<bv32>)
    requires |cells| == 4
    ensures Certified(cells) == (Bit(cells[0]) != OddBits(Masked(cells[3], 0x13c9_e684), 32))
  {
    hide OddBits;
    LowestOnly(cells[0]);
    NoneMasked(cells[1]);
    NoneMasked(cells[2]);
    assert OddlySelected(cells, 1) == OddBits(Masked(cells[0], 1), 32);
    assert OddlySelected(cells, 2) == OddlySelected(cells, 1);
    assert OddlySelected(cells, 3) == OddlySelected(cells, 2);
  }

  lemma LowestOnly(x: bv32)
    ensures OddBits(Masked(x, 1), 32) == Bit(x)
  {
    hide OddBits;
    OneOrZero(x);
    assert OddBits(Masked(x, 1), 32) == (Bit(Masked(x, 1)) != OddBits(0, 31)) by { LowestStep(Masked(x, 1)); }
    OddOfZero(31);
  }

  lemma OneOrZero(x: bv32)
    ensures Half(Masked(x, 1)) == 0 && Bit(Masked(x, 1)) == Bit(x)
  {
  }

  lemma LowestStep(x: bv32)
    ensures OddBits(x, 32) == (Bit(x) != OddBits(Half(x), 31))
  {
  }

  lemma NoneMasked(x: bv32)
    ensures !OddBits(Masked(x, 0), 32)
  {
    hide OddBits;
    assert Masked(x, 0) == 0;
    OddOfZero(32);
  }

  lemma {:induction false} OddOfSelected(cells: seq<bv32>, n: nat)
    requires n <= 4 == |cells|
    ensures OddBits(Selected(cells, n), 32) == OddlySelected(cells, n)
  {
    hide OddBits, Sum, Masked;
    if n == 0 { OddOfZero(32); } else {
      OddOfSelected(cells, n - 1);
      OddOfSum(Selected(cells, n - 1), Masked(cells[n - 1], Parity()[n - 1]), 32);
    }
  }

  lemma {:induction false} OddOfZero(n: nat)
    ensures !OddBits(0, n)
  {
    hide Half, Bit;
    ZeroBits();
    if n > 0 { OddOfZero(n - 1); }
  }

  lemma ZeroBits()
    ensures Half(0) == 0 && !Bit(0)
  {
  }

  // ---------- Finding a selected bit ----------

  function Twice(w: bv32): bv32 { w << 1 }

  predicate SingleOrNone(w: bv32) { w & (w - 1) == 0 }

  /** p has no bits below the single bit w. */
  predicate ClearBelow(p: bv32, w: bv32) { p & (w - 1) == 0 }

  /** work after j steps */
  function Work(j: nat): bv32 {
    if j == 0 then 1 else Twice(Work(j - 1))
  }

  lemma {:induction false} WorkIsSingle(j: nat)
    ensures SingleOrNone(Work(j))
  {
    hide SingleOrNone, Twice;
    if j == 0 { FirstWork(0); } else {
      WorkIsSingle(j - 1);
      TwiceSingle(Work(j - 1));
    }
  }

  lemma TwiceSingle(w: bv32)
    requires SingleOrNone(w)
    ensures SingleOrNone(Twice(w))
    ensures Twice(w) != 0 ==> Half(Twice(w)) == w && !Bit(Twice(w))
    ensures w == 0 ==> Twice(w) == 0
  {
  }

  lemma FirstWork(p: bv32)
    ensures SingleOrNone(1) && ClearBelow(p, 1) && Bit(1) && Half(1) == 0
  {
  }

  lemma LastWork()
    ensures Work(31) == 0x8000_0000 && Work(32) == 0
  {
    assert Work(2) == 4;
    assert Work(4) == 0x10;
    assert Work(6) == 0x40;
    assert Work(8) == 0x100;
    assert Work(10) == 0x400;
    assert Work(12) == 0x1000;
    assert Work(14) == 0x4000;
    assert Work(16) == 0x1_0000;
    assert Work(18) == 0x4_0000;
    assert Work(20) == 0x10_0000;
    assert Work(22) == 0x40_0000;
    assert Work(24) == 0x100_0000;
    assert Work(26) == 0x400_0000;
    assert Work(28) == 0x1000_0000;
    assert Work(30) == 0x4000_0000;
  }

  lemma {:induction false} WorkLasts(j: nat)
    requires j <= 31
    ensures Work(j) != 0
    decreases 31 - j
  {
    hide Twice, SingleOrNone;
    LastWork();
    if j < 31 {
      WorkLasts(j + 1);
      WorkIsSingle(j);
      TwiceSingle(Work(j));
    }
  }

  lemma {:induction false} WorkIsOdd(j: nat, n: nat)
    requires j < n <= 32
    ensures OddBits(Work(j), n)
  {
    hide Twice, SingleOrNone, Half, Bit, Work;
    if j == 0 {
      assert Work(0) == 1 by { WorkStart(); }
      FirstWork(0);
      OddOfZero(n - 1);
    } else {
      WorkStep(j);
      WorkLasts(j);
      WorkIsSingle(j - 1);
      TwiceSingle(Work(j - 1));
      WorkIsOdd(j - 1, n - 1);
    }
  }

  lemma WorkStart()
    ensures Work(0) == 1
  {
  }

  lemma WorkStep(j: nat)
    requires j > 0
    ensures Work(j) == Twice(Work(j - 1))
  {
  }

  /** A bit that is not there. */
  lemma NotHere(p: bv32, w: bv32)
    requires SingleOrNone(w) && ClearBelow(p, w) && Masked(w, p) == 0
    ensures ClearBelow(p, Twice(w))
  {
  }

  /** No bit in any place. */
  lemma Nowhere(p: bv32)
    requires ClearBelow(p, 0)
    ensures p == 0
  {
  }

  lemma ParityIsNotZero()
    ensures exists i :: 0 <= i < 4 && Parity()[i] != 0
  {
    assert Parity()[0] != 0;
  }

  lemma MaskedSum(x: bv32, w: bv32, p: bv32)
    requires SingleOrNone(w) && Masked(w, p) != 0
    ensures Masked(Sum(x, w), p) == Sum(Masked(x, p), w)
  {
  }

  /** Changing one selected bit changes the oddness. */
  lemma FlippingCertifies(cells: seq<bv32>, i: nat, j: nat)
    requires i < 4 == |cells| && j < 32 && Masked(Work(j), Parity()[i]) != 0
    ensures Certified(cells[i := Sum(cells[i], Work(j))]) == !Certified(cells)
  {
    hide OddBits, Sum, Masked, Work, SingleOrNone, OddlySelected;
    WorkIsSingle(j);
    WorkIsOdd(j, 32);
    MaskedSum(cells[i], Work(j), Parity()[i]);
    OddOfSum(Masked(cells[i], Parity()[i]), Work(j), 32);
    OthersSelected(cells, i, Sum(cells[i], Work(j)), 4);
  }

  lemma {:induction false} OthersSelected(cells: seq<bv32>, i: nat, x: bv32, n: nat)
    requires i < 4 == |cells| && n <= 4
    requires OddBits(Masked(x, Parity()[i]), 32) == !OddBits(Masked(cells[i], Parity()[i]), 32)
    ensures OddlySelected(cells[i := x], n) == (if n <= i then OddlySelected(cells, n) else !OddlySelected(cells, n))
  {
    hide OddBits, Masked;
    if n > 0 { OthersSelected(cells, i, x, n - 1); }
  }
}
