/** Combining checksums: multiplication by a power of x that is found by repeated squaring. */
module CrcCombine {
  import opened Powers
  import opened CrcPolynomials
  import opened CrcPeriod
  import opened CrcTables

  ghost predicate IsX2nTable(table: seq<bv32>) {
    |table| == 32 && forall k :: 0 <= k < 32 ==> table[k] == XPower2(k)
  }

  method MakeX2nTable() returns (table: array<bv32>)
    ensures fresh(table) && IsX2nTable(table[..])
  {
    hide XPower2, Product;
    table := new bv32[32];
    FirstPower();
    var p: bv32 := 0x4000_0000;
    table[0] := p;
    for n := 1 to 32
      invariant p == XPower2(n - 1) && forall k :: 0 <= k < n ==> table[k] == XPower2(k)
    {
      XPowerNotZero(n - 1);
      NextPower(n - 1);
      p := Multmodp(p, p);
      table[n] := p;
    }
  }

  lemma XPowerNotZero(k: nat)
    ensures XPower2(k) != 0
  {
    PowerNotZero(Pow2(k));
  }

  /** x^(n * 2^k); the table of squares wraps round. */
  method X2nmodp(table: array<bv32>, n0: nat, k0: nat) returns (p: bv32)
    requires IsX2nTable(table[..])
    ensures p == ShiftUp(One(), n0 * Pow2(k0))
  {
    hide ShiftUp, Product, Pow2, One;
    var n: nat, k: nat := n0, k0;
    p := StartsAtOne();
    ghost var e: nat := 0;
    while n > 0
      invariant p == ShiftUp(One(), e) && e + n * Pow2(k) == n0 * Pow2(k0)
    {
      HalvedExponent(n, k);
      if n % 2 == 1 {
        XPowerNotZero(k % 32);
        PowersRepeat(k);
        PowersMultiply(Pow2(k), e);
        p := Multmodp(table[k % 32], p);
        e := Pow2(k) + e;
      }
      n := n / 2;
      k := k + 1;
    }
    NoExponent(n, k);
  }

  lemma NoExponent(n: nat, k: nat)
    requires n == 0
    ensures n * Pow2(k) == 0
  {
  }

  method StartsAtOne() returns (p: bv32)
    ensures p == ShiftUp(One(), 0)
  {
    p := 1 << 31;
  }

  lemma HalvedExponent(n: nat, k: nat)
    ensures n * Pow2(k) == (n % 2) * Pow2(k) + (n / 2) * Pow2(k + 1)
  {
    var p := Pow2(k);
    assert Pow2(k + 1) == 2 * p;
    assert n == 2 * (n / 2) + n % 2;
    assert (2 * (n / 2) + n % 2) * p == (n / 2) * (2 * p) + (n % 2) * p;
  }

  /** What is left of an exponent after that many rounds: the shift is an arithmetic one, so halves are rounded down. */
  function Halved(n: int, rounds: nat): int {
    if rounds == 0 then n else Halved(n, rounds - 1) / 2
  }

  lemma {:induction false} NegativeStays(n: int, rounds: nat)
    requires n < 0
    ensures Halved(n, rounds) < 0
  {
    if rounds > 0 { NegativeStays(n, rounds - 1); }
  }

  lemma {:induction false} HalvedFirst(n: int, rounds: nat)
    ensures Halved(n, rounds + 1) == Halved(n / 2, rounds)
  {
    if rounds > 0 { HalvedFirst(n, rounds - 1); }
  }

  lemma {:induction false} SomeRoundIsLast(n: nat) returns (rounds: nat)
    ensures Halved(n, rounds) == 0
    decreases n
  {
    if n == 0 {
      rounds := 0;
    } else {
      rounds := SomeRoundIsLast(n / 2);
      HalvedFirst(n, rounds);
      rounds := rounds + 1;
    }
  }

  /** The loop of X2nmodp ends exactly for lengths that are not negative. */
  lemma EndsUnlessNegative(n: int)
    ensures (exists rounds :: Halved(n, rounds) == 0) <==> n >= 0
  {
    if n >= 0 {
      var rounds := SomeRoundIsLast(n);
    } else {
      forall rounds: nat ensures Halved(n, rounds) != 0 { NegativeStays(n, rounds); }
    }
  }

  /** The operator for a second part of len2 bytes: x^(8 len2) */
  method Crc32CombineGen(table: array<bv32>, len2: nat) returns (op: bv32)
    requires IsX2nTable(table[..])
    ensures op == ShiftUp(One(), 8 * len2) && op != 0
  {
    hide ShiftUp, Product, Pow2, One;
    EightIs();
    PowerNotZero(8 * len2);
    op := X2nmodp(table, len2, 3);
  }

  /** The checksum of a concatenation, from the checksums of the parts and the operator for the length of the second. */
  method Crc32CombineOp(crc1: bv32, crc2: bv32, op: bv32, ghost s: seq<bv8>, ghost t: seq<bv8>) returns (r: bv32)
    requires op != 0
    ensures r == Add(Product(op, crc1), crc2)
    ensures crc1 == Crc(0, s) && crc2 == Crc(0, t) && op == ShiftUp(One(), 8 * |t|) ==> r == Crc(0, s + t)
  {
    hide ShiftUp, Product, One, Crc, Add;
    ProductCommutes(op, crc1);
    ProductPower(crc1, 8 * |t|);
    CrcOfConcat(s, t);
    var q := Multmodp(op, crc1);
    r := Add(q, crc2);
  }

  /** The checksum of a concatenation, from the checksums of the parts and the length of the second. */
  method Crc32Combine(table: array<bv32>, crc1: bv32, crc2: bv32, len2: nat, ghost s: seq<bv8>, ghost t: seq<bv8>) returns (r: bv32)
    requires IsX2nTable(table[..])
    ensures r == Add(ShiftUp(crc1, 8 * len2), crc2)
    ensures crc1 == Crc(0, s) && crc2 == Crc(0, t) && len2 == |t| ==> r == Crc(0, s + t)
  {
    hide ShiftUp, Product, Pow2, One, Crc, Add;
    EightIs();
    var p := X2nmodp(table, len2, 3);
    PowerNotZero(8 * len2);
    ProductCommutes(ShiftUp(One(), 8 * len2), crc1);
    ProductPower(crc1, 8 * len2);
    CrcOfConcat(s, t);
    var q := Multmodp(p, crc1);
    r := Add(q, crc2);
  }

  lemma EightIs()
    ensures Pow2(3) == 8
  {
    assert Pow2(1) == 2;
  }
}
