/** The bit accumulator of inflate: bytes enter above the bits that are held, fields leave below. */
module Accumulator {
  import opened Words
  import opened Powers
  import opened Bits

  /** The number whose digits are these bytes, least significant first: the unread bits of a stream. */
  function Number(s: seq<byte>): nat {
    if s == [] then 0 else s[0] + 256 * Number(s[1..])
  }

  /** hold has the lowest bits of u, and the input from i on has the others. */
  ghost predicate Holds(u: nat, hold: nat, bits: nat, input: seq<byte>, i: nat) {
    i <= |input| && hold < Pow2(bits) && u == hold + Pow2(bits) * Number(input[i..])
  }

  /** u without its n lowest bits. */
  function Drop(u: nat, n: nat): nat { Quotient(u, Pow2(n)) }

  function Quotient(u: nat, p: nat): nat
    requires p > 0
  {
    u / p
  }

  /** The n lowest bits of u. */
  function Low(u: nat, n: nat): (r: nat)
    ensures r < Pow2(n)
  {
    u % Pow2(n)
  }

  lemma Split(u: nat, n: nat)
    ensures u == Drop(u, n) * Pow2(n) + Low(u, n)
  {
  }

  lemma Unsplit(q: nat, r: nat, n: nat)
    requires r < Pow2(n)
    ensures Drop(q * Pow2(n) + r, n) == q && Low(q * Pow2(n) + r, n) == r
  {
    hide Pow2;
    ModOfMultiple(q, r, Pow2(n));
  }

  lemma DropTwice(u: nat, a: nat, b: nat)
    ensures Drop(Drop(u, a), b) == Drop(u, a + b)
  {
    hide Pow2, Drop, Low;
    var v := Drop(u, a);
    Split(u, a);
    Split(v, b);
    Pow2Sum(b, a);
    Regroup(Drop(v, b), Pow2(b), Low(v, b), Pow2(a));
    ScaledBelow(Low(v, b), Pow2(b), Pow2(a));
    var r := Low(v, b) * Pow2(a) + Low(u, a);
    Room(Low(v, b), Pow2(b), Low(u, a), Pow2(a));
    assert u == Drop(v, b) * Pow2(a + b) + r;
    Unsplit(Drop(v, b), r, a + b);
  }

  lemma Room(x: nat, p: nat, y: nat, q: nat)
    requires x < p && y < q
    ensures x * q + y < p * q
  {
    MulMonotone(x + 1, p, q);
  }

  /** `hold += (unsigned long)(*in++) << bits; bits += 8;` */
  lemma HoldsMore(u: nat, hold: nat, bits: nat, input: seq<byte>, i: nat)
    requires Holds(u, hold, bits, input, i) && i < |input|
    ensures Holds(u, hold + input[i] * Pow2(bits), bits + 8, input, i + 1)
  {
    hide Pow2;
    Pow2Sum(8, bits);
    Pow2Of24();
    assert input[i..][1..] == input[i + 1..] && input[i..][0] == input[i];
    var x, p := Number(input[i + 1..]), Pow2(bits);
    assert Number(input[i..]) == input[i] + 256 * x;
    Digits(p, input[i], x);
    Room(input[i], 256, hold, p);
  }

  lemma Digits(p: nat, c: nat, x: nat)
    ensures p * (c + 256 * x) == c * p + 256 * p * x
  {
  }

  /** Fields that are held can be looked at in the accumulator. */
  lemma HoldsPeek(u: nat, hold: nat, bits: nat, input: seq<byte>, i: nat, n: nat)
    requires Holds(u, hold, bits, input, i) && n <= bits
    ensures Low(hold, n) == Low(u, n)
    ensures Holds(Drop(u, n), Drop(hold, n), bits - n, input, i)
  {
    hide Pow2, Drop, Low, Number;
    var x := Number(input[i..]);
    Split(hold, n);
    Pow2Sum(n, bits - n);
    Peeked(Drop(hold, n), Pow2(n), Low(hold, n), Pow2(bits - n), x);
    Unsplit(Drop(hold, n) + Pow2(bits - n) * x, Low(hold, n), n);
    if Drop(hold, n) >= Pow2(bits - n) { MulMonotone(Pow2(bits - n), Drop(hold, n), Pow2(n)); }
  }

  lemma Peeked(q: nat, p: nat, r: nat, d: nat, x: nat)
    ensures q * p + r + (p * d) * x == (q + d * x) * p + r
  {
  }

  /** Nothing held: the number is the input's. */
  lemma {:induction false} DropBytes(input: seq<byte>, i: nat, n: nat)
    requires i + n <= |input|
    ensures Drop(Number(input[i..]), 8 * n) == Number(input[i + n..])
  {
    hide Pow2, Drop;
    if n == 0 { DropNone(Number(input[i..])); } else {
      DropBytes(input, i, n - 1);
      DropTwice(Number(input[i..]), 8 * (n - 1), 8);
      var s := input[i + n - 1..];
      assert s[1..] == input[i + n..];
      Pow2Of24();
      Unsplit(Number(s[1..]), s[0], 8);
    }
  }

  lemma DropNone(u: nat)
    ensures Drop(u, 0) == u
  {
  }

  /** Whole bytes that are held but not used can be given back. */
  lemma GiveBack(u0: nat, hold0: nat, bits0: nat, input: seq<byte>, i0: nat, used: nat, hold: nat, bits: nat, i: nat, n: nat)
    requires Holds(u0, hold0, bits0, input, i0) && Holds(Drop(u0, used), hold, bits, input, i)
    requires used + bits == bits0 + 8 * (i - i0) && i0 <= i - n && 8 * n <= bits
    ensures Holds(Drop(u0, used), Low(hold, bits - 8 * n), bits - 8 * n, input, i - n)
  {
    hide Pow2, Drop, Low, Number;
    var b, u := bits - 8 * n, Drop(u0, used);
    HoldsPeek(u, hold, bits, input, i, b);
    Split(u, b);
    DropTwice(u0, used, b);
    HoldsPeek(u0, hold0, bits0, input, i0, bits0);
    DropTwice(u0, bits0, 8 * (i - n - i0));
    DropBytes(input, i0, i - n - i0);
    NoBitsLeft(Drop(u0, bits0), Drop(hold0, bits0), input, i0);
    Commute(Drop(u, b), Pow2(b));
  }

  lemma NoBitsLeft(u: nat, hold: nat, input: seq<byte>, i: nat)
    requires Holds(u, hold, 0, input, i)
    ensures u == Number(input[i..])
  {
  }

  lemma Commute(a: nat, b: nat)
    ensures a * b == b * a
  {
  }
}
