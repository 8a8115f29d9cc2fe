/** The recurrence of the SFMT generator. */
module SfmtRecurrence {
  import opened WordBits

  /** Words of the state for the period 2^19937 - 1. */
  const N: nat := 156
  const POS1: nat := 122

  /** Four 32-bit lanes. */
  datatype W128 = W128(u0: bv32, u1: bv32, u2: bv32, u3: bv32)

  /** Lane j, u0 the lowest. */
  function Pick(w: W128, j: nat): bv32
    requires j < 4
  {
    if j == 0 then w.u0 else if j == 1 then w.u1 else if j == 2 then w.u2 else w.u3
  }

  // ---------- The recurrence ----------

  /** Two lanes in one word of 64 bits. */
  function Both(h: bv32, l: bv32): bv64 { ((h as bv64) << 32) | (l as bv64) }

  function Lower(x: bv64): bv32 { (x & 0xffff_ffff) as bv32 }

  function Upper(x: bv64): bv32 { (x >> 32) as bv32 }

  function High64(w: W128): bv64 { Both(w.u3, w.u2) }

  function Low64(w: W128): bv64 { Both(w.u1, w.u0) }

  function Halves(oh: bv64, ol: bv64): W128 {
    W128(Lower(ol), Upper(ol), Lower(oh), Upper(oh))
  }

  function HighUp(h: bv64, l: bv64): bv64 { (h << 8) | (l >> 56) }

  function LowUp(l: bv64): bv64 { l << 8 }

  function HighDown(h: bv64): bv64 { h >> 8 }

  function LowDown(h: bv64, l: bv64): bv64 { (l >> 8) | (h << 56) }

  /** Left by SL2 = 1 byte */
  function LeftShift(w: W128): W128 {
    Halves(HighUp(High64(w), Low64(w)), LowUp(Low64(w)))
  }

  /** Right by SR2 = 1 byte */
  function RightShift(w: W128): W128 {
    Halves(HighDown(High64(w)), LowDown(High64(w), Low64(w)))
  }

  /** The lanes as one number, u3 highest. */
  function Whole(w: W128): bv128 { Join64(High64(w), Low64(w)) }

  function Join64(h: bv64, l: bv64): bv128 { ((h as bv128) << 64) | (l as bv128) }

  function Up128(x: bv128): bv128 { x << 8 }

  function Down128(x: bv128): bv128 { x >> 8 }

  lemma JoinShifts(h: bv64, l: bv64)
    ensures Join64(HighUp(h, l), LowUp(l)) == Up128(Join64(h, l))
    ensures Join64(HighDown(h), LowDown(h, l)) == Down128(Join64(h, l))
  {
  }

  lemma HalvesBack(h: bv64, l: bv64)
    ensures High64(Halves(h, l)) == h && Low64(Halves(h, l)) == l
  {
  }

  /** The shifts of halves are shifts of all 128 bits. */
  lemma ShiftsAreWhole(w: W128)
    ensures Whole(LeftShift(w)) == Up128(Whole(w))
    ensures Whole(RightShift(w)) == Down128(Whole(w))
  {
    hide High64, Low64, Halves, Join64, HighUp, LowUp, HighDown, LowDown, Up128, Down128;
    var h, l := High64(w), Low64(w);
    JoinShifts(h, l);
    HalvesBack(HighUp(h, l), LowUp(l));
    HalvesBack(HighDown(h), LowDown(h, l));
  }

  function Right11(x: bv32): bv32 { x >> 11 }

  function Left18(x: bv32): bv32 { x << 18 }

  /** `a ^ x ^ ((b >> SR1) & mask) ^ y ^ (d << SL1)` */
  function Lane(a: bv32, x: bv32, b: bv32, mask: bv32, y: bv32, d: bv32): bv32 {
    Xor(Xor(Xor(Xor(a, x), And(Right11(b), mask)), y), Left18(d))
  }

  const MSK1: bv32 := 0xdfff_ffef
  const MSK2: bv32 := 0xddfe_cb7f
  const MSK3: bv32 := 0xbffa_ffff
  const MSK4: bv32 := 0xbfff_fff6

  /** The recursion formula. */
  function Rec(a: W128, b: W128, c: W128, d: W128): W128 {
    var x, y := LeftShift(a), RightShift(c);
    W128(Lane(a.u0, x.u0, b.u0, MSK1, y.u0, d.u0), Lane(a.u1, x.u1, b.u1, MSK2, y.u1, d.u1),
         Lane(a.u2, x.u2, b.u2, MSK3, y.u2, d.u2), Lane(a.u3, x.u3, b.u3, MSK4, y.u3, d.u3))
  }

  /** The sequence that starts with the N words of s and goes on by the recurrence. */
  function X(s: seq<W128>, k: nat): W128
    requires |s| == N
    decreases k
  {
    if k < N then s[k] else Rec(X(s, k - N), X(s, k - N + POS1), X(s, k - 2), X(s, k - 1))
  }

  /** N consecutive words of the sequence. */
  function From(s: seq<W128>, m: nat): (r: seq<W128>)
    requires |s| == N
    ensures |r| == N && forall j :: 0 <= j < N ==> r[j] == X(s, m + j)
  {
    seq<W128>(N, j requires 0 <= j < N => X(s, m + j))
  }

  /** Started from any N consecutive words, the sequence goes on as before. */
  lemma {:induction false} GoesOn(s: seq<W128>, m: nat, k: nat)
    requires |s| == N
    ensures X(From(s, m), k) == X(s, m + k)
    decreases k
  {
    hide Rec;
    if k >= N {
      GoesOn(s, m, k - N);
      GoesOn(s, m, k - N + POS1);
      GoesOn(s, m, k - 2);
      GoesOn(s, m, k - 1);
    }
  }
}
