/** The SFMT recurrence bit by bit, over all 128 bits of its words. */
module SfmtBits {
  import opened WordBits
  import opened SfmtRecurrence

  /** Bit i of the four lanes as one number. */
  predicate BitAt(w: W128, i: nat) {
    i < 128 && BitOf(Pick(w, i / 32), i % 32)
  }

  lemma BitOfLane(w: W128, k: nat, n: nat)
    requires k < 4 && n < 32
    ensures BitAt(w, 32 * k + n) == BitOf(Pick(w, k), n)
  {
    hide BitOf, Pick;
    assert (32 * k + n) / 32 == k && (32 * k + n) % 32 == n;
  }

  /** The mask of the parameters for the period 2^19937 - 1, lowest lane first. */
  function Mask(): W128 { W128(0xdfff_ffef, 0xddfe_cb7f, 0xbffa_ffff, 0xbfff_fff6) }

  /**
   * Bit i of the word after d, where a is 156 words before it, b 34 and c two: the bits of a here
   * and a byte below, of b eleven places above in the same lane if the mask lets it through, of c a
   * byte above, and of d eighteen places below in the same lane, added up.
   */
  predicate NextBit(a: W128, b: W128, c: W128, d: W128, i: nat) {
    var fromA := BitAt(a, i) != (i >= 8 && BitAt(a, i - 8));
    var fromB := i % 32 < 21 && BitAt(b, i + 11) && BitAt(Mask(), i);
    var fromC := BitAt(c, i + 8);
    var fromD := i % 32 >= 18 && BitAt(d, i - 18);
    ((fromA != fromB) != fromC) != fromD
  }

  lemma LaneBit(a: bv32, x: bv32, b: bv32, mask: bv32, y: bv32, d: bv32, r: nat)
    requires r < 32
    ensures BitOf(Lane(a, x, b, mask, y, d), r) ==
            ((((BitOf(a, r) != BitOf(x, r)) != (r < 21 && BitOf(b, r + 11) && BitOf(mask, r))) != BitOf(y, r)) != (r >= 18 && BitOf(d, r - 18)))
  {
    hide BitOf, Xor, And, Or, Half, Low, Right11, Left18, Up, Down;
    var m, u := And(Down(b, 11), mask), Up(d, 18);
    ShiftsOfLane(b, d);
    BitLaws(a, x, r);
    BitLaws(Down(b, 11), mask, r);
    BitLaws(Xor(a, x), m, r);
    BitLaws(Xor(Xor(a, x), m), y, r);
    BitLaws(Xor(Xor(Xor(a, x), m), y), u, r);
    DownBit(b, 11, r);
    UpBit(d, 18, r);
    if r >= 21 { NoHighBits(b, r + 11); }
  }

  lemma ShiftsOfLane(b: bv32, d: bv32)
    ensures Right11(b) == Down(b, 11) && Left18(d) == Up(d, 18)
  {
    hide Down, Up;
    DownOfEleven(b);
    UpOfEighteen(d);
  }

  // ---------- The shifts by a byte, lane by lane ----------

  function Up8(x: bv32): bv32 { x << 8 }

  function Down8(x: bv32): bv32 { x >> 8 }

  /** A lane above another, shifted up. */
  function UpLane(h: bv32, l: bv32): bv32 { (h << 8) | (l >> 24) }

  /** A lane below another, shifted down. */
  function DownLane(h: bv32, l: bv32): bv32 { (l >> 8) | (h << 24) }

  lemma LowLanesUp(h: bv32, l: bv32)
    ensures Lower(LowUp(Both(h, l))) == Up8(l) && Upper(LowUp(Both(h, l))) == UpLane(h, l)
  {
  }

  lemma HighLaneUp(h: bv32, l: bv32, h0: bv32, l0: bv32)
    ensures Lower(HighUp(Both(h, l), Both(h0, l0))) == UpLane(l, h0)
  {
  }

  lemma TopLaneUp(h: bv32, l: bv32, low: bv64)
    ensures Upper(HighUp(Both(h, l), low)) == UpLane(h, l)
  {
  }

  lemma LanesUp(w: W128)
    ensures LeftShift(w) == W128(Up8(w.u0), UpLane(w.u1, w.u0), UpLane(w.u2, w.u1), UpLane(w.u3, w.u2))
  {
    hide HighUp, LowUp, Both, Lower, Upper, Up8, UpLane;
    LowLanesUp(w.u1, w.u0);
    HighLaneUp(w.u3, w.u2, w.u1, w.u0);
    TopLaneUp(w.u3, w.u2, Both(w.u1, w.u0));
  }

  lemma HighLanesDown(h: bv32, l: bv32)
    ensures Lower(HighDown(Both(h, l))) == DownLane(h, l) && Upper(HighDown(Both(h, l))) == Down8(h)
  {
  }

  lemma BottomLaneDown(high: bv64, h: bv32, l: bv32)
    ensures Lower(LowDown(high, Both(h, l))) == DownLane(h, l)
  {
  }

  lemma LowLaneDown(h0: bv32, l0: bv32, h: bv32, l: bv32)
    ensures Upper(LowDown(Both(h0, l0), Both(h, l))) == DownLane(l0, h)
  {
  }

  lemma LanesDown(w: W128)
    ensures RightShift(w) == W128(DownLane(w.u1, w.u0), DownLane(w.u2, w.u1), DownLane(w.u3, w.u2), Down8(w.u3))
  {
    hide HighDown, LowDown, Both, Lower, Upper, Down8, DownLane;
    HighLanesDown(w.u3, w.u2);
    BottomLaneDown(Both(w.u3, w.u2), w.u1, w.u0);
    LowLaneDown(w.u3, w.u2, w.u1, w.u0);
  }

  lemma LaneForms(h: bv32, l: bv32)
    ensures UpLane(h, l) == Or(Up(h, 8), Down(l, 24)) && DownLane(h, l) == Or(Down(l, 8), Up(h, 24))
    ensures Up8(l) == Up(l, 8) && Down8(h) == Down(h, 8)
  {
    hide Up, Down;
    UpOfEight(h); UpOfEight(l); UpOfTwentyFour(h);
    DownOfEight(h); DownOfEight(l); DownOfTwentyFour(l);
  }

  lemma LaneBits(h: bv32, l: bv32, r: nat)
    requires r < 32
    ensures BitOf(UpLane(h, l), r) == if r >= 8 then BitOf(h, r - 8) else BitOf(l, r + 24)
    ensures BitOf(DownLane(h, l), r) == if r < 24 then BitOf(l, r + 8) else BitOf(h, r - 24)
    ensures BitOf(Up8(l), r) == (r >= 8 && BitOf(l, r - 8)) && BitOf(Down8(h), r) == (r < 24 && BitOf(h, r + 8))
  {
    hide BitOf, Or, Up, Down, UpLane, DownLane, Up8, Down8;
    LaneForms(h, l);
    BitLaws(Up(h, 8), Down(l, 24), r);
    BitLaws(Down(l, 8), Up(h, 24), r);
    UpBit(h, 8, r); UpBit(l, 8, r); UpBit(h, 24, r);
    DownBit(l, 24, r); DownBit(l, 8, r); DownBit(h, 8, r);
    if r >= 8 { NoHighBits(l, r + 24); }
    if r >= 24 { NoHighBits(l, r + 8); NoHighBits(h, r + 8); }
  }

  lemma LaneUp(w: W128, k: nat)
    requires k < 4
    ensures Pick(LeftShift(w), k) == if k == 0 then Up8(Pick(w, 0)) else UpLane(Pick(w, k), Pick(w, k - 1))
  {
    hide UpLane, Up8, LeftShift;
    LanesUp(w);
  }

  lemma LaneDown(w: W128, k: nat)
    requires k < 4
    ensures Pick(RightShift(w), k) == if k == 3 then Down8(Pick(w, 3)) else DownLane(Pick(w, k + 1), Pick(w, k))
  {
    hide DownLane, Down8, RightShift;
    LanesDown(w);
  }

  /** The shift to the left by a byte moves every bit of the 128 up by eight places. */
  lemma LeftShiftBit(w: W128, i: nat)
    requires i < 128
    ensures BitAt(LeftShift(w), i) == (i >= 8 && BitAt(w, i - 8))
  {
    hide BitOf, Pick, UpLane, DownLane, Up8, Down8, LeftShift;
    var k, r := i / 32, i % 32;
    LaneUp(w, k);
    LaneBits(Pick(w, k), if k == 0 then Pick(w, 0) else Pick(w, k - 1), r);
  }

  /** The shift to the right by a byte moves them down. */
  lemma RightShiftBit(w: W128, i: nat)
    requires i < 128
    ensures BitAt(RightShift(w), i) == BitAt(w, i + 8)
  {
    hide BitOf, Pick, UpLane, DownLane, Up8, Down8, RightShift;
    var k, r := i / 32, i % 32;
    LaneDown(w, k);
    LaneBits(if k == 3 then Pick(w, 3) else Pick(w, k + 1), Pick(w, k), r);
  }

  // ---------- The recurrence ----------

  lemma RecLane(a: W128, b: W128, c: W128, d: W128, k: nat)
    requires k < 4
    ensures Pick(Rec(a, b, c, d), k) ==
            Lane(Pick(a, k), Pick(LeftShift(a), k), Pick(b, k), Pick(Mask(), k), Pick(RightShift(c), k), Pick(d, k))
  {
    hide Lane, LeftShift, RightShift;
  }

  lemma SameLane(w: W128, i: nat)
    requires i < 128
    ensures BitAt(w, i) == BitOf(Pick(w, i / 32), i % 32)
    ensures i % 32 < 21 ==> BitAt(w, i + 11) == BitOf(Pick(w, i / 32), i % 32 + 11)
    ensures i % 32 >= 18 ==> BitAt(w, i - 18) == BitOf(Pick(w, i / 32), i % 32 - 18)
  {
    hide BitOf, Pick;
  }

  /** Every bit of the next word. */
  lemma RecBit(a: W128, b: W128, c: W128, d: W128, i: nat)
    requires i < 128
    ensures BitAt(Rec(a, b, c, d), i) == NextBit(a, b, c, d, i)
  {
    hide BitAt, BitOf, Pick, Lane, LeftShift, RightShift, Mask, Rec;
    LeftShiftBit(a, i);
    RightShiftBit(c, i);
    SameLane(LeftShift(a), i);
    SameLane(RightShift(c), i);
    SameLane(a, i);
    SameLane(b, i);
    SameLane(d, i);
    SameLane(Mask(), i);
    SameLane(Rec(a, b, c, d), i);
    var k, r := i / 32, i % 32;
    RecLane(a, b, c, d, k);
    LaneBit(Pick(a, k), Pick(LeftShift(a), k), Pick(b, k), Pick(Mask(), k), Pick(RightShift(c), k), Pick(d, k), r);
  }

  /** w is the word after d, bit by bit. */
  ghost predicate IsNext(w: W128, a: W128, b: W128, c: W128, d: W128) {
    forall i {:trigger BitAt(w, i)} :: 0 <= i < 128 ==> BitAt(w, i) == NextBit(a, b, c, d, i)
  }

  lemma RecIsNext(a: W128, b: W128, c: W128, d: W128)
    ensures IsNext(Rec(a, b, c, d), a, b, c, d)
  {
    hide BitAt, NextBit, Rec;
    forall i {:trigger BitAt(Rec(a, b, c, d), i)} | 0 <= i < 128 ensures BitAt(Rec(a, b, c, d), i) == NextBit(a, b, c, d, i) {
      RecBit(a, b, c, d, i);
    }
  }

  /** Every bit of a sequence that starts with 156 words. */
  lemma SequenceBit(s: seq<W128>, k: nat, i: nat)
    requires |s| == 156 && i < 128
    ensures BitAt(X(s, k), i) == if k < 156 then BitAt(s[k], i) else NextBit(X(s, k - 156), X(s, k - 34), X(s, k - 2), X(s, k - 1), i)
  {
    hide BitAt, NextBit, Rec;
    if k >= 156 { RecBit(X(s, k - 156), X(s, k - 34), X(s, k - 2), X(s, k - 1), i); }
  }
}
