/** The bits of a compressed block, as section 3.2 of RFC 1951 has them. */
module DeflateFormat {
  import opened Powers
  import opened Bits
  import opened Lz77
  import CanonicalHuffman

  // ---------- Bits in the order of the stream ----------

  /** The number whose lowest bits are these, the first lowest, and whose others are x. */
  function Joined(s: seq<bool>, x: nat): nat {
    if s == [] then x else (if s[0] then 1 else 0) + 2 * Joined(s[1..], x)
  }

  /** A number in n bits, the lowest first, as everything but a code is written. */
  function LowestFirst(v: nat, n: nat): (s: seq<bool>)
    ensures |s| == n
    decreases n
  {
    if n == 0 then [] else [v % 2 == 1] + LowestFirst(v / 2, n - 1)
  }

  lemma {:induction false} JoinedConcat(s: seq<bool>, t: seq<bool>, x: nat)
    ensures Joined(s + t, x) == Joined(s, Joined(t, x))
    decreases s
  {
    if s == [] {
      assert s + t == t;
    } else {
      JoinedConcat(s[1..], t, x);
      assert (s + t)[1..] == s[1..] + t;
    }
  }

  lemma {:induction false} JoinedSplit(s: seq<bool>, x: nat)
    ensures Joined(s, 0) < Pow2(|s|) && Joined(s, x) == Joined(s, 0) + Pow2(|s|) * x
    decreases s
  {
    if s != [] {
      JoinedSplit(s[1..], x);
      TwoPowers(Pow2(|s| - 1), x);
    }
  }

  lemma TwoPowers(p: nat, x: nat)
    ensures 2 * (p * x) == (2 * p) * x
  {
  }

  lemma {:induction false} JoinedLowest(v: nat, n: nat)
    requires v < Pow2(n)
    ensures Joined(LowestFirst(v, n), 0) == v
    decreases n
  {
    if n > 0 {
      JoinedLowest(v / 2, n - 1);
      assert LowestFirst(v, n)[1..] == LowestFirst(v / 2, n - 1);
    }
  }

  // ---------- Codes (section 3.2.2) ----------

  /** Code lengths by symbol; a symbol of length 0 does not occur. */
  ghost predicate CodeLengths(lens: seq<nat>) {
    forall s :: 0 <= s < |lens| ==> lens[s] <= 15
  }

  /** The first code of n bits. */
  function First(lens: seq<nat>, n: nat): nat {
    if n <= 1 then 0 else 2 * (First(lens, n - 1) + CanonicalHuffman.OfLength(lens, n - 1, |lens|))
  }

  /** The bits of the code of symbol s, the highest first. */
  function CodeBits(lens: seq<nat>, s: nat): (r: seq<bool>)
    requires s < |lens|
    ensures |r| == lens[s]
  {
    ToBits(First(lens, lens[s]) + CanonicalHuffman.OfLength(lens, lens[s], s), lens[s])
  }

  // ---------- Lengths and distances (section 3.2.5) ----------

  /** The extra bits and the least length of symbol 257 + i. */
  function LengthExtra(i: nat): nat { if i < 8 || i == 28 then 0 else i / 4 - 1 }

  function LengthBase(i: nat): nat {
    if i < 8 then 3 + i else if i == 28 then 258 else 3 + (4 + i % 4) * Pow2(LengthExtra(i))
  }

  /** The extra bits and the least distance of distance symbol j. */
  function DistanceExtra(j: nat): nat { if j < 4 then 0 else j / 2 - 1 }

  function DistanceBase(j: nat): nat {
    if j < 4 then 1 + j else 1 + (2 + j % 2) * Pow2(DistanceExtra(j))
  }

  /** The last of the first n + 1 symbols whose lengths begin at or before this one. */
  function LengthIndex(length: nat, n: nat): (i: nat)
    ensures i <= n
  {
    if n == 0 || LengthBase(n) <= length then n else LengthIndex(length, n - 1)
  }

  function DistanceIndex(distance: nat, n: nat): (j: nat)
    ensures j <= n
  {
    if n == 0 || DistanceBase(n) <= distance then n else DistanceIndex(distance, n - 1)
  }

  /** A match that the format can express. */
  predicate InRange(length: nat, distance: nat) {
    3 <= length <= 258 && 1 <= distance <= 32768
  }

  // ---------- Tokens ----------

  /** The symbols of the token have codes. */
  predicate HasCode(lens: seq<nat>, dists: seq<nat>, token: Token) {
    match token
    case Literal(c) => c < |lens| && lens[c] > 0
    case Match(length, distance) =>
      var i, j := LengthIndex(length, 28), DistanceIndex(distance, 29);
      InRange(length, distance) && 257 + i < |lens| && lens[257 + i] > 0 && j < |dists| && dists[j] > 0
  }

  /** The bits of a token: the code of a literal, or length and distance with their extra bits. */
  function TokenBits(lens: seq<nat>, dists: seq<nat>, token: Token): seq<bool>
    requires HasCode(lens, dists, token)
  {
    match token
    case Literal(c) => CodeBits(lens, c)
    case Match(length, distance) =>
      IndexInRange(length, distance);
      var i, j := LengthIndex(length, 28), DistanceIndex(distance, 29);
      CodeBits(lens, 257 + i) + LowestFirst(length - LengthBase(i), LengthExtra(i))
      + CodeBits(dists, j) + LowestFirst(distance - DistanceBase(j), DistanceExtra(j))
  }

  /** The bits of a block from its first token to its end. */
  function BlockBits(lens: seq<nat>, dists: seq<nat>, tokens: seq<Token>): seq<bool>
    requires |lens| > 256 && forall i :: 0 <= i < |tokens| ==> HasCode(lens, dists, tokens[i])
    decreases |tokens|
  {
    if tokens == [] then CodeBits(lens, 256) else TokenBits(lens, dists, tokens[0]) + BlockBits(lens, dists, tokens[1..])
  }

  // ---------- The symbols cover the ranges ----------

  lemma IndexInRange(length: nat, distance: nat)
    requires InRange(length, distance)
    ensures var i := LengthIndex(length, 28); LengthBase(i) <= length && length - LengthBase(i) < Pow2(LengthExtra(i))
    ensures var j := DistanceIndex(distance, 29); DistanceBase(j) <= distance && distance - DistanceBase(j) < Pow2(DistanceExtra(j))
  {
    LengthCovered(length, 28);
    DistanceCovered(distance, 29);
  }

  /** Where symbol i ends, the next begins; only the last length has a symbol of its own as well. */
  lemma LengthsMeet(i: nat)
    requires i < 28
    ensures LengthBase(i + 1) == LengthBase(i) + Pow2(LengthExtra(i)) - if i == 27 then 1 else 0
  {
    hide Pow2;
    SmallPowers();
    if i >= 8 && i < 27 && i % 4 == 3 { LengthStep(i / 4 - 1); }
  }

  lemma LengthStep(e: nat)
    ensures Pow2(e + 1) == 2 * Pow2(e)
  {
  }

  lemma SmallPowers()
    ensures Pow2(0) == 1 && Pow2(1) == 2 && Pow2(2) == 4 && Pow2(3) == 8 && Pow2(4) == 16 && Pow2(5) == 32
  {
  }

  lemma DistancesMeet(j: nat)
    ensures DistanceBase(j + 1) == DistanceBase(j) + Pow2(DistanceExtra(j))
  {
    hide Pow2;
    SmallPowers();
    if j >= 4 && j % 2 == 1 { LengthStep(j / 2 - 1); }
  }

  lemma {:induction false} LengthCovered(length: nat, n: nat)
    requires 3 <= length && n <= 28 && (if n == 28 then length <= 258 else length < LengthBase(n) + Pow2(LengthExtra(n)))
    ensures var i := LengthIndex(length, n); LengthBase(i) <= length && length - LengthBase(i) < Pow2(LengthExtra(i))
  {
    hide Pow2, LengthBase, LengthExtra;
    LastLength();
    if n > 0 && length < LengthBase(n) {
      LengthsMeet(n - 1);
      LengthCovered(length, n - 1);
    }
  }

  lemma LastLength()
    ensures LengthBase(28) == 258 && LengthBase(0) == 3 && LengthExtra(28) == 0 && Pow2(0) == 1
  {
  }

  lemma {:induction false} DistanceCovered(distance: nat, n: nat)
    requires 1 <= distance && n <= 29 && (n < 29 ==> distance < DistanceBase(n + 1)) && distance <= 32768
    ensures var j := DistanceIndex(distance, n); DistanceBase(j) <= distance && distance - DistanceBase(j) < Pow2(DistanceExtra(j))
  {
    hide Pow2, DistanceBase, DistanceExtra;
    EndsOfDistances();
    if n > 0 && distance < DistanceBase(n) {
      DistanceCovered(distance, n - 1);
    } else {
      DistancesMeet(n);
    }
  }

  lemma EndsOfDistances()
    ensures DistanceBase(0) == 1 && DistanceBase(30) == 32769
  {
    Pow2Of17();
    assert Pow2(14) == 16384;
  }
}
