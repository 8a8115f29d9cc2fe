/** Canonical Huffman codes: assignment by the compressor and table-driven decoding. */
module CanonicalHuffman {
  import opened Powers
  import opened Bits

  const MAX_ALPHA_SIZE := 258
  const MAX_CODE_LEN := 23
  const LONGEST_CODE := 20

  ghost predicate Lengths(len: seq<int>) {
    |len| <= MAX_ALPHA_SIZE && forall i :: 0 <= i < |len| ==> 1 <= len[i] <= LONGEST_CODE
  }

  /** How many of the first m symbols have codes of n bits. */
  function OfLength(len: seq<int>, n: int, m: nat): (r: nat)
    requires m <= |len|
    ensures r <= m
  {
    if m == 0 then 0 else OfLength(len, n, m - 1) + if len[m - 1] == n then 1 else 0
  }

  /** How many of the first m symbols have codes shorter than n bits. */
  function Shorter(len: seq<int>, n: int, m: nat): (r: nat)
    requires m <= |len|
    ensures r <= m
  {
    if m == 0 then 0 else Shorter(len, n, m - 1) + if len[m - 1] < n then 1 else 0
  }

  /** The first code of n bits, and the number of n-bit codes below it or in use. */
  function First(len: seq<int>, n: nat): nat
    decreases n, 0
  {
    if n == 0 then 0 else 2 * Used(len, n - 1)
  }

  function Used(len: seq<int>, n: nat): nat
    decreases n, 1
  {
    First(len, n) + OfLength(len, n, |len|)
  }

  /** The canonical code of symbol i: codes of one length are consecutive, in symbol order. */
  function Code(len: seq<int>, i: nat): nat
    requires Lengths(len) && i < |len|
  {
    First(len, len[i]) + OfLength(len, len[i], i)
  }

  ghost function CodeBits(len: seq<int>, i: nat): seq<bool>
    requires Lengths(len) && i < |len|
  {
    ToBits(Code(len, i), len[i])
  }

  /** The Kraft sum in units of 2^-20. */
  ghost function Kraft(len: seq<int>, m: nat): nat
    requires Lengths(len) && m <= |len|
  {
    if m == 0 then 0 else Kraft(len, m - 1) + Pow2(LONGEST_CODE - len[m - 1])
  }

  ghost predicate Decodable(len: seq<int>) {
    Lengths(len) && Kraft(len, |len|) <= Pow2(LONGEST_CODE)
  }

  lemma {:induction false} OfLengthMonotone(len: seq<int>, n: int, m: nat, m': nat)
    requires m <= m' <= |len|
    ensures OfLength(len, n, m) <= OfLength(len, n, m')
    ensures m < m' && len[m] == n ==> OfLength(len, n, m) < OfLength(len, n, m')
  {
    if m < m' { OfLengthMonotone(len, n, m, m' - 1); }
  }

  lemma {:induction false} ShorterStep(len: seq<int>, n: int, m: nat)
    requires m <= |len|
    ensures Shorter(len, n + 1, m) == Shorter(len, n, m) + OfLength(len, n, m)
  {
    if m > 0 { ShorterStep(len, n, m - 1); }
  }

  /** Longer codes lie beyond all shorter codes, scaled to the same length. */
  lemma {:induction false} LevelsApart(len: seq<int>, n: nat, m: nat)
    requires n < m
    ensures Used(len, n) * Pow2(m - n) <= First(len, m)
    decreases m
  {
    if m == n + 1 {
      assert Pow2(1) == 2;
    } else {
      LevelsApart(len, n, m - 1);
      DoubleProduct(Used(len, n), Pow2(m - 1 - n));
    }
  }

  /** The part of the Kraft sum that comes from codes of at most n bits. */
  ghost function KraftUpTo(len: seq<int>, n: int, m: nat): nat
    requires Lengths(len) && m <= |len|
  {
    if m == 0 then 0 else KraftUpTo(len, n, m - 1) + if len[m - 1] <= n then Pow2(LONGEST_CODE - len[m - 1]) else 0
  }

  lemma {:induction false} KraftUpToStep(len: seq<int>, n: nat, m: nat)
    requires Lengths(len) && m <= |len| && n < LONGEST_CODE
    ensures KraftUpTo(len, n + 1, m) == KraftUpTo(len, n, m) + OfLength(len, n + 1, m) * Pow2(LONGEST_CODE - (n + 1))
    ensures KraftUpTo(len, 0, m) == 0
    ensures KraftUpTo(len, n, m) <= Kraft(len, m)
    ensures KraftUpTo(len, LONGEST_CODE, m) == Kraft(len, m)
  {
    if m > 0 {
      KraftUpToStep(len, n, m - 1);
      if len[m - 1] == n + 1 {
        assert (OfLength(len, n + 1, m - 1) + 1) * Pow2(LONGEST_CODE - (n + 1)) == OfLength(len, n + 1, m - 1) * Pow2(LONGEST_CODE - (n + 1)) + Pow2(LONGEST_CODE - (n + 1));
      }
    }
  }

  /** Used(n) codes of n bits weigh as much as all codes of at most n bits. */
  lemma {:induction false} UsedIsKraft(len: seq<int>, n: nat)
    requires Lengths(len) && n <= LONGEST_CODE
    ensures Used(len, n) * Pow2(LONGEST_CODE - n) == KraftUpTo(len, n, |len|)
  {
    hide KraftUpTo, OfLength, Pow2;
    if n == 0 {
      NoneOfLength(len, 0, |len|);
      KraftUpToStep(len, 0, |len|);
    } else {
      UsedIsKraft(len, n - 1);
      KraftUpToStep(len, n - 1, |len|);
      SplitLevel(Used(len, n - 1), OfLength(len, n, |len|), Pow2(LONGEST_CODE - n));
      Pow2Step(LONGEST_CODE - n);
    }
  }

  lemma Pow2Step(k: nat)
    ensures Pow2(k + 1) == 2 * Pow2(k)
  {
  }

  lemma SplitLevel(u: nat, c: nat, p: nat)
    ensures (2 * u + c) * p == u * (2 * p) + c * p
  {
  }

  lemma {:induction false} NoneOfLength(len: seq<int>, n: int, m: nat)
    requires Lengths(len) && m <= |len| && (n < 1 || n > LONGEST_CODE)
    ensures OfLength(len, n, m) == 0
  {
    if m > 0 { NoneOfLength(len, n, m - 1); }
  }

  lemma DivideBound(u: nat, a: nat, d: nat)
    requires u * d <= a * d && d > 0
    ensures u <= a
  {
    if u > a { MulMonotone(a + 1, u, d); }
  }

  lemma KraftUpToAll(len: seq<int>, n: nat)
    requires Lengths(len) && n <= LONGEST_CODE
    ensures KraftUpTo(len, n, |len|) <= Kraft(len, |len|)
  {
    hide KraftUpTo, Kraft, Pow2, OfLength;
    KraftUpToStep(len, if n == LONGEST_CODE then 0 else n, |len|);
  }

  /** With a Kraft sum of at most one, every level has room. */
  lemma UsedFits(len: seq<int>, n: nat)
    requires Decodable(len) && n <= LONGEST_CODE
    ensures Used(len, n) <= Pow2(n)
  {
    hide KraftUpTo, Kraft, Pow2, OfLength, Used;
    UsedIsKraft(len, n);
    KraftUpToAll(len, n);
    Pow2Sum(n, LONGEST_CODE - n);
    DivideBound(Used(len, n), Pow2(n), Pow2(LONGEST_CODE - n));
  }

  lemma CodeFits(len: seq<int>, i: nat)
    requires Decodable(len) && i < |len|
    ensures Code(len, i) < Used(len, len[i]) <= Pow2(len[i])
  {
    hide Kraft, Pow2, First;
    UsedFits(len, len[i]);
    OfLengthMonotone(len, len[i], i, |len|);
  }

  lemma QuotientBound(c: nat, u: nat, d: nat)
    requires d > 0 && u * d <= c
    ensures c / d >= u
  {
    var q, r := c / d, c % d;
    assert c == q * d + r;
    if q < u { MulMonotone(q + 1, u, d); }
  }

  /** Reading the code of a longer symbol, its first n bits are beyond every n-bit code. */
  lemma LongerCodeBeyond(len: seq<int>, i: nat, n: nat)
    requires Lengths(len) && i < |len| && n < len[i]
    ensures Code(len, i) / Pow2(len[i] - n) >= Used(len, n)
  {
    hide Pow2, Used, First, OfLength;
    LevelsApart(len, n, len[i]);
    QuotientBound(Code(len, i), Used(len, n), Pow2(len[i] - n));
  }

  /** No code is a prefix of another. */
  lemma PrefixFree(len: seq<int>, i: nat, j: nat)
    requires Decodable(len) && i < |len| && j < |len| && CodeBits(len, i) <= CodeBits(len, j)
    ensures i == j
  {
    hide Pow2, Used, First, Kraft, Value, ToBits, OfLength;
    var n, m := len[i], len[j];
    CodeFits(len, i); CodeFits(len, j);
    ValueOfToBits(Code(len, i), n);
    ValueOfPrefix(Code(len, j), m, n);
    assert CodeBits(len, j)[..n] == CodeBits(len, i);
    if n < m {
      LongerCodeBeyond(len, j, n);
    } else {
      assert CodeBits(len, j)[..n] == CodeBits(len, j);
      ValueOfToBits(Code(len, j), n);
      SameCode(len, i, j);
    }
  }

  lemma SameCode(len: seq<int>, i: nat, j: nat)
    requires Lengths(len) && i < |len| && j < |len| && len[i] == len[j] && Code(len, i) == Code(len, j)
    ensures i == j
  {
    hide OfLength, First;
    if i < j { OfLengthMonotone(len, len[i], i, j); } else if j < i { OfLengthMonotone(len, len[i], j, i); }
  }

  /** The first m bits of an n-bit number. */
  lemma ValueOfPrefix(v: nat, n: nat, m: nat)
    requires v < Pow2(n) && m <= n
    ensures Value(ToBits(v, n)[..m]) == v / Pow2(n - m)
  {
    hide Pow2, Value, ToBits;
    var s := ToBits(v, n);
    ValueOfToBits(v, n);
    var a, t := s[..m], s[m..];
    assert s == a + t;
    ValueConcat(a, t);
    ModOfMultiple(Value(a), Value(t), Pow2(n - m));
  }
}
