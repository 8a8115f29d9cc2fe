/** Bit strings, highest bit first, and the numbers they stand for. */
module Bits {
  import opened Sequences
  import opened Words
  import opened Powers

  function Value(s: seq<bool>): (v: nat)
    ensures v < Pow2(|s|)
  {
    if s == [] then 0 else 2 * Value(s[..|s| - 1]) + if s[|s| - 1] then 1 else 0
  }

  function ToBits(v: nat, n: nat): (s: seq<bool>)
    ensures |s| == n
    decreases n
  {
    if n == 0 then [] else ToBits(v / 2, n - 1) + [v % 2 == 1]
  }

  lemma {:induction false} ValueOfToBits(v: nat, n: nat)
    requires v < Pow2(n)
    ensures Value(ToBits(v, n)) == v
    decreases n
  {
    if n > 0 {
      ValueOfToBits(v / 2, n - 1);
      assert ToBits(v, n)[..n - 1] == ToBits(v / 2, n - 1);
    }
  }

  lemma {:induction false} ToBitsOfValue(s: seq<bool>)
    ensures ToBits(Value(s), |s|) == s
  {
    if s != [] {
      var init := s[..|s| - 1];
      ToBitsOfValue(init);
      assert s == init + [s[|s| - 1]];
    }
  }

  lemma {:induction false} Pow2Sum(a: nat, b: nat)
    ensures Pow2(a + b) == Pow2(a) * Pow2(b)
  {
    if b > 0 {
      Pow2Sum(a, b - 1);
      assert Pow2(a) * (2 * Pow2(b - 1)) == 2 * (Pow2(a) * Pow2(b - 1));
    }
  }

  lemma ValueAppend(s: seq<bool>, b: bool)
    ensures Value(s + [b]) == 2 * Value(s) + if b then 1 else 0
  {
    assert (s + [b])[..|s|] == s;
  }

  lemma {:induction false} ValueConcat(s: seq<bool>, t: seq<bool>)
    ensures Value(s + t) == Value(s) * Pow2(|t|) + Value(t)
  {
    hide Value, Pow2;
    if t == [] {
      NothingValue(t);
      assert s + t == s;
    } else {
      var init, b := t[..|t| - 1], t[|t| - 1];
      ValueConcat(s, init);
      assert t == init + [b] && s + t == (s + init) + [b];
      ValueAppend(s + init, b);
      ValueAppend(init, b);
      Pow2Sum(|init|, 1);
      NothingValue([]);
      DoubleProduct(Value(s), Pow2(|init|));
    }
  }

  lemma NothingValue(t: seq<bool>)
    requires t == []
    ensures Value(t) == 0 && Pow2(0) == 1 && Pow2(1) == 2
  {
  }

  lemma DoubleProduct(a: nat, p: nat)
    ensures a * (2 * p) == 2 * (a * p)
  {
  }

  /** The bits of a byte string. */
  function BytesToBits(bytes: seq<byte>): (s: seq<bool>)
    ensures |s| == 8 * |bytes|
  {
    if bytes == [] then [] else BytesToBits(bytes[..|bytes| - 1]) + ToBits(bytes[|bytes| - 1], 8)
  }

  lemma BytesToBitsAppend(s: seq<byte>, c: byte)
    ensures BytesToBits(s + [c]) == BytesToBits(s) + ToBits(c, 8)
  {
    assert (s + [c])[..|s|] == s;
  }

  lemma {:induction false} BytesToBitsConcat(s: seq<byte>, t: seq<byte>)
    ensures BytesToBits(s + t) == BytesToBits(s) + BytesToBits(t)
  {
    hide BytesToBits, ToBits;
    if t == [] {
      NoBytes(t);
      assert s + t == s;
    } else {
      var init, c := t[..|t| - 1], t[|t| - 1];
      BytesToBitsConcat(s, init);
      assert t == init + [c] && s + t == (s + init) + [c];
      BytesToBitsAppend(s + init, c);
      BytesToBitsAppend(init, c);
      Associate(BytesToBits(s), BytesToBits(init), ToBits(c, 8));
    }
  }

  lemma NoBytes(t: seq<byte>)
    requires t == []
    ensures BytesToBits(t) == []
  {
  }

  lemma BytesToBitsFirst(c: byte, s: seq<byte>)
    ensures BytesToBits([c] + s) == ToBits(c, 8) + BytesToBits(s)
  {
    BytesToBitsConcat([c], s);
    assert [c][..0] == [];
    assert BytesToBits([c]) == [] + ToBits(c, 8);
  }

  // ---------- Words that hold bits ----------

  /** w holds the bits of s in its upper end, followed by zeros. */
  ghost predicate HoldsTop(w: nat, s: seq<bool>) {
    |s| <= 32 && w == Value(s) * Pow2(32 - |s|)
  }

  /** w holds the bits of s in its lower end; what is above them does not matter. */
  ghost predicate HoldsLow(w: nat, s: seq<bool>) {
    w % Pow2(|s|) == Value(s)
  }

  lemma ScaledBelow(v: nat, a: nat, d: nat)
    requires v < a && d > 0
    ensures v * d < a * d
  {
    MulMonotone(v + 1, a, d);
  }

  /** Adding n bits below those held; the sum is a bitwise or, since the places are still zero. */
  lemma HoldsTopAppend(w: nat, s: seq<bool>, v: nat, n: nat)
    requires HoldsTop(w, s) && |s| + n <= 32 && v < Pow2(n)
    ensures HoldsTop(w + v * Pow2(32 - |s| - n), s + ToBits(v, n))
    ensures w % Pow2(32 - |s|) == 0 && v * Pow2(32 - |s| - n) < Pow2(32 - |s|)
  {
    hide Pow2, Value, ToBits;
    var m := 32 - |s| - n;
    ValueOfToBits(v, n);
    ValueConcat(s, ToBits(v, n));
    Pow2Sum(n, m);
    Regroup(Value(s), Pow2(n), v, Pow2(m));
    ModOfMultiple(Value(s), 0, Pow2(32 - |s|));
    ScaledBelow(v, Pow2(n), Pow2(m));
  }

  /** The places below the held bits are zero. */
  lemma ZerosBelow(w: nat, s: seq<bool>, n: nat)
    requires HoldsTop(w, s) && |s| + n <= 32
    ensures HoldsTop(w, s + ToBits(0, n))
  {
    hide HoldsTop, ToBits;
    HoldsTopAppend(w, s, 0, n);
    NoProduct(Pow2(32 - |s| - n));
  }

  lemma NoProduct(d: nat)
    ensures 0 * d == 0
  {
  }

  lemma Regroup(a: nat, p: nat, v: nat, d: nat)
    ensures (a * p + v) * d == a * (p * d) + v * d
  {
  }

  lemma ModOfMultiple(q: nat, r: nat, d: nat)
    requires r < d
    ensures (q * d + r) % d == r && (q * d + r) / d == q
  {
    var a := q * d + r;
    var q', r' := a / d, a % d;
    assert a == q' * d + r' && (q - q') * d == r' - r;
    if q' < q { MulMonotone(1, q - q', d); } else if q' > q { MulMonotone(1, q' - q, d); }
  }

  /** The top byte of a word that holds at least eight bits, and what is left after shifting it out. */
  lemma HoldsTopByte(w: nat, s: seq<bool>)
    requires HoldsTop(w, s) && |s| >= 8
    ensures w / 0x100_0000 == Value(s[..8]) < 256
    ensures HoldsTop(w * 256 % 0x1_0000_0000, s[8..])
  {
    hide Pow2, Value;
    var a, t, m := s[..8], s[8..], 32 - |s|;
    assert s == a + t;
    ValueConcat(a, t);
    Pow2Sum(|t|, m);
    Pow2Of24();
    TopParts(Value(a), Pow2(|t|), Value(t), Pow2(m));
    TopByteOf(Value(a), Value(t) * Pow2(m));
    Pow2Sum(m, 8);
    ScaleTwice(Value(t), Pow2(m));
  }

  lemma TopParts(v: nat, d: nat, u: nat, p: nat)
    requires d * p == 0x100_0000 && u < d && p > 0
    ensures (v * d + u) * p == v * 0x100_0000 + u * p && u * p < 0x100_0000
  {
    Regroup(v, d, u, p);
    ScaledBelow(u, d, p);
  }

  lemma TopByteOf(v: nat, low: nat)
    requires v < 256 && low < 0x100_0000
    ensures var w := v * 0x100_0000 + low; w / 0x100_0000 == v && w * 256 % 0x1_0000_0000 == low * 256
  {
  }

  lemma ScaleTwice(v: nat, p: nat)
    ensures (v * p) * 256 == v * (p * 256)
  {
  }

  lemma Pow2Of24()
    ensures Pow2(24) == 0x100_0000 && Pow2(8) == 256
  {
    Pow2Of17();
    assert Pow2(19) == 524288;
    assert Pow2(21) == 2097152;
    assert Pow2(23) == 8388608;
    assert Pow2(2) == 4;
    assert Pow2(4) == 16;
    assert Pow2(6) == 64;
  }

  /** Shifting a byte in below the held bits. */
  lemma HoldsLowAppend(w: nat, s: seq<bool>, c: byte)
    requires HoldsLow(w, s) && |s| + 8 <= 32
    ensures HoldsLow((w * 256 + c) % 0x1_0000_0000, s + ToBits(c, 8))
  {
    hide Pow2, Value, ToBits;
    var n := |s|;
    Pow2Of32(); Pow2Of24();
    Pow2Sum(n, 8);
    Pow2Sum(24 - n, n + 8);
    ValueOfToBits(c, 8);
    ValueConcat(s, ToBits(c, 8));
    ShiftedMod(w, Pow2(n), c);
    ModOfMod(w * 256 + c, Pow2(24 - n), Pow2(n + 8));
  }

  lemma ShiftedMod(w: nat, p: nat, c: byte)
    requires p > 0
    ensures (w * 256 + c) % (p * 256) == w % p * 256 + c
  {
    var q, r := w / p, w % p;
    assert w == q * p + r;
    ScaleTwice(q, p);
    ModOfMultiple(q, r * 256 + c, p * 256);
  }

  lemma ModOfMod(x: nat, k: nat, d: nat)
    requires k > 0 && d > 0
    ensures k * d > 0 && (x % (k * d)) % d == x % d
  {
    var m := k * d;
    MulMonotone(1, k, d);
    var q, r := x / m, x % m;
    var q', r' := r / d, r % d;
    DivMod(x, m);
    DivMod(r, d);
    TwoQuotients(q, k, d, q');
    ModOfMultiple(q * k + q', r', d);
  }

  lemma DivMod(x: nat, d: nat)
    requires d > 0
    ensures x == x / d * d + x % d && x % d < d
  {
  }

  lemma TwoQuotients(q: nat, k: nat, d: nat, q': nat)
    ensures q * (k * d) + q' * d == (q * k + q') * d
  {
  }

  /** Reading the first n of the held bits leaves the others held. */
  lemma HoldsLowTake(w: nat, s: seq<bool>, n: nat)
    requires HoldsLow(w, s) && n <= |s|
    ensures w / Pow2(|s| - n) % Pow2(n) == Value(s[..n])
    ensures HoldsLow(w, s[n..])
  {
    hide Pow2, Value;
    var a, t := s[..n], s[n..];
    assert s == a + t;
    ValueConcat(a, t);
    Pow2Sum(n, |t|);
    SplitLow(w, Pow2(n), Pow2(|t|), Value(a), Value(t));
  }

  lemma SplitLow(w: nat, p: nat, d: nat, a: nat, t: nat)
    requires a < p && t < d && p * d > 0 && w % (p * d) == a * d + t
    ensures w / d % p == a && w % d == t
  {
    var q := w / (p * d);
    DivMod(w, p * d);
    TwoQuotients(q, p, d, a);
    ModOfMultiple(q * p + a, t, d);
    ModOfMultiple(q, a, p);
  }
}
