/** Adler-32: sums whose reduction modulo 65521 is put off as long as 32 bits allow. */
module Adler32 {
  import opened Powers
  import opened Words

  const BASE := 65521
  const NMAX: nat := 5552

  // ---------- The definition ----------

  /** The sum of the bytes, started from a. */
  function SumA(a: nat, s: seq<byte>): nat {
    if s == [] then a else SumA(a, s[..|s| - 1]) + s[|s| - 1]
  }

  /** The sum of the byte sums after each byte, started from b. */
  function SumB(a: nat, b: nat, s: seq<byte>): nat {
    if s == [] then b else SumB(a, b, s[..|s| - 1]) + SumA(a, s)
  }

  /** Section 2.2 of RFC 1950: both sums modulo 65521, packed into a word. */
  function Adler(adler: u32, s: seq<byte>): (r: u32)
    ensures Valid(r)
  {
    Pack(Rem(SumA(Low(adler), s)), Rem(SumB(Low(adler), High(adler), s)))
  }

  function Rem(x: int): (r: nat)
    ensures r < BASE
  {
    x % BASE
  }

  function Low(w: u32): u16 { w % 65536 }

  function High(w: u32): u16 { w / 65536 }

  function Pack(low: u16, high: u16): (w: u32)
    ensures Low(w) == low && High(w) == high
  {
    low + 65536 * high
  }

  /** Both halves are reduced. */
  predicate Valid(w: u32) { Low(w) < BASE && High(w) < BASE }

  lemma SumsAppend(a: nat, b: nat, s: seq<byte>, c: byte)
    ensures SumA(a, s + [c]) == SumA(a, s) + c
    ensures SumB(a, b, s + [c]) == SumB(a, b, s) + SumA(a, s) + c
  {
    assert (s + [c])[..|s|] == s;
  }

  lemma {:induction false} SumsOfConcat(a: nat, b: nat, s: seq<byte>, t: seq<byte>)
    ensures SumA(a, s + t) == SumA(SumA(a, s), t)
    ensures SumB(a, b, s + t) == SumB(SumA(a, s), SumB(a, b, s), t)
  {
    if t == [] {
      assert s + t == s;
    } else {
      var init, c := t[..|t| - 1], t[|t| - 1];
      SumsOfConcat(a, b, s, init);
      assert s + t == (s + init) + [c];
      SumsAppend(a, b, s + init, c);
      assert t == init + [c];
      SumsAppend(SumA(a, s), SumB(a, b, s), init, c);
    }
  }

  /** The start value goes into the first sum once and into the second once for every byte. */
  lemma {:induction false} SumsFromZero(a: nat, b: nat, s: seq<byte>)
    ensures SumA(a, s) == a + SumA(0, s)
    ensures SumB(a, b, s) == b + |s| * a + SumB(0, 0, s)
  {
    if s != [] {
      SumsFromZero(a, b, s[..|s| - 1]);
      assert |s| * a == (|s| - 1) * a + a;
    }
  }

  function Plain(s: seq<byte>): nat {
    if s == [] then 0 else s[0] + Plain(s[1..])
  }

  /** Every byte counts as often as there are bytes from it on. */
  function Weighted(s: seq<byte>): nat {
    if s == [] then 0 else |s| * s[0] + Weighted(s[1..])
  }

  lemma {:induction false} SumsByWeight(a: nat, b: nat, s: seq<byte>)
    ensures SumA(a, s) == a + Plain(s) && SumB(a, b, s) == b + |s| * a + Weighted(s)
    decreases s
  {
    if s != [] {
      var c, t := s[0], s[1..];
      assert s == [c] + t;
      SumsOfConcat(a, b, [c], t);
      OneSum(a, b, c);
      SumsByWeight(a + c, b + a + c, t);
      Shares(|t|, a, c);
    }
  }

  lemma OneSum(a: nat, b: nat, c: byte)
    ensures SumA(a, [c]) == a + c && SumB(a, b, [c]) == b + a + c
  {
  }

  lemma Shares(n: nat, a: nat, c: nat)
    ensures n * (a + c) + a + c == (n + 1) * a + (n + 1) * c
  {
  }

  /** The checksum of a string, in closed form. */
  lemma AdlerByWeight(s: seq<byte>)
    ensures Adler(1, s) == (1 + Plain(s)) % 65521 + 65536 * ((|s| + Weighted(s)) % 65521)
  {
    SumsByWeight(1, 0, s);
  }

  // ---------- No overflow ----------

  /** The second sum after n bytes 255 from halves m. */
  function Worst(m: nat, n: nat): nat {
    if n == 0 then m else Worst(m, n - 1) + m + 255 * n
  }

  lemma {:induction false} WorstForm(m: nat, n: nat)
    ensures 2 * Worst(m, n) == 255 * n * (n + 1) + 2 * (n + 1) * m
  {
    if n > 0 { WorstForm(m, n - 1); }
  }

  lemma {:induction false} WorstGrows(m: nat, n: nat, n': nat)
    requires n <= n'
    ensures Worst(m, n) <= Worst(m, n')
  {
    if n < n' { WorstGrows(m, n, n' - 1); }
  }

  lemma {:induction false} SumsBelowWorst(a: nat, b: nat, m: nat, s: seq<byte>)
    requires a <= m && b <= m
    ensures SumA(a, s) <= m + 255 * |s|
    ensures SumB(a, b, s) <= Worst(m, |s|)
  {
    if s != [] { SumsBelowWorst(a, b, m, s[..|s| - 1]); }
  }

  lemma {:induction false} WorstIsMet(m: nat, n: nat)
    ensures var s := seq(n, _ => 255 as byte); SumA(m, s) == m + 255 * n && SumB(m, m, s) == Worst(m, n)
  {
    if n > 0 {
      WorstIsMet(m, n - 1);
      assert seq(n, _ => 255 as byte)[..n - 1] == seq(n - 1, _ => 255 as byte);
    }
  }

  /** NMAX is the most bytes that can be summed from reduced halves without overflow, and it is exact. */
  lemma NmaxIsLargest(n: nat)
    ensures n <= NMAX <==> forall a: nat, b: nat, s: seq<byte> :: a < BASE && b < BASE && |s| == n ==> SumB(a, b, s) <= 0xffff_ffff
  {
    WorstForm(BASE - 1, NMAX);
    WorstForm(BASE - 1, NMAX + 1);
    if n <= NMAX {
      WorstGrows(BASE - 1, n, NMAX);
      forall a: nat, b: nat, s: seq<byte> | a < BASE && b < BASE && |s| == n ensures SumB(a, b, s) <= 0xffff_ffff {
        SumsBelowWorst(a, b, BASE - 1, s);
      }
    } else {
      WorstGrows(BASE - 1, NMAX + 1, n);
      WorstIsMet(BASE - 1, n);
      assert SumB(BASE - 1, BASE - 1, seq(n, _ => 255 as byte)) > 0xffff_ffff;
    }
  }

  /** Up to NMAX bytes from any halves stay within 32 bits. */
  lemma NoOverflow(a: u16, b: u16, s: seq<byte>)
    requires |s| <= NMAX
    ensures SumA(a, s) <= 0xffff_ffff && SumB(a, b, s) <= 0xffff_ffff
  {
    SumsBelowWorst(a, b, 65535, s);
    WorstForm(65535, NMAX);
    WorstGrows(65535, |s|, NMAX);
  }

  // ---------- Reductions ----------

  /** 65536 is 15 more than the modulus. */
  method Chop(a: nat) returns (r: nat)
    ensures r == a % 65536 + 15 * (a / 65536) && Rem(r) == Rem(a)
  {
    var tmp := a / 65536;
    r := a % 65536;
    r := r + (tmp * 16 - tmp);
    ModPlus(r, tmp);
  }

  lemma ModPlus(r: int, k: int)
    ensures Rem(r + k * BASE) == Rem(r)
  {
    var q := r / BASE;
    assert r + k * BASE == (q + k) * BASE + r % BASE;
    ModUnique(r + k * BASE, q + k, r % BASE);
  }

  lemma ModUnique(x: int, q: int, r: int)
    requires x == q * BASE + r && 0 <= r < BASE
    ensures Rem(x) == r
  {
  }

  /** MOD28: exact for every a below 2^28. */
  method Mod28(a: nat, noDivide: bool) returns (r: nat)
    requires a < 0x1000_0000
    ensures r == Rem(a)
  {
    if noDivide {
      r := Chop(a);
      if r >= BASE { r := r - BASE; }
    } else {
      r := a % BASE;
    }
  }

  /** MOD: exact for every 32-bit a. */
  method Mod(a: u32, noDivide: bool) returns (r: nat)
    ensures r == Rem(a)
  {
    if noDivide {
      r := Chop(a);
      r := Mod28(r, true);
    } else {
      r := a % BASE;
    }
  }

  /** MOD63: exact for every non-negative 64-bit a. */
  method Mod63(a: nat, noDivide: bool) returns (r: nat)
    requires a < 0x8000_0000_0000_0000
    ensures r == Rem(a)
  {
    if noDivide {
      var tmp := a / 0x1_0000_0000;
      r := a % 0x1_0000_0000;
      r := r + (tmp * 256 - tmp * 32 + tmp);
      assert a == r + (65551 * tmp) * BASE;
      ModPlus(r, 65551 * tmp);
      r := Chop(r);
      r := Chop(r);
      if r >= BASE { r := r - BASE; }
    } else {
      r := a % BASE;
    }
  }

  /** What is left when the modulus is subtracted as often as it fits. */
  lemma Multiples(x: nat)
    requires x < 4 * BASE
    ensures Rem(x) == if x < BASE then x else if x < 2 * BASE then x - BASE else if x < 3 * BASE then x - 2 * BASE else x - 3 * BASE
  {
  }

  // ---------- Long inputs ----------

  /** DO1 for the bytes of buf from i up to j: 32-bit sums that are not reduced. */
  method Sum(buf: seq<byte>, i: nat, j: nat, adler0: u32, sum0: u32, ghost a: u16, ghost b: u16, ghost from: nat)
    returns (adler: u32, sum2: u32)
    requires from <= i <= j <= |buf| && j - from <= NMAX
    requires adler0 == SumA(a, buf[from..i]) && sum0 == SumB(a, b, buf[from..i])
    ensures adler == SumA(a, buf[from..j]) && sum2 == SumB(a, b, buf[from..j])
  {
    hide SumA, SumB;
    adler, sum2 := adler0, sum0;
    for k := i to j
      invariant adler == SumA(a, buf[from..k]) && sum2 == SumB(a, b, buf[from..k])
    {
      SumsAppend(a, b, buf[from..k], buf[k]);
      assert buf[from..k + 1] == buf[from..k] + [buf[k]];
      NoOverflow(a, b, buf[from..k + 1]);
      adler := adler + buf[k];
      sum2 := sum2 + adler;
    }
  }

  /** The halves a and b have the remainders of the sums. */
  ghost predicate Congruent(a: nat, b: nat, adler: u32, s: seq<byte>) {
    Rem(a) == Rem(SumA(Low(adler), s)) && Rem(b) == Rem(SumB(Low(adler), High(adler), s))
  }

  /** Going on from halves with the right remainders gives the right remainders. */
  lemma SumsGoOn(a: nat, b: nat, a0: nat, b0: nat, s: seq<byte>, t: seq<byte>)
    requires Rem(a) == Rem(SumA(a0, s)) && Rem(b) == Rem(SumB(a0, b0, s))
    ensures Rem(SumA(a, t)) == Rem(SumA(a0, s + t))
    ensures Rem(SumB(a, b, t)) == Rem(SumB(a0, b0, s + t))
  {
    hide SumA, SumB;
    var x, y, n := SumA(a0, s), SumB(a0, b0, s), |t|;
    SumsOfConcat(a0, b0, s, t);
    SumsFromZero(a, b, t);
    SumsFromZero(x, y, t);
    var p, q := x / BASE - a / BASE, y / BASE - b / BASE;
    assert x == a + p * BASE && y == b + q * BASE;
    ModPlus(SumA(a, t), p);
    Scaled(n, a, p);
    ModPlus(SumB(a, b, t), q + n * p);
  }

  lemma Scaled(n: int, a: int, p: int)
    ensures n * (a + p * BASE) == n * a + (n * p) * BASE
  {
  }

  lemma GoOn(a: nat, b: nat, adler: u32, buf: seq<byte>, at: nat, upTo: nat)
    requires at <= upTo <= |buf| && Congruent(a, b, adler, buf[..at])
    ensures Congruent(SumA(a, buf[at..upTo]), SumB(a, b, buf[at..upTo]), adler, buf[..upTo])
  {
    hide SumA, SumB;
    SumsGoOn(a, b, Low(adler), High(adler), buf[..at], buf[at..upTo]);
    assert buf[..at] + buf[at..upTo] == buf[..upTo];
  }

  /** `do { DO16(buf); buf += 16; } while (--n); MOD(adler); MOD(sum2);` */
  method Block(a: u16, b: u16, ghost adler: u32, buf: seq<byte>, at: nat, noDivide: bool) returns (r: nat, q: nat)
    requires at + NMAX <= |buf| && Congruent(a, b, adler, buf[..at])
    ensures r < BASE && q < BASE && Congruent(r, q, adler, buf[..at + NMAX])
  {
    hide SumA, SumB;
    var x: u32, y: u32 := a, b;
    var i, n: nat := at, NMAX / 16;
    NoSums(a, b, buf[at..at]);
    while n > 0
      invariant i + 16 * n == at + NMAX
      invariant x == SumA(a, buf[at..i]) && y == SumB(a, b, buf[at..i])
    {
      x, y := Sum(buf, i, i + 16, x, y, a, b, at);
      i, n := i + 16, n - 1;
    }
    GoOn(a, b, adler, buf, at, at + NMAX);
    r := Mod(x, noDivide);
    q := Mod(y, noDivide);
  }

  /** The bytes after the last whole block. */
  method Rest(a: u16, b: u16, ghost adler: u32, buf: seq<byte>, at: nat, noDivide: bool) returns (r: nat, q: nat)
    requires at <= |buf| < at + NMAX && Congruent(a, b, adler, buf[..at])
    ensures r < BASE && q < BASE && Congruent(r, q, adler, buf)
  {
    hide SumA, SumB;
    var x: u32, y: u32 := a, b;
    var i, len: nat := at, |buf| - at;
    NoSums(a, b, buf[at..at]);
    while len >= 16
      invariant i + len == |buf|
      invariant x == SumA(a, buf[at..i]) && y == SumB(a, b, buf[at..i])
    {
      len := len - 16;
      x, y := Sum(buf, i, i + 16, x, y, a, b, at);
      i := i + 16;
    }
    x, y := Sum(buf, i, i + len, x, y, a, b, at);
    GoOn(a, b, adler, buf, at, |buf|);
    assert buf[..|buf|] == buf;
    r := Mod(x, noDivide);
    q := Mod(y, noDivide);
  }

  lemma NoSums(a: nat, b: nat, s: seq<byte>)
    requires |s| == 0
    ensures SumA(a, s) == a && SumB(a, b, s) == b
  {
  }

  /** Blocks of NMAX bytes with one reduction each, and one for the rest. */
  method Long(adler: u32, buf: seq<byte>, noDivide: bool) returns (r: u32)
    requires |buf| >= 16
    ensures r == Adler(adler, buf)
  {
    hide Congruent, SumA, SumB;
    var a: u16, b: u16 := Low(adler), High(adler);
    var at, len: nat := 0, |buf|;
    CongruentStart(adler, buf);
    while len >= NMAX
      invariant at + len == |buf| && (at > 0 ==> a < BASE && b < BASE)
      invariant Congruent(a, b, adler, buf[..at])
    {
      len := len - NMAX;
      a, b := Block(a, b, adler, buf, at, noDivide);
      at := at + NMAX;
    }
    if len > 0 {
      a, b := Rest(a, b, adler, buf, at, noDivide);
    } else {
      assert buf[..at] == buf;
    }
    CongruentEnd(a, b, adler, buf);
    r := Pack(a, b);
  }

  lemma CongruentStart(adler: u32, buf: seq<byte>)
    ensures Congruent(Low(adler), High(adler), adler, buf[..0])
  {
  }

  lemma CongruentEnd(a: nat, b: nat, adler: u32, buf: seq<byte>)
    requires a < BASE && b < BASE && Congruent(a, b, adler, buf)
    ensures Adler(adler, buf) == Pack(a, b)
  {
    hide Rem, SumA, SumB, Low, High;
    Multiples(a);
    Multiples(b);
  }

  // ---------- All lengths ----------

  /** One byte is exact when subtracting the modulus once from the second half is enough. */
  predicate OneByteExact(adler: u32, c: byte) {
    High(adler) + Rem(Low(adler) + c) < 2 * BASE
  }

  /** Both halves have the definition's remainders, and the first is reduced. */
  predicate HalfReduced(r: u32, adler: u32, s: seq<byte>) {
    Low(r) == Low(Adler(adler, s)) && Rem(High(r)) == High(Adler(adler, s))
  }

  method OneByte(adler: u32, buf: seq<byte>) returns (r: u32)
    requires |buf| == 1
    ensures (r == Adler(adler, buf) <==> OneByteExact(adler, buf[0])) && HalfReduced(r, adler, buf)
  {
    hide Rem, SumA, SumB, Low, High;
    var a: nat, sum2: nat := Low(adler), High(adler);
    OneByteSums(adler, buf);
    Multiples(a + buf[0]);
    a := a + buf[0];
    if a >= BASE { a := a - BASE; }
    Multiples(sum2 + a);
    ByteRemainders(Low(adler), High(adler), buf[0]);
    sum2 := sum2 + a;
    if sum2 >= BASE { sum2 := sum2 - BASE; }
    Multiples(sum2);
    r := Pack(a, sum2);
  }

  lemma OneByteSums(adler: u32, s: seq<byte>)
    requires |s| == 1
    ensures SumA(Low(adler), s) == Low(adler) + s[0] && SumB(Low(adler), High(adler), s) == High(adler) + (Low(adler) + s[0])
  {
    NoSums(Low(adler), High(adler), s[..0]);
  }

  lemma ByteRemainders(a: nat, b: nat, c: nat)
    ensures Rem(b + (a + c)) == Rem(b + Rem(a + c))
  {
    hide Rem;
    RemForm(a + c);
    ModPlus(b + Rem(a + c), (a + c) / BASE);
  }

  lemma RemForm(x: int)
    ensures x == Rem(x) + x / BASE * BASE
  {
  }

  method Short(adler: u32, buf: seq<byte>, noDivide: bool) returns (r: u32)
    requires |buf| < 16
    ensures r == Adler(adler, buf)
  {
    hide Rem, SumA, SumB, Low, High;
    var a: u32, sum2: u32 := Low(adler), High(adler);
    ghost var a0, b0 := Low(adler), High(adler);
    NoSums(a0, b0, buf[0..0]);
    a, sum2 := Sum(buf, 0, |buf|, a, sum2, a0, b0, 0);
    assert buf[0..|buf|] == buf;
    ShortSums(a0, b0, buf);
    Multiples(a);
    if a >= BASE { a := a - BASE; }
    var q := Mod28(sum2, noDivide);
    r := Pack(a, q);
  }

  lemma ShortSums(a: u16, b: u16, s: seq<byte>)
    requires |s| < 16
    ensures SumA(a, s) < 2 * BASE && SumB(a, b, s) < 0x1000_0000
  {
    hide SumA, SumB;
    SumsBelowWorst(a, b, 65535, s);
    WorstForm(65535, 16);
    WorstGrows(65535, |s|, 16);
  }

  /**
   * The checksum of buf, going on from adler.
   * It is the definition's except when a single byte goes on from some words that no checksum is equal to.
   */
  method Adler32Z(adler: u32, buf: seq<byte>, noDivide: bool) returns (r: u32)
    ensures r == Adler(adler, buf) <==> (|buf| == 1 ==> OneByteExact(adler, buf[0]))
    ensures HalfReduced(r, adler, buf)
  {
    hide OneByteExact, Adler;
    if |buf| == 1 {
      r := OneByte(adler, buf);
    } else if |buf| < 16 {
      r := Short(adler, buf, noDivide);
      Multiples(High(r));
    } else {
      r := Long(adler, buf, noDivide);
      Multiples(High(r));
    }
  }

  /** From every word that is a checksum, one byte is exact too. */
  lemma ValidIsExact(adler: u32, c: byte)
    requires Valid(adler)
    ensures OneByteExact(adler, c)
  {
    hide Rem;
    Multiples(Low(adler) + c);
  }

  /** And there are words from which it is not. */
  lemma SomeWordIsNot()
    ensures !OneByteExact(Pack(65520, 65535), 0)
  {
  }

  /** Checksums go on: feeding a string in pieces is feeding it at once. */
  lemma AdlerGoesOn(adler: u32, s: seq<byte>, t: seq<byte>)
    ensures Adler(Adler(adler, s), t) == Adler(adler, s + t)
  {
    hide Rem, SumA, SumB, Low, High;
    var w := Adler(adler, s);
    Multiples(Low(w));
    Multiples(High(w));
    SumsGoOn(Low(w), High(w), Low(adler), High(adler), s, t);
  }

  // ---------- Combination ----------

  /** The first sums add up; the first string's sum enters the second sum once for every byte of the second. */
  function Combined(adler1: u32, adler2: u32, len2: nat): u32 {
    Pack(Rem(Low(adler1) + Low(adler2) - 1), Rem(len2 * Low(adler1) + High(adler1) + High(adler2) - len2))
  }

  /** The checksum of a concatenation from the checksums of its parts and the length of the second. */
  method Adler32Combine(adler1: u32, adler2: u32, len2: int, noDivide: bool) returns (r: u32)
    requires Valid(adler1) && Valid(adler2) && -0x8000_0000_0000_0000 <= len2 < 0x8000_0000_0000_0000
    ensures r == if len2 < 0 then 0xffff_ffff else Combined(adler1, adler2, len2)
  {
    hide Rem, Low, High;
    if len2 < 0 { return 0xffff_ffff; }
    var rem := Mod63(len2, noDivide);
    var sum1: u32 := Low(adler1);
    ProductFits(rem, sum1);
    var sum2: u32 := rem * sum1;
    sum2 := Mod(sum2, noDivide);
    CombinedSums(Low(adler1), Low(adler2), High(adler1), High(adler2), len2);
    sum1 := sum1 + (Low(adler2) + BASE - 1);
    sum2 := sum2 + (High(adler1) + High(adler2) + BASE - rem);
    Multiples(sum1);
    Multiples(sum2);
    if sum1 >= BASE { sum1 := sum1 - BASE; }
    if sum1 >= BASE { sum1 := sum1 - BASE; }
    if sum2 >= 2 * BASE { sum2 := sum2 - 2 * BASE; }
    if sum2 >= BASE { sum2 := sum2 - BASE; }
    r := Pack(sum1, sum2);
  }

  lemma ProductFits(rem: nat, sum1: u16)
    requires rem < BASE
    ensures 0 <= rem * sum1 <= 0xffff_ffff
  {
    MulMonotone(rem, BASE - 1, sum1);
  }

  lemma CombinedSums(a1: nat, a2: nat, b1: nat, b2: nat, n: nat)
    ensures Rem(a1 + (a2 + BASE - 1)) == Rem(a1 + a2 - 1)
    ensures Rem(Rem(Rem(n) * a1) + (b1 + b2 + BASE - Rem(n))) == Rem(n * a1 + b1 + b2 - n)
  {
    hide Rem;
    ModPlus(a1 + a2 - 1, 1);
    var q := n / BASE;
    RemForm(n);
    RemForm(Rem(n) * a1);
    var p := Rem(n) * a1 / BASE;
    Scaled(a1, Rem(n), q);
    ModPlus(n * a1 + b1 + b2 - n, 1 + q - p - a1 * q);
  }

  /** Combining the checksums of two strings gives the checksum of their concatenation. */
  lemma CombinedIsConcat(adler: u32, s: seq<byte>, t: seq<byte>)
    ensures Combined(Adler(adler, s), Adler(1, t), |t|) == Adler(adler, s + t)
  {
    hide SumA, SumB, Rem;
    var w, v := Adler(adler, s), Adler(1, t);
    AdlerGoesOn(adler, s, t);
    SumsFromZero(Low(w), High(w), t);
    SumsFromZero(1, 0, t);
    var n, x, y := |t|, SumA(0, t), SumB(0, 0, t);
    FirstSum(Low(w), x);
    SecondSum(n * Low(w), High(w), n, y);
  }

  lemma FirstSum(a: nat, x: nat)
    ensures Rem(a + Rem(1 + x) - 1) == Rem(a + x)
  {
    hide Rem;
    RemForm(1 + x);
    ModPlus(a + x, -((1 + x) / BASE));
  }

  lemma SecondSum(p: nat, b: nat, n: nat, y: nat)
    ensures Rem(p + b + Rem(n + y) - n) == Rem(b + p + y)
  {
    hide Rem;
    RemForm(n + y);
    ModPlus(b + p + y, -((n + y) / BASE));
  }
}
