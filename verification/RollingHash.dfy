/** The rolling hash of three bytes that keys deflate's dictionary. */
module RollingHash {
  import opened Words
  import opened Powers
  import opened HeaderBits

  /** Bitwise exclusive or. */
  function Xor(a: nat, b: nat): nat
    decreases a + b
  {
    if a == 0 && b == 0 then 0 else 2 * Xor(a / 2, b / 2) + if (a % 2 == 1) != (b % 2 == 1) then 1 else 0
  }

  lemma {:induction false} XorBit(a: nat, b: nat, j: nat)
    ensures Bit(Xor(a, b), j) == (Bit(a, j) != Bit(b, j))
    decreases j
  {
    if a == 0 && b == 0 {
      ZeroBit(j);
    } else if j > 0 {
      XorBit(a / 2, b / 2, j - 1);
    }
  }

  lemma {:induction false} ZeroBit(j: nat)
    ensures !Bit(0, j)
  {
    if j > 0 { ZeroBit(j - 1); }
  }

  /** Numbers with the same bits are equal. */
  lemma {:induction false} SameBits(a: nat, b: nat)
    requires forall j: nat :: Bit(a, j) == Bit(b, j)
    ensures a == b
    decreases a + b
  {
    if a != 0 || b != 0 {
      assert Bit(a, 0) == Bit(b, 0);
      forall j: nat ensures Bit(a / 2, j) == Bit(b / 2, j) { assert Bit(a, j + 1) == Bit(b, j + 1); }
      SameBits(a / 2, b / 2);
    }
  }

  lemma {:induction false} SmallBit(v: nat, n: nat, j: nat)
    requires v < Pow2(n) && j >= n
    ensures !Bit(v, j)
    decreases n
  {
    if n == 0 { ZeroBit(j); } else { SmallBit(v / 2, n - 1, j - 1); }
  }

  /** `v & ((1 << n) - 1)` */
  function LowBits(v: nat, n: nat): (r: nat)
    ensures r < Pow2(n)
    decreases n
  {
    if n == 0 then 0 else 2 * LowBits(v / 2, n - 1) + v % 2
  }

  lemma {:induction false} LowBitsBit(v: nat, n: nat, j: nat)
    ensures Bit(LowBits(v, n), j) == (j < n && Bit(v, j))
    decreases n
  {
    if n == 0 {
      ZeroBit(j);
    } else if j > 0 {
      LowBitsBit(v / 2, n - 1, j - 1);
    }
  }

  lemma {:induction false} ShiftedBit(v: nat, s: nat, j: nat)
    ensures Bit(v * Pow2(s), j) == (j >= s && Bit(v, j - s))
    decreases s
  {
    if s > 0 {
      var w := v * Pow2(s - 1);
      assert v * Pow2(s) == 2 * w by { TwiceProduct(v, Pow2(s - 1)); }
      if j > 0 { ShiftedBit(v, s - 1, j - 1); }
    }
  }

  lemma TwiceProduct(v: nat, p: nat)
    ensures v * (2 * p) == 2 * (v * p)
  {
  }

  /** The parameters of the hash: its width and its shift, which pushes a byte out after three steps. */
  datatype HashSpec = HashSpec(bits: nat, shift: nat) {
    predicate Good() {
      8 <= bits <= 16 && bits <= 3 * shift
    }

    function Size(): nat {
      Pow2(bits)
    }

    /** UPDATE_HASH */
    function Update(h: nat, c: byte): (r: nat)
      ensures r < Size()
    {
      LowBits(Xor(h * Pow2(shift), c), bits)
    }

    function Of3(a: byte, b: byte, c: byte): (r: nat)
      ensures r < Size()
    {
      Update(Update(a, b), c)
    }

    lemma UpdateBit(h: nat, c: byte, j: nat)
      ensures Bit(Update(h, c), j) == (j < bits && ((j >= shift && Bit(h, j - shift)) != Bit(c, j)))
    {
      LowBitsBit(Xor(h * Pow2(shift), c), bits, j);
      XorBit(h * Pow2(shift), c, j);
      ShiftedBit(h, shift, j);
    }

    /** h leads to the same hash as the two bytes a and b, whatever byte follows. */
    ghost predicate Primes(h: nat, a: byte, b: byte) {
      forall c: byte :: Update(h, c) == Of3(a, b, c)
    }

    /** The hash of the last three bytes forgets the earlier ones. */
    lemma Forgets(h: nat, a: byte, b: byte, c: byte)
      requires Good()
      ensures Update(Update(Update(h, a), b), c) == Of3(a, b, c)
    {
      hide Bit, Update;
      var x, y := Update(Update(Update(h, a), b), c), Of3(a, b, c);
      forall j: nat ensures Bit(x, j) == Bit(y, j) { ForgetsBit(h, a, b, c, j); }
      SameBits(x, y);
    }

    lemma ForgetsBit(h: nat, a: byte, b: byte, c: byte, j: nat)
      requires Good()
      ensures Bit(Update(Update(Update(h, a), b), c), j) == Bit(Of3(a, b, c), j)
    {
      hide Bit, Update;
      UpdateBit(Update(Update(h, a), b), c, j);
      UpdateBit(Update(a, b), c, j);
      if j < bits && j >= shift {
        UpdateBit(Update(h, a), b, j - shift);
        UpdateBit(a, b, j - shift);
        if j >= 2 * shift {
          UpdateBit(h, a, j - 2 * shift);
        }
      }
    }

    lemma PrimesNext(h: nat, a: byte, b: byte, c: byte)
      requires Good() && Primes(h, a, b)
      ensures Primes(Update(h, c), b, c)
    {
      hide Update;
      forall d: byte ensures Update(Update(h, c), d) == Of3(b, c, d) {
        assert Update(h, c) == Update(Update(a, b), c);
        Forgets(a, b, c, d);
      }
    }

    /** Equal hashes and equal first two bytes mean equal third bytes. */
    lemma ThirdByte(a: byte, b: byte, c: byte, d: byte)
      requires Good() && Of3(a, b, c) == Of3(a, b, d)
      ensures c == d
    {
      hide Bit, Update;
      forall j: nat ensures Bit(c, j) == Bit(d, j) {
        UpdateBit(Update(a, b), c, j);
        UpdateBit(Update(a, b), d, j);
        if j >= bits {
          ByteFits(bits);
          SmallBit(c, bits, j);
          SmallBit(d, bits, j);
        }
      }
      SameBits(c, d);
    }
  }

  lemma ByteFits(n: nat)
    requires n >= 8
    ensures 256 <= Pow2(n)
  {
    assert Pow2(2) == 4 && Pow2(4) == 16 && Pow2(6) == 64 && Pow2(8) == 256;
    Pow2Monotone(8, n);
  }
}
