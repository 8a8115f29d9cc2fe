/** The table of bucket header bits: 32 flags a word, with scans that skip whole words. */
module HeaderBits {
  import opened Powers
  import opened Words

  /** Bit j of w. */
  function Bit(w: nat, j: nat): bool
    decreases j
  {
    if j == 0 then w % 2 == 1 else Bit(w / 2, j - 1)
  }

  /** `w | (1 << j)` */
  function WithBit(w: nat, j: nat): nat
    decreases j
  {
    if j == 0 then w / 2 * 2 + 1 else WithBit(w / 2, j - 1) * 2 + w % 2
  }

  /** `w & ~(1 << j)` */
  function WithoutBit(w: nat, j: nat): nat
    decreases j
  {
    if j == 0 then w / 2 * 2 else WithoutBit(w / 2, j - 1) * 2 + w % 2
  }

  lemma {:induction false} WithBitBits(w: nat, j: nat, k: nat)
    ensures Bit(WithBit(w, j), k) == (k == j || Bit(w, k))
    ensures Bit(WithoutBit(w, j), k) == (k != j && Bit(w, k))
    decreases j
  {
    if j > 0 && k > 0 { WithBitBits(w / 2, j - 1, k - 1); }
  }

  lemma {:induction false} WithBitRange(w: nat, j: nat, m: nat)
    requires j < m && w < Pow2(m)
    ensures WithBit(w, j) < Pow2(m) && WithoutBit(w, j) < Pow2(m)
    decreases j
  {
    if j > 0 { WithBitRange(w / 2, j - 1, m - 1); }
  }

  /** Every bit of an all-ones word is set. */
  lemma {:induction false} FullBits(m: nat, j: nat)
    requires j < m
    ensures Bit(Pow2(m) - 1, j)
    decreases j
  {
    if j > 0 {
      assert (Pow2(m) - 1) / 2 == Pow2(m - 1) - 1;
      FullBits(m - 1, j - 1);
    }
  }

  lemma {:induction false} ZeroBits(j: nat)
    ensures !Bit(0, j)
    decreases j
  {
    if j > 0 { ZeroBits(j - 1); }
  }

  class HeaderTable {
    const bhtab: array<u32>

    constructor (words: nat)
      ensures bhtab.Length == words && fresh(bhtab)
    {
      bhtab := new u32[words];
    }

    predicate IsSet(z: nat)
      requires z / 32 < bhtab.Length
      reads bhtab
    {
      Bit(bhtab[z / 32], z % 32)
    }

    ghost function Flags(): (f: seq<bool>)
      reads bhtab
      ensures |f| == 32 * bhtab.Length
      ensures forall z :: 0 <= z < |f| ==> f[z] == IsSet(z)
    {
      seq(32 * bhtab.Length, z requires 0 <= z < 32 * bhtab.Length reads bhtab => IsSet(z))
    }

    /** Zeroes the first words. */
    method ClearWords(words: nat)
      requires words <= bhtab.Length
      modifies bhtab
      ensures forall z :: 0 <= z < 32 * words ==> !Flags()[z]
    {
      for i := 0 to words
        invariant forall k :: 0 <= k < i ==> bhtab[k] == 0
      {
        bhtab[i] := 0;
      }
      forall z | 0 <= z < 32 * words
        ensures !Flags()[z]
      {
        ZeroBits(z % 32);
      }
    }

    method SetBh(z: nat)
      requires z / 32 < bhtab.Length
      modifies bhtab
      ensures Flags() == old(Flags())[z := true]
    {
      Pow2Of32();
      WithBitRange(bhtab[z / 32], z % 32, 32);
      forall j { WithBitBits(bhtab[z / 32], z % 32, j); }
      bhtab[z / 32] := WithBit(bhtab[z / 32], z % 32);
    }

    method ClearBh(z: nat)
      requires z / 32 < bhtab.Length
      modifies bhtab
      ensures Flags() == old(Flags())[z := false]
    {
      Pow2Of32();
      WithBitRange(bhtab[z / 32], z % 32, 32);
      forall j { WithBitBits(bhtab[z / 32], z % 32, j); }
      bhtab[z / 32] := WithoutBit(bhtab[z / 32], z % 32);
    }

    /** The first position from k0 on whose flag is clear, skipping full words. */
    method NextClear(k0: nat, ghost stop: nat) returns (k: nat)
      requires k0 <= stop && stop / 32 < bhtab.Length && !IsSet(stop)
      ensures k0 <= k <= stop && !IsSet(k)
      ensures forall z :: k0 <= z < k ==> IsSet(z)
    {
      k := k0;
      while IsSet(k) && k % 32 != 0
        invariant k0 <= k <= stop
        invariant forall z :: k0 <= z < k ==> IsSet(z)
        decreases stop - k
      {
        k := k + 1;
      }
      if IsSet(k) {
        while bhtab[k / 32] == 0xffff_ffff
          invariant k0 <= k <= stop && k % 32 == 0
          invariant forall z :: k0 <= z < k ==> IsSet(z)
          decreases stop - k
        {
          FullWord(k);
          k := k + 32;
        }
        while IsSet(k)
          invariant k0 <= k <= stop
          invariant forall z :: k0 <= z < k ==> IsSet(z)
          decreases stop - k
        {
          k := k + 1;
        }
      }
    }

    /** The first position from k0 on whose flag is set, skipping empty words. */
    method NextSet(k0: nat, ghost stop: nat) returns (k: nat)
      requires k0 <= stop && stop / 32 < bhtab.Length && IsSet(stop)
      ensures k0 <= k <= stop && IsSet(k)
      ensures forall z :: k0 <= z < k ==> !IsSet(z)
    {
      k := k0;
      while !IsSet(k) && k % 32 != 0
        invariant k0 <= k <= stop
        invariant forall z :: k0 <= z < k ==> !IsSet(z)
        decreases stop - k
      {
        k := k + 1;
      }
      if !IsSet(k) {
        while bhtab[k / 32] == 0
          invariant k0 <= k <= stop && k % 32 == 0
          invariant forall z :: k0 <= z < k ==> !IsSet(z)
          decreases stop - k
        {
          EmptyWord(k);
          k := k + 32;
        }
        while !IsSet(k)
          invariant k0 <= k <= stop
          invariant forall z :: k0 <= z < k ==> !IsSet(z)
          decreases stop - k
        {
          k := k + 1;
        }
      }
    }

    lemma FullWord(k: nat)
      requires k % 32 == 0 && k / 32 < bhtab.Length && bhtab[k / 32] == 0xffff_ffff
      ensures forall z :: k <= z < k + 32 ==> z / 32 == k / 32 && IsSet(z)
    {
      Pow2Of32();
      forall z | k <= z < k + 32
        ensures z / 32 == k / 32 && IsSet(z)
      {
        FullBits(32, z % 32);
      }
    }

    lemma EmptyWord(k: nat)
      requires k % 32 == 0 && k / 32 < bhtab.Length && bhtab[k / 32] == 0
      ensures forall z :: k <= z < k + 32 ==> z / 32 == k / 32 && !IsSet(z)
    {
      forall z | k <= z < k + 32
        ensures z / 32 == k / 32 && !IsSet(z)
      {
        ZeroBits(z % 32);
      }
    }
  }
}
