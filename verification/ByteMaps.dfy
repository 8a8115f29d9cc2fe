/** The maps between the bytes used in a block and consecutive ranks. */
module ByteMaps {
  import opened Words

  /** How many used bytes are below c. */
  function Rank(inUse: seq<bool>, c: nat): (r: nat)
    requires c <= |inUse|
    ensures r <= c
  {
    if c == 0 then 0 else Rank(inUse, c - 1) + if inUse[c - 1] then 1 else 0
  }

  lemma {:induction false} RankOrder(inUse: seq<bool>, c: nat, d: nat)
    requires c < d <= |inUse|
    ensures Rank(inUse, c) <= Rank(inUse, d)
    ensures inUse[c] ==> Rank(inUse, c) < Rank(inUse, d)
  {
    if c < d - 1 { RankOrder(inUse, c, d - 1); }
  }

  method MakeMapsE(inUse: array<bool>, unseqToSeq: array<byte>) returns (nInUse: nat)
    requires inUse.Length == 256 && unseqToSeq.Length == 256 && inUse as object != unseqToSeq
    modifies unseqToSeq
    ensures nInUse == Rank(inUse[..], 256)
    ensures forall c :: 0 <= c < 256 && inUse[c] ==> unseqToSeq[c] == Rank(inUse[..], c)
  {
    nInUse := 0;
    for i := 0 to 256
      invariant nInUse == Rank(inUse[..], i)
      invariant forall c :: 0 <= c < i && inUse[c] ==> unseqToSeq[c] == Rank(inUse[..], c)
    {
      if inUse[i] {
        unseqToSeq[i] := nInUse;
        nInUse := nInUse + 1;
      }
    }
  }

  /** The bytes in use below c, in order. */
  ghost function UsedBytes(used: seq<bool>, c: nat): (r: seq<byte>)
    requires c <= |used| && c <= 256
    ensures |r| == Rank(used, c)
  {
    if c == 0 then [] else UsedBytes(used, c - 1) + if used[c - 1] then [c - 1] else []
  }

  lemma {:induction false} UsedByteAt(used: seq<bool>, b: nat, c: nat)
    requires b < c <= |used| && c <= 256 && used[b]
    ensures Rank(used, b) < Rank(used, c) && UsedBytes(used, c)[Rank(used, b)] == b
  {
    if b < c - 1 { UsedByteAt(used, b, c - 1); }
  }

  method MakeMapsD(inUse: array<bool>, seqToUnseq: array<byte>) returns (nInUse: nat)
    requires inUse.Length == 256 && seqToUnseq.Length == 256 && inUse as object != seqToUnseq
    modifies seqToUnseq
    ensures nInUse == Rank(inUse[..], 256)
    ensures seqToUnseq[..nInUse] == UsedBytes(inUse[..], 256)
  {
    ghost var used := inUse[..];
    nInUse := 0;
    for i := 0 to 256
      invariant inUse[..] == used && nInUse == Rank(used, i) && seqToUnseq[..nInUse] == UsedBytes(used, i)
    {
      if inUse[i] {
        seqToUnseq[nInUse] := i;
        nInUse := nInUse + 1;
      }
    }
  }

  /** The ranks of the bytes of a column. */
  function Ranks(inUse: seq<bool>, l: seq<byte>): (r: seq<byte>)
    requires |inUse| == 256 && forall i :: 0 <= i < |l| ==> inUse[l[i]]
    ensures |r| == |l| && forall i :: 0 <= i < |l| ==> r[i] == Rank(inUse, l[i]) < Rank(inUse, 256)
  {
    if l == [] then []
    else
      RankOrder(inUse, l[|l| - 1], 256);
      Ranks(inUse, l[..|l| - 1]) + [Rank(inUse, l[|l| - 1])]
  }
}
