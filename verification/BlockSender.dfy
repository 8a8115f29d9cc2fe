/** A whole block as the compressor sends it: header, tables and symbols. */
module BlockSender {
  import opened Sequences
  import opened Words
  import opened Bits
  import opened Rotations
  import opened BurrowsWheeler
  import opened BitStream
  import opened ByteMaps
  import opened MoveToFront
  import opened MtfEncode
  import opened HuffmanLengths
  import opened SymbolCoding
  import opened BlockFormat
  import opened BlockWriter

  // ---------- Block header ----------

  function BlockMagic(): seq<byte> {
    [0x31, 0x41, 0x59, 0x26, 0x53, 0x59]
  }

  ghost function BytesFrom(s: seq<byte>, i: nat): seq<bool>
    requires i <= |s|
    decreases |s| - i
  {
    if i == |s| then [] else ToBits(s[i], 8) + BytesFrom(s, i + 1)
  }

  lemma {:induction false} BytesFromIsBits(s: seq<byte>, i: nat)
    requires i <= |s|
    ensures BytesFrom(s, i) == BytesToBits(s[i..])
    decreases |s| - i
  {
    hide ToBits, BytesToBits;
    if i < |s| {
      BytesFromIsBits(s, i + 1);
      BytesToBitsFirst(s[i], s[i + 1..]);
      assert s[i..] == [s[i]] + s[i + 1..];
    } else {
      NoBytes(s[i..]);
    }
  }

  /** Magic number, checksum, the flag for randomisation (never set), and the start row. */
  ghost function BlockHeaderBits(crc: seq<byte>, origPtr: nat): seq<bool> {
    BytesFrom(BlockMagic() + crc, 0) + ([false] + ToBits(origPtr, 24))
  }

  method SendBytes(w: BitWriter, s: seq<byte>)
    requires w.Valid()
    modifies w
    ensures w.Valid() && w.Written() == old(w.Written()) + BytesFrom(s, 0)
  {
    hide BitWriter.Valid, BitWriter.Written, ToBits;
    Pow2Of24();
    for i := 0 to |s|
      invariant w.Valid() && w.Written() + BytesFrom(s, i) == old(w.Written()) + BytesFrom(s, 0)
    {
      Associate(w.Written(), ToBits(s[i], 8), BytesFrom(s, i + 1));
      w.BsW(8, s[i]);
    }
    assert w.Written() + [] == w.Written();
  }

  method SendHeader(w: BitWriter, crc: seq<byte>, origPtr: nat)
    requires w.Valid() && origPtr < 0x100_0000
    modifies w
    ensures w.Valid() && w.Written() == old(w.Written()) + BlockHeaderBits(crc, origPtr)
  {
    hide BitWriter.Valid, BitWriter.Written, ToBits, BytesFrom;
    Pow2Of24();
    SendBytes(w, BlockMagic() + crc);
    ghost var sent := w.Written();
    SendBit(w, false);
    w.BsW(24, origPtr);
    Associate(sent, [false], ToBits(origPtr, 24));
    Associate(old(w.Written()), BytesFrom(BlockMagic() + crc, 0), [false] + ToBits(origPtr, 24));
  }

  // ---------- Sending a block ----------

  /** What the refinement of the tables comes to: frequencies for each table, and a table for each fifty symbols. */
  datatype Choice = Choice(rfreq: seq<seq<nat>>, selector: seq<nat>)

  ghost predicate Usable(c: Choice, nMTF: nat, alphaSize: nat) {
    && |c.rfreq| == NGroups(nMTF)
    && (forall t :: 0 <= t < |c.rfreq| ==> |c.rfreq[t]| == alphaSize && Demand(c.rfreq[t], alphaSize) < 0x80_0000)
    && G_SIZE * (|c.selector| - 1) < nMTF <= G_SIZE * |c.selector|
    && forall i :: 0 <= i < |c.selector| ==> c.selector[i] < |c.rfreq|
  }

  /** The body that carries the last column l of a block. */
  ghost predicate Carries(body: Body, u: seq<bool>, l: seq<byte>) {
    && |u| == 256 && (forall k :: 0 <= k < |l| ==> u[l[k]])
    && body.syms != [] && Sends(body, u, body.syms, Rank(u, 256) + 2) && Rank(u, 256) >= 1
    && body.syms[|body.syms| - 1] == Rank(u, 256) + 1
    && (forall i :: 0 <= i < |body.syms| - 1 ==> body.syms[i] <= Rank(u, 256))
    && Decoded(body.syms[..|body.syms| - 1]) == Ranks(u, l)
  }

  lemma UsedRank(u: seq<bool>, l: seq<byte>)
    requires |u| == 256 && l != [] && forall k :: 0 <= k < |l| ==> u[l[k]]
    ensures Rank(u, 256) >= 1
  {
    assert u[l[0]];
    RankOrder(u, l[0], 256);
  }

  /** Sends a sorted block, whatever tables the refinement chooses. */
  method CompressBlock(w: BitWriter, block: array<byte>, mem: SharedArray, inUse: array<bool>, unseqToSeq: array<byte>, origPtr: nat, crc: seq<byte>,
                       choose: (seq<nat>, nat) -> Choice)
    returns (ghost body: Body)
    requires w.Valid() && 0 < block.Length <= 900_000 && mem.halves.Length == 2 * block.Length && inUse.Length == 256 == unseqToSeq.Length
    requires inUse as object != unseqToSeq && unseqToSeq != block && mem.halves as object != unseqToSeq
    requires mem.halves as object != block && mem.halves as object != inUse
    requires w as object !in {block as object, mem.halves, inUse, unseqToSeq}
    requires SortsRotations(block[..], Pointers(mem, block.Length)) && origPtr < block.Length
    requires forall i :: 0 <= i < block.Length ==> inUse[block[i]]
    requires forall syms, n :: Usable(choose(syms, n), |syms|, n)
    modifies w, mem.halves, unseqToSeq
    ensures w.Valid() && Carries(body, inUse[..], LastColumn(block[..], old(Pointers(mem, block.Length))))
    ensures w.Written() == old(w.Written()) + (BlockHeaderBits(crc, origPtr) + body.Encoding())
  {
    hide BitWriter.Valid, BitWriter.Written, BlockHeaderBits, LastColumn, Ranks, Decoded, Body.Valid, Body.Encoding, Sendable, Compare, Demand, Rank;
    ghost var l, u := LastColumn(block[..], Pointers(mem, block.Length)), inUse[..];
    SendHeader(w, crc, origPtr);
    var nInUse, nMTF := GenerateMtfValues(mem, block, inUse, unseqToSeq);
    UsedRank(u, l);
    var mtfv: seq<nat> := mem.halves[..nMTF];
    assert mtfv == mem.Symbols(nMTF);
    var choice := choose(mtfv, nInUse + 2);
    assert Usable(choice, |mtfv|, nInUse + 2);
    RankBound(u);
    body := SendMtfValues(w, inUse, mtfv, nInUse + 2, choice.rfreq, choice.selector);
    Associate(old(w.Written()), BlockHeaderBits(crc, origPtr), body.Encoding());
  }

  lemma RankBound(u: seq<bool>)
    requires |u| == 256
    ensures Rank(u, 256) <= 256
  {
  }

  /** The sorted pointers as the symbol generator finds them, in the memory it will write over. */
  method Share(fmap: array<int>) returns (mem: SharedArray)
    requires forall i :: 0 <= i < fmap.Length ==> 0 <= fmap[i] < fmap.Length <= 900_000
    ensures fresh(mem.halves) && mem.halves.Length == 2 * fmap.Length && Pointers(mem, fmap.Length) == fmap[..]
  {
    mem := new SharedArray(fmap.Length);
    for i := 0 to fmap.Length
      invariant forall k :: 0 <= k < i ==> mem.Ptr(k) == fmap[k]
    {
      mem.halves[2 * i] := fmap[i] % 0x1_0000;
      mem.halves[2 * i + 1] := fmap[i] / 0x1_0000;
    }
  }

  lemma CarriesUsed(body: Body, u: seq<bool>, l: seq<byte>)
    requires Carries(body, u, l)
    ensures body.inUse == u && |u| == 256 && body.Valid()
  {
  }

  lemma PointersInRange(b: seq<byte>, ptr: seq<int>)
    requires b != [] && SortsRotations(b, ptr)
    ensures |ptr| == |b| && forall i :: 0 <= i < |ptr| ==> 0 <= ptr[i] < |b|
  {
  }

  /** Sends a sorted block: the column it carries unsorts to the block. */
  method SendSorted(w: BitWriter, block: array<byte>, fmap: array<int>, origPtr: nat, inUse: array<bool>, crc: seq<byte>, choose: (seq<nat>, nat) -> Choice)
    returns (ghost body: Body, ghost l: seq<byte>)
    requires w.Valid() && 0 < block.Length == fmap.Length <= 900_000 && SortsRotations(block[..], fmap[..])
    requires origPtr < fmap.Length && fmap[origPtr] == 0 && w as object !in {block as object, fmap, inUse}
    requires inUse.Length == 256 && forall i :: 0 <= i < block.Length ==> inUse[block[i]]
    requires forall syms, n :: Usable(choose(syms, n), |syms|, n)
    modifies w
    ensures w.Valid() && |body.inUse| == 256 && body.Valid()
    ensures Carries(body, body.inUse, l) && origPtr < |l| == block.Length && Unsorted(l, origPtr, |l|) == block[..]
    ensures w.Written() == old(w.Written()) + (BlockHeaderBits(crc, origPtr) + body.Encoding())
  {
    hide SortsRotations, BytesToBits, BlockHeaderBits, Body.Encoding, Body.Valid, Carries, Usable, Unsorted, BitWriter.Valid, LastColumn;
    ghost var b, ptr := block[..], fmap[..];
    PointersInRange(b, ptr);
    var mem := Share(fmap);
    var unseqToSeq := new byte[256];
    body := CompressBlock(w, block, mem, inUse, unseqToSeq, origPtr, crc, choose);
    l := LastColumn(b, ptr);
    CarriesUsed(body, inUse[..], l);
    InversionRebuildsBlock(b, ptr, origPtr);
  }
}
