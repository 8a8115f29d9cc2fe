/** The compressor's block under construction: run-length coding of the input as it arrives. */
module BlockBuffer {
  import opened Words
  import opened RunCoding
  import opened Checksums

  const NO_CHAR := 256

  /** The run list can be followed by a run of c. */
  ghost predicate CanFollow(runs: seq<Run>, c: byte) {
    runs == [] || runs[|runs| - 1].len == 255 || runs[|runs| - 1].c != c
  }

  lemma AppendRun(runs: seq<Run>, c: byte, len: nat)
    requires Encodable(runs) && CanFollow(runs, c) && 1 <= len <= 255
    ensures Encodable(runs + [Run(c, len)])
    ensures EncodeRuns(runs + [Run(c, len)]) == EncodeRuns(runs) + EncodeRun(c, len)
    ensures Flatten(runs + [Run(c, len)]) == Flatten(runs) + Repeat(c, len)
  {
    var all := runs + [Run(c, len)];
    assert all[..|all| - 1] == runs;
  }

  class Buffer {
    const block: array<byte>
    const inUse: array<bool>
    var nblock: nat
    var stateInCh: nat
    var stateInLen: nat
    const sum: Checksum
    var blockCRC: bv32          // the register of the block's checksum
    ghost var runs: seq<Run>    // the runs in the block

    constructor (blockSize100k: nat, sum: Checksum)
      ensures Valid() && fresh(block) && fresh(inUse) && block.Length == 100_000 * blockSize100k
      ensures runs == [] && EmptyRL() && nblock == 0 && PendingRun() == [] && Content() == [] && this.sum == sum
    {
      this.sum := sum;
      block, inUse := new byte[100_000 * blockSize100k], new bool[256](_ => false);
      nblock, stateInCh, stateInLen, blockCRC, runs := 0, NO_CHAR, 0, sum.start, [];
    }

    ghost predicate Valid()
      reads this, block, inUse
    {
      Stored() && Pending()
    }

    ghost predicate Stored()
      reads this`nblock, this`blockCRC, this`runs, block, inUse
    {
      && inUse.Length == 256 && nblock <= block.Length
      && Encodable(runs) && block[..nblock] == EncodeRuns(runs) && blockCRC == sum.Register(Flatten(runs))
      && forall i :: 0 <= i < nblock ==> inUse[block[i]]
    }

    ghost predicate Pending()
      reads this
    {
      if stateInCh == NO_CHAR then stateInLen == 0
      else stateInCh < 256 && 1 <= stateInLen <= 255 && CanFollow(runs, stateInCh)
    }

    predicate EmptyRL()
      reads this
    {
      !(stateInCh < 256 && stateInLen > 0)
    }

    ghost function PendingRun(): seq<byte>
      reads this
      requires Pending()
    {
      if stateInCh < 256 then Repeat(stateInCh, stateInLen) else []
    }

    /** The input that the block and the pending run stand for. */
    ghost function Content(): seq<byte>
      reads this
      requires Pending()
    {
      Flatten(runs) + PendingRun()
    }

    method Put(c: byte)
      requires nblock < block.Length && inUse.Length == 256
      modifies this`nblock, block
      ensures nblock == old(nblock) + 1 && block[..nblock] == old(block[..nblock]) + [c]
    {
      block[nblock] := c;
      nblock := nblock + 1;
    }

    /** Stores a run of ch as one, two, three, or four bytes and a count. */
    method PutRun(ch: byte, len: nat)
      requires nblock + 5 <= block.Length && inUse.Length == 256 && 1 <= len <= 255
      modifies this`nblock, block
      ensures old(nblock) < nblock <= old(nblock) + 5 && nblock <= block.Length
      ensures block[..nblock] == old(block[..nblock]) + EncodeRun(ch, len)
    {
      ghost var before := block[..nblock];
      match len
      case 1 =>
        Put(ch);
      case 2 =>
        Put(ch); Put(ch);
        assert block[..nblock] == before + [ch, ch];
      case 3 =>
        Put(ch); Put(ch); Put(ch);
        assert block[..nblock] == before + [ch, ch, ch];
      case _ =>
        Put(ch); Put(ch); Put(ch); Put(ch);
        assert block[..nblock] == before + [ch, ch, ch, ch];
        Put(len - 4);
    }

    /** Adds the pending run to the block. */
    method AddPairToBlock()
      requires Valid() && stateInCh < 256 && nblock + 5 <= block.Length
      modifies this`nblock, this`blockCRC, this`runs, block, inUse
      ensures Stored() && runs == old(runs) + [Run(stateInCh, stateInLen)]
      ensures nblock <= old(nblock) + 5 && nblock > old(nblock)
    {
      hide Flatten, EncodeRuns, Encodable, CanFollow, Checksum.Register;
      ghost var coded, used := block[..nblock], inUse[..];
      var ch: byte := stateInCh;
      AppendRun(runs, ch, stateInLen);
      UpdateCrc(ch, Flatten(runs));
      inUse[ch] := true;
      if stateInLen >= 4 { inUse[stateInLen - 4] := true; }
      PutRun(ch, stateInLen);
      RunUsed(coded, ch, stateInLen, used, inUse[..], block[..nblock]);
      runs := runs + [Run(ch, stateInLen)];
    }

    lemma RunUsed(coded: seq<byte>, ch: byte, len: nat, used: seq<bool>, used': seq<bool>, stored: seq<byte>)
      requires |used| == |used'| == 256 && forall i :: 0 <= i < |coded| ==> used[coded[i]]
      requires 1 <= len <= 255 && stored == coded + EncodeRun(ch, len)
      requires forall c :: 0 <= c < 256 ==> used[c] || c == ch || (len >= 4 && c == len - 4) ==> used'[c]
      ensures forall i :: 0 <= i < |stored| ==> used'[stored[i]]
    {
    }

    /** BZ_UPDATE_CRC for every byte of the pending run, after those fed before. */
    method UpdateCrc(ch: byte, ghost fed: seq<byte>)
      modifies this`blockCRC
      requires blockCRC == sum.Register(fed)
      ensures blockCRC == sum.Register(fed + Repeat(ch, stateInLen))
    {
      assert fed + Repeat(ch, 0) == fed;
      for i := 0 to stateInLen
        invariant blockCRC == sum.Register(fed + Repeat(ch, i))
      {
        sum.RegisterStep(fed + Repeat(ch, i), ch);
        assert fed + Repeat(ch, i + 1) == (fed + Repeat(ch, i)) + [ch];
        blockCRC := sum.update(blockCRC, ch);
      }
    }

    /** Takes one input byte. */
    method AddCharToBlock(zchh: byte)
      requires Valid() && nblock + 5 <= block.Length && (EmptyRL() ==> runs == [])
      modifies this, block, inUse
      ensures Valid() && Content() == old(Content()) + [zchh] && !EmptyRL()
      ensures old(nblock) <= nblock <= old(nblock) + 5 && old(runs) <= runs
    {
      hide Flatten, EncodeRuns, Encodable, Checksum.Register;
      if zchh != stateInCh && stateInLen == 1 {
        AddSingle(zchh);
      } else if zchh != stateInCh || stateInLen == 255 {
        ghost var before := Content();
        if stateInCh < 256 {
          AppendRun(runs, stateInCh, stateInLen);
          AddPairToBlock();
        }
        stateInCh := zchh;
        stateInLen := 1;
        assert Content() == before + [zchh];
      } else {
        stateInLen := stateInLen + 1;
      }
    }

    /** A run of one goes into the block. */
    method StoreSingle()
      requires Valid() && nblock + 5 <= block.Length && stateInLen == 1
      modifies this`nblock, this`blockCRC, this`runs, block, inUse
      ensures Stored() && nblock == old(nblock) + 1 && Encodable(runs)
      ensures runs == old(runs) + [Run(stateInCh, 1)] && Flatten(runs) == old(Flatten(runs)) + Repeat(stateInCh, 1)
    {
      hide Flatten, EncodeRuns, Encodable, CanFollow, Checksum.Register;
      ghost var coded, used := block[..nblock], inUse[..];
      var ch: byte := stateInCh;
      AppendRun(runs, ch, 1);
      sum.RegisterStep(Flatten(runs), ch);
      blockCRC := sum.update(blockCRC, ch);
      inUse[ch] := true;
      Put(ch);
      assert EncodeRun(ch, 1) == [ch] == Repeat(ch, 1);
      RunUsed(coded, ch, 1, used, inUse[..], block[..nblock]);
      runs := runs + [Run(ch, 1)];
    }

    lemma AddedSingle(before: seq<byte>, zchh: byte)
      requires Pending() && stateInLen == 1 && stateInCh == zchh && Flatten(runs) == before
      ensures Content() == before + [zchh]
    {
      hide Flatten;
    }

    /** The fast path: a run of one ends with a different byte. */
    method AddSingle(zchh: byte)
      requires Valid() && nblock + 5 <= block.Length && zchh != stateInCh && stateInLen == 1
      modifies this, block, inUse
      ensures Valid() && Content() == old(Content()) + [zchh] && !EmptyRL()
      ensures old(nblock) <= nblock <= old(nblock) + 5 && old(runs) <= runs
    {
      hide Flatten, EncodeRuns, Encodable, Stored;
      ghost var before := Content();
      StoreSingle();
      stateInCh := zchh;
      AddedSingle(before, zchh);
    }

    /** Ends the pending run. */
    method FlushRL()
      requires Valid() && nblock + 5 <= block.Length
      modifies this, block, inUse
      ensures Valid() && EmptyRL() && stateInCh == NO_CHAR && Content() == old(Content())
      ensures old(nblock) <= nblock <= old(nblock) + 5 && old(runs) <= runs
    {
      hide Flatten, EncodeRuns, Encodable, Checksum.Register;
      if stateInCh < 256 {
        AppendRun(runs, stateInCh, stateInLen);
        AddPairToBlock();
      }
      stateInCh, stateInLen := NO_CHAR, 0;
    }

    /** Starts a new block; a pending run stays pending. */
    method PrepareNewBlock()
      requires Valid()
      modifies this`nblock, this`blockCRC, this`runs, inUse
      ensures Valid() && nblock == 0 && runs == [] && stateInCh == old(stateInCh)
      ensures PendingRun() == old(PendingRun()) && Content() == PendingRun() && EmptyRL() == old(EmptyRL())
    {
      assert [] + PendingRun() == PendingRun();
      nblock, blockCRC, runs := 0, sum.start, [];
      for i := 0 to 256
        invariant inUse.Length == 256
        modifies inUse
      {
        inUse[i] := false;
      }
    }
  }
}
