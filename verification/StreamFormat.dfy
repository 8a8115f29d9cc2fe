/** A whole compressed stream: header, blocks and trailer. */
module StreamFormat {
  import opened Sequences
  import opened Words
  import opened Checksums
  import opened RunCoding
  import opened BurrowsWheeler
  import opened BlockFormat
  import opened BlockSender

  /** One block as it was sent. */
  datatype Sent = Sent(crc: seq<byte>, origPtr: nat, body: Body, column: seq<byte>, runs: seq<Run>) {
    ghost predicate Ok(sum: Checksum, nblockMAX: nat) {
      && body.Valid() && Carries(body, body.inUse, column) && origPtr < |column| <= nblockMAX
      && Encodable(runs) && Unsorted(column, origPtr, |column|) == EncodeRuns(runs)
      && crc == sum.OfBytes(Flatten(runs))
    }

    ghost function Bits(): seq<bool>
      requires body.Valid()
    {
      BlockHeaderBits(crc, origPtr) + body.Encoding()
    }
  }

  ghost predicate AllOk(sent: seq<Sent>, sum: Checksum, nblockMAX: nat) {
    forall i :: 0 <= i < |sent| ==> sent[i].Ok(sum, nblockMAX)
  }

  ghost function BlocksBits(sent: seq<Sent>, i: nat): seq<bool>
    requires i <= |sent| && forall k :: 0 <= k < |sent| ==> sent[k].body.Valid()
    decreases |sent| - i
  {
    if i == |sent| then [] else sent[i].Bits() + BlocksBits(sent, i + 1)
  }

  /** The bytes that the first n blocks stand for. */
  ghost function BytesOf(sent: seq<Sent>, n: nat): seq<byte>
    requires n <= |sent|
  {
    if n == 0 then [] else BytesOf(sent, n - 1) + Flatten(sent[n - 1].runs)
  }

  ghost function Combined(sum: Checksum, sent: seq<Sent>, n: nat): seq<byte>
    requires n <= |sent|
  {
    if n == 0 then [0, 0, 0, 0] else sum.combine(Combined(sum, sent, n - 1), sent[n - 1].crc)
  }

  function FileMagic(blockSize100k: nat): seq<byte>
    requires 1 <= blockSize100k <= 9
  {
    [0x42, 0x5A, 0x68, 0x30 + blockSize100k]
  }

  function EndMagic(): seq<byte> {
    [0x17, 0x72, 0x45, 0x38, 0x50, 0x90]
  }

  /** The bits of a stream up to the end of its blocks. */
  ghost function StreamSoFar(blockSize100k: nat, sent: seq<Sent>): seq<bool>
    requires 1 <= blockSize100k <= 9 && forall k :: 0 <= k < |sent| ==> sent[k].body.Valid()
  {
    BytesFrom(FileMagic(blockSize100k), 0) + BlocksBits(sent, 0)
  }

  /** The bits of a finished stream. */
  ghost function WholeStream(blockSize100k: nat, sum: Checksum, sent: seq<Sent>): seq<bool>
    requires 1 <= blockSize100k <= 9 && forall k :: 0 <= k < |sent| ==> sent[k].body.Valid()
  {
    StreamSoFar(blockSize100k, sent) + BytesFrom(EndMagic() + Combined(sum, sent, |sent|), 0)
  }

  lemma {:induction false} BlocksBitsAppend(sent: seq<Sent>, s: Sent, i: nat)
    requires i <= |sent| && s.body.Valid() && forall k :: 0 <= k < |sent| ==> sent[k].body.Valid()
    ensures BlocksBits(sent + [s], i) == BlocksBits(sent, i) + s.Bits()
    decreases |sent| - i
  {
    hide Body.Valid, Body.Encoding, BlockHeaderBits;
    var all := sent + [s];
    if i < |sent| {
      BlocksBitsAppend(sent, s, i + 1);
      Associate(sent[i].Bits(), BlocksBits(sent, i + 1), s.Bits());
    } else {
      assert BlocksBits(all, i + 1) == [];
      assert s.Bits() + [] == s.Bits();
    }
  }

  lemma {:induction false} PrefixFacts(sum: Checksum, sent: seq<Sent>, s: Sent, n: nat)
    requires n <= |sent|
    ensures BytesOf(sent + [s], n) == BytesOf(sent, n) && Combined(sum, sent + [s], n) == Combined(sum, sent, n)
  {
    if n > 0 { PrefixFacts(sum, sent, s, n - 1); }
  }
}
