/** The fast and the small-memory decoders deliver the same bytes for every column. */
module DecodersAgree {
  import opened Words
  import opened RunCoding
  import opened Checksums
  import opened BurrowsWheeler
  import FastInverse
  import SmallInverse

  /** Delivers a whole block into output space in pieces of any size, and then goes on with pieces of at least one byte. */
  method DeliverAll(d: FastInverse.Decoder, rooms: seq<nat>, more: nat -> nat) returns (corrupt: bool)
    requires d.Valid() && d.output == [] && d.AllOutput() == Expand(d.block, d.extra)
    modifies d
    ensures Expand(d.block, d.extra) == Expansion(d.output, !corrupt)
  {
    hide Expand, FastInverse.Decoder.Valid, FastInverse.Decoder.AllOutput;
    var calls := 0;
    FastInverse.PrefixOfAll(d);
    while true
      invariant d.Valid() && d.AllOutput() == Expand(d.block, d.extra) && d.output <= Expand(d.block, d.extra).bytes
      decreases if calls < |rooms| then |rooms| - calls else 0, |Expand(d.block, d.extra).bytes| - |d.output|
    {
      d.Provide(if calls < |rooms| then rooms[calls] else 1 + more(calls));
      corrupt := d.UnRleObufToOutput();
      if corrupt || d.availOut > 0 { return; }
      FastInverse.PrefixOfAll(d);
      calls := calls + 1;
    }
  }

  method DeliverAllSmall(d: SmallInverse.Decoder, rooms: seq<nat>, more: nat -> nat) returns (corrupt: bool)
    requires d.Valid() && d.output == [] && d.AllOutput() == Expand(d.block, d.extra)
    modifies d
    ensures Expand(d.block, d.extra) == Expansion(d.output, !corrupt)
  {
    hide Expand, SmallInverse.Decoder.Valid, SmallInverse.Decoder.AllOutput;
    var calls := 0;
    PrefixOfAllSmall(d);
    while true
      invariant d.Valid() && d.AllOutput() == Expand(d.block, d.extra) && d.output <= Expand(d.block, d.extra).bytes
      decreases if calls < |rooms| then |rooms| - calls else 0, |Expand(d.block, d.extra).bytes| - |d.output|
    {
      d.Provide(if calls < |rooms| then rooms[calls] else 1 + more(calls));
      corrupt := d.UnRleObufToOutput();
      if corrupt || d.availOut > 0 { return; }
      PrefixOfAllSmall(d);
      calls := calls + 1;
    }
  }

  lemma PrefixOfAllSmall(d: SmallInverse.Decoder)
    requires d.Valid()
    ensures d.output <= d.AllOutput().bytes
  {
  }

  /** The bucket starts of a column. */
  method Buckets(l: seq<byte>) returns (cftab: array<int>)
    ensures fresh(cftab) && cftab.Length == 257 && forall c :: 0 <= c <= 256 ==> cftab[c] == Smaller(l, c, |l|)
  {
    var unzftab := new int[256](_ => 0);
    cftab := new int[257];
    forall c ensures Count(l, c, 0) == 0 {}
    for i := 0 to |l|
      invariant forall c :: 0 <= c < 256 ==> unzftab[c] == Count(l, c, i)
    {
      unzftab[l[i]] := unzftab[l[i]] + 1;
    }
    var ok := FastInverse.SetUpCftab(unzftab, cftab, |l|, l);
  }

  method FastBytes(l: seq<byte>, origPtr: nat, blockSize100k: nat, sum: Checksum, rooms: seq<nat>, more: nat -> nat) returns (output: seq<byte>, corrupt: bool)
    requires 1 <= blockSize100k <= 9 && origPtr < |l| <= 100_000 * blockSize100k
    ensures Expand(Unsorted(l, origPtr, |l|), Fetched(l, origPtr, |l|)) == Expansion(output, !corrupt)
  {
    hide Expand, Fetched, Unsorted, Smaller, FastInverse.Decoder.Valid, FastInverse.Decoder.AllOutput;
    var tt := new u32[100_000 * blockSize100k](i requires 0 <= i => if i < |l| then l[i] else 0);
    var cftab := Buckets(l);
    var d := new FastInverse.Decoder(tt, cftab, blockSize100k, |l|, origPtr, sum, l);
    corrupt := DeliverAll(d, rooms, more);
    output := d.output;
  }

  method SmallBytes(l: seq<byte>, origPtr: nat, blockSize100k: nat, sum: Checksum, rooms: seq<nat>, more: nat -> nat) returns (output: seq<byte>, corrupt: bool)
    requires 1 <= blockSize100k <= 9 && origPtr < |l| <= 100_000 * blockSize100k
    ensures Expand(Unsorted(l, origPtr, |l|), Fetched(l, origPtr, |l|)) == Expansion(output, !corrupt)
  {
    hide Expand, Fetched, Unsorted, Smaller, SmallInverse.Decoder.Valid, SmallInverse.Decoder.AllOutput;
    var v := new SmallInverse.PackedVector(100_000 * blockSize100k);
    for i := 0 to |l|
      invariant v.Valid() && forall k :: 0 <= k < i ==> v.ll16[k] == l[k]
    {
      v.ll16[i] := l[i];
    }
    var cftab := Buckets(l);
    var cftabCopy := new int[257];
    var d := new SmallInverse.Decoder(v, cftab, cftabCopy, blockSize100k, |l|, origPtr, sum, l);
    corrupt := DeliverAllSmall(d, rooms, more);
    output := d.output;
  }

  /** For any column and any start row inside it, whatever the output pieces. */
  method DecodeBothWays(l: seq<byte>, origPtr: nat, blockSize100k: nat, sum: Checksum, fastRooms: seq<nat>, smallRooms: seq<nat>, more: nat -> nat)
    returns (fast: seq<byte>, fastCorrupt: bool, small: seq<byte>, smallCorrupt: bool)
    requires 1 <= blockSize100k <= 9 && origPtr < |l| <= 100_000 * blockSize100k
    ensures fast == small && fastCorrupt == smallCorrupt
    ensures Expand(Unsorted(l, origPtr, |l|), Fetched(l, origPtr, |l|)) == Expansion(fast, !fastCorrupt)
  {
    hide Expand, Fetched, Unsorted;
    fast, fastCorrupt := FastBytes(l, origPtr, blockSize100k, sum, fastRooms, more);
    small, smallCorrupt := SmallBytes(l, origPtr, blockSize100k, sum, smallRooms, more);
  }
}
