/** The bit writer of the compressor and the suspendable bit reader of the decompressor. */
module BitStream {
  import opened Sequences
  import opened Words
  import opened Powers
  import opened Bits

  class BitWriter {
    var bsBuff: nat          // 32 bits, filled from the top
    var bsLive: int
    var zbits: seq<byte>     // zbits[..numZ]
    ghost var live: seq<bool>

    constructor ()
      ensures Valid() && Written() == []
    {
      bsBuff, bsLive, zbits, live := 0, 0, [], [];
    }

    ghost predicate Valid()
      reads this
    {
      bsLive == |live| <= 32 && HoldsTop(bsBuff, live)
    }

    /** Every bit written so far. */
    ghost function Written(): seq<bool>
      reads this
    {
      BytesToBits(zbits) + live
    }

    /** `zbits[numZ] = bsBuff >> 24; numZ++; bsBuff <<= 8; bsLive -= 8;` */
    method StoreTop()
      requires HoldsTop(bsBuff, live) && |live| >= 8
      modifies this
      ensures HoldsTop(bsBuff, live) && bsLive == old(bsLive) - 8 && |live| == |old(live)| - 8 && Written() == old(Written())
    {
      HoldsTopByte(bsBuff, live);
      ghost var top, rest := live[..8], live[8..];
      BytesToBitsAppend(zbits, Value(top));
      ToBitsOfValue(top);
      assert live == top + rest;
      Associate(BytesToBits(zbits), top, rest);
      zbits := zbits + [bsBuff / 0x100_0000];
      bsBuff := bsBuff * 256 % 0x1_0000_0000;
      bsLive := bsLive - 8;
      live := rest;
    }

    /** Leaves room for a field of up to 24 bits. */
    method BsNeedW()
      requires Valid()
      modifies this
      ensures Valid() && bsLive < 8 && Written() == old(Written())
    {
      hide HoldsTop, BytesToBits;
      while bsLive >= 8
        invariant Valid() && Written() == old(Written())
        decreases bsLive
      {
        StoreTop();
      }
    }

    /** `bsBuff |= v << (32 - bsLive - n)`, into places that are still zero. */
    method Append(n: nat, v: nat)
      requires Valid() && bsLive + n <= 32 && v < Pow2(n)
      modifies this`bsBuff, this`bsLive, this`live
      ensures Valid() && bsLive == old(bsLive) + n && Written() == old(Written()) + ToBits(v, n)
    {
      hide HoldsTop, BytesToBits, Pow2, ToBits;
      HoldsTopAppend(bsBuff, live, v, n);
      Associate(BytesToBits(zbits), live, ToBits(v, n));
      bsBuff := bsBuff + v * Pow2(32 - bsLive - n);
      bsLive := bsLive + n;
      live := live + ToBits(v, n);
    }

    /** Writes an n-bit field. */
    method BsW(n: nat, v: nat)
      requires Valid() && n <= 24 && v < Pow2(n)
      modifies this
      ensures Valid() && Written() == old(Written()) + ToBits(v, n)
    {
      BsNeedW();
      Append(n, v);
    }

    /** `numZ = 0`: the bytes stored so far have been taken, and the buffer is used again. */
    method Restart()
      requires Valid()
      modifies this`zbits
      ensures Valid() && zbits == [] && BytesToBits(old(zbits)) + Written() == old(Written())
    {
      zbits := [];
      assert BytesToBits([]) + live == live;
    }

    /**
     * Stores what is left in the buffer. The zeros below the live bits go out with the last byte,
     * and bsLive may end below zero.
     */
    method BsFinishWrite()
      requires Valid()
      modifies this
      ensures old(Written()) <= BytesToBits(zbits) && |BytesToBits(zbits)| < |old(Written())| + 8
    {
      hide HoldsTop, BytesToBits, ToBits;
      ghost var written, padding := Written(), [];
      assert written + [] == written;
      while bsLive > 0
        invariant -8 < bsLive <= 32 && |padding| < 8 && written + padding == Written()
        invariant |padding| > 0 ==> bsLive <= 0
        invariant if bsLive >= 0 then Valid() else live == []
        decreases bsLive
      {
        if bsLive < 8 {
          ZerosBelow(bsBuff, live, 8 - bsLive);
          padding := ToBits(0, 8 - bsLive);
          Associate(BytesToBits(zbits), live, padding);
          live := live + padding;
        }
        StoreTop();
      }
      assert BytesToBits(zbits) + live == BytesToBits(zbits);
    }
  }

  class BitReader {
    var bsBuff: nat          // 32 bits, filled from the bottom
    var bsLive: nat
    var nextIn: seq<byte>    // the avail_in bytes at next_in
    ghost var live: seq<bool>

    constructor ()
      ensures Valid() && Unread() == []
    {
      bsBuff, bsLive, nextIn, live := 0, 0, [], [];
    }

    ghost predicate Valid()
      reads this
    {
      bsLive == |live| <= 32 && HoldsLow(bsBuff, live)
    }

    /** Every bit that has arrived and has not been read. */
    ghost function Unread(): seq<bool>
      reads this
    {
      live + BytesToBits(nextIn)
    }

    /** The application supplies more input. */
    method Supply(bytes: seq<byte>)
      requires Valid()
      modifies this
      ensures Valid() && Unread() == old(Unread()) + BytesToBits(bytes)
    {
      BytesToBitsConcat(nextIn, bytes);
      Associate(live, BytesToBits(nextIn), BytesToBits(bytes));
      nextIn := nextIn + bytes;
    }

    method LoadByte()
      requires Valid() && bsLive < 24 && nextIn != []
      modifies this
      ensures Valid() && bsLive == old(bsLive) + 8 && |nextIn| == |old(nextIn)| - 1 && Unread() == old(Unread())
    {
      hide HoldsLow, BytesToBits, ToBits;
      var c, rest := nextIn[0], nextIn[1..];
      assert nextIn == [c] + rest;
      BytesToBitsFirst(c, rest);
      Associate(live, ToBits(c, 8), BytesToBits(rest));
      HoldsLowAppend(bsBuff, live, c);
      bsBuff := (bsBuff * 256 + c) % 0x1_0000_0000;
      bsLive := bsLive + 8;
      live := live + ToBits(c, 8);
      nextIn := rest;
    }

    /** Brings in bytes until n bits are live or the input has run out. */
    method Fill(n: nat)
      requires Valid() && n <= 24
      modifies this
      ensures Valid() && Unread() == old(Unread()) && (bsLive >= n || nextIn == [])
    {
      hide HoldsLow, BytesToBits;
      while bsLive < n && nextIn != []
        invariant Valid() && Unread() == old(Unread())
        decreases |nextIn|
      {
        LoadByte();
      }
    }

    /** Takes the top n of the live bits. */
    method TakeLive(n: nat) returns (v: nat)
      requires Valid() && n <= bsLive
      modifies this`bsLive, this`live
      ensures Valid() && v == Value(old(Unread())[..n]) && Unread() == old(Unread())[n..]
    {
      hide HoldsLow, BytesToBits, Pow2, Value;
      HoldsLowTake(bsBuff, live, n);
      ghost var taken, rest := live[..n], live[n..];
      assert Unread()[..n] == taken && Unread()[n..] == rest + BytesToBits(nextIn);
      v := bsBuff / Pow2(bsLive - n) % Pow2(n);
      bsLive := bsLive - n;
      live := rest;
    }

    /**
     * Reads an n-bit field, or suspends when the input runs out; a suspended read loses nothing, so
     * it can be tried again once more input has been supplied.
     */
    method GetBits(n: nat) returns (ok: bool, v: nat)
      requires Valid() && n <= 24
      modifies this
      ensures Valid()
      ensures ok <==> |old(Unread())| >= n
      ensures ok ==> v == Value(old(Unread())[..n]) && Unread() == old(Unread())[n..]
      ensures !ok ==> Unread() == old(Unread()) && nextIn == []
    {
      hide HoldsLow, Pow2, Value;
      Fill(n);
      ok, v := bsLive >= n, 0;
      if ok { v := TakeLive(n); }
    }
  }

  /** One field of a bit stream. */
  datatype Field = Field(n: nat, v: nat) {
    ghost predicate Fits() {
      1 <= n <= 24 && v < Pow2(n)
    }
  }

  /** The bits of fields written one after another. */
  ghost function FieldBits(fields: seq<Field>): seq<bool> {
    if fields == [] then [] else FieldBits(fields[..|fields| - 1]) + ToBits(fields[|fields| - 1].v, fields[|fields| - 1].n)
  }

  lemma {:induction false} FieldBitsFirst(fields: seq<Field>)
    requires fields != []
    ensures FieldBits(fields) == ToBits(fields[0].v, fields[0].n) + FieldBits(fields[1..])
  {
    var n := |fields| - 1;
    if n > 0 {
      FieldBitsFirst(fields[..n]);
      assert fields[..n][1..] == fields[1..][..n - 1];
      Associate(ToBits(fields[0].v, fields[0].n), FieldBits(fields[1..][..n - 1]), ToBits(fields[n].v, fields[n].n));
    }
  }

  method WriteFields(w: BitWriter, fields: seq<Field>)
    requires w.Valid() && forall i :: 0 <= i < |fields| ==> fields[i].Fits()
    modifies w
    ensures w.Valid() && w.Written() == old(w.Written()) + FieldBits(fields)
  {
    for i := 0 to |fields|
      invariant w.Valid() && w.Written() == old(w.Written()) + FieldBits(fields[..i])
    {
      w.BsW(fields[i].n, fields[i].v);
      assert fields[..i + 1][..i] == fields[..i];
      Associate(old(w.Written()), FieldBits(fields[..i]), ToBits(fields[i].v, fields[i].n));
    }
    assert fields[..|fields|] == fields;
  }

  /** Reads one field, supplying further pieces of input as long as the reader suspends. */
  method ReadField(r: BitReader, field: Field, chunks: seq<seq<byte>>, c0: nat, ghost rest: seq<bool>) returns (ok: bool, v: nat, c: nat)
    requires r.Valid() && field.Fits() && c0 <= |chunks|
    requires ToBits(field.v, field.n) + rest <= r.Unread() + BytesToBits(Joined(chunks[c0..]))
    modifies r
    ensures r.Valid() && ok && v == field.v && c0 <= c <= |chunks|
    ensures rest <= r.Unread() + BytesToBits(Joined(chunks[c..]))
  {
    hide BytesToBits, ToBits;
    c := c0;
    ghost var bits := ToBits(field.v, field.n) + rest;
    while true
      invariant c0 <= c <= |chunks| && r.Valid()
      invariant bits <= r.Unread() + BytesToBits(Joined(chunks[c..]))
      decreases |chunks| - c
    {
      ghost var all := r.Unread() + BytesToBits(Joined(chunks[c..]));
      FieldIsPrefix(field, rest, r.Unread(), BytesToBits(Joined(chunks[c..])));
      ok, v := r.GetBits(field.n);
      if ok { return; }
      if c == |chunks| {
        NothingJoined();
        return;
      }
      SupplyNext(r.Unread(), chunks, c);
      r.Supply(chunks[c]);
      c := c + 1;
    }
  }

  lemma NothingJoined()
    ensures BytesToBits(Joined([])) == []
  {
  }

  lemma FieldIsPrefix(field: Field, rest: seq<bool>, unread: seq<bool>, later: seq<bool>)
    requires field.Fits() && ToBits(field.v, field.n) + rest <= unread + later
    ensures |unread| >= field.n ==> Value(unread[..field.n]) == field.v && rest <= unread[field.n..] + later
    ensures later == [] ==> |unread| >= field.n
  {
    if |unread| >= field.n {
      ValueOfToBits(field.v, field.n);
      assert unread[..field.n] == (unread + later)[..field.n] == (ToBits(field.v, field.n) + rest)[..field.n] == ToBits(field.v, field.n);
      assert unread[field.n..] + later == (unread + later)[field.n..];
      assert rest == (ToBits(field.v, field.n) + rest)[field.n..];
    }
  }

  lemma SupplyNext(unread: seq<bool>, chunks: seq<seq<byte>>, c: nat)
    requires c < |chunks|
    ensures unread + BytesToBits(Joined(chunks[c..])) == (unread + BytesToBits(chunks[c])) + BytesToBits(Joined(chunks[c + 1..]))
  {
    assert chunks[c..][1..] == chunks[c + 1..];
    BytesToBitsConcat(chunks[c], Joined(chunks[c + 1..]));
    Associate(unread, BytesToBits(chunks[c]), BytesToBits(Joined(chunks[c + 1..])));
  }

  /**
   * Reads fields of known widths from input that arrives in arbitrary pieces, going on with the next
   * piece whenever the reader suspends.
   */
  method ReadFields(r: BitReader, fields: seq<Field>, chunks: seq<seq<byte>>) returns (vs: seq<nat>)
    requires r.Valid() && forall i :: 0 <= i < |fields| ==> fields[i].Fits()
    requires FieldBits(fields) <= r.Unread() + BytesToBits(Joined(chunks))
    modifies r
    ensures |vs| == |fields| && forall i :: 0 <= i < |fields| ==> vs[i] == fields[i].v
  {
    hide BytesToBits, ToBits, Joined, FieldBits;
    vs := [];
    var c := 0;
    assert fields[0..] == fields && chunks[0..] == chunks;
    for i := 0 to |fields|
      invariant c <= |chunks| && |vs| == i && r.Valid()
      invariant FieldBits(fields[i..]) <= r.Unread() + BytesToBits(Joined(chunks[c..]))
      invariant forall k :: 0 <= k < i ==> vs[k] == fields[k].v
    {
      FieldBitsFirst(fields[i..]);
      assert fields[i..][1..] == fields[i + 1..];
      var ok, v;
      ok, v, c := ReadField(r, fields[i], chunks, c, FieldBits(fields[i + 1..]));
      vs := vs + [v];
    }
  }

  ghost function Joined(chunks: seq<seq<byte>>): seq<byte> {
    if chunks == [] then [] else chunks[0] + Joined(chunks[1..])
  }
}
