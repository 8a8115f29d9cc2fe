/** How long a compressed block can become: it fits behind the block it was made from. */
module BlockSize {
  import opened Words
  import opened Bits
  import opened ByteMaps
  import opened MoveToFront
  import opened CanonicalHuffman
  import opened SymbolCoding
  import opened BlockFormat
  import opened BlockSender

  // ---------- Symbols ----------

  /** Every symbol stands for at least one byte. */
  lemma {:induction false} ReachAtLeast(st: Flat, syms: seq<nat>)
    requires st.list != [] && st.place >= 1 && forall i :: 0 <= i < |syms| ==> syms[i] <= |st.list|
    ensures Read(st, syms).place >= 1 && |Read(st, syms).out| + Read(st, syms).run >= |st.out| + st.run + |syms|
    decreases |syms|
  {
    if syms != [] {
      var init := syms[..|syms| - 1];
      ReachAtLeast(st, init);
      assert syms == init + [syms[|syms| - 1]];
      ReadOne(st, init, syms[|syms| - 1]);
    }
  }

  /** There is at most one symbol for each byte of the column, and the end mark. */
  lemma FewSymbols(body: Body, u: seq<bool>, l: seq<byte>)
    requires Carries(body, u, l)
    ensures |body.syms| <= |l| + 1
  {
    hide Rank, Ranks, Decoded, Start, Body.Valid, Sendable;
    RankBound(u);
    DecodedSize(body.syms[..|body.syms| - 1]);
    assert |Ranks(u, l)| == |l|;
  }

  lemma DecodedSize(syms: seq<nat>)
    requires forall i :: 0 <= i < |syms| ==> syms[i] <= 256
    ensures |Decoded(syms)| >= |syms|
  {
    hide Read;
    ReachAtLeast(Start(), syms);
  }

  lemma {:induction false} SymbolsSize(lens: seq<seq<int>>, selector: seq<nat>, k: nat, syms: seq<nat>)
    ensures |SymbolBits(lens, selector, k, syms)| <= LONGEST_CODE * |syms|
    decreases |syms|
  {
    hide Code, ToBits;
    if syms != [] {
      SymbolSize(lens, selector, k, syms[0]);
      SymbolsSize(lens, selector, k + 1, syms[1..]);
    }
  }

  lemma SymbolSize(lens: seq<seq<int>>, selector: seq<nat>, k: nat, sym: nat)
    ensures |SymbolCode(lens, selector, k, sym)| <= LONGEST_CODE
  {
    hide Code;
  }

  // ---------- Tables ----------

  lemma {:induction false} MovesSize(curr: int, len: int)
    requires 1 <= curr <= LONGEST_CODE && 1 <= len <= LONGEST_CODE
    ensures |Moves(curr, len)| == 2 * (if curr < len then len - curr else curr - len) + 1
    decreases if curr < len then len - curr else curr - len
  {
    if curr < len { MovesSize(curr + 1, len); } else if curr > len { MovesSize(curr - 1, len); }
  }

  lemma {:induction false} LengthsSize(len: seq<int>, curr: int, i: nat)
    requires Lengths(len) && i <= |len| && 1 <= curr <= LONGEST_CODE
    ensures |LengthBits(len, curr, i)| <= 39 * (|len| - i)
    decreases |len| - i
  {
    if i < |len| {
      MovesSize(curr, len[i]);
      LengthsSize(len, len[i], i + 1);
    }
  }

  lemma {:induction false} TablesSize(lens: seq<seq<int>>, t: nat)
    requires t <= |lens| && forall t :: 0 <= t < |lens| ==> Lengths(lens[t]) && lens[t] != []
    ensures |TablesBits(lens, t)| <= 10_067 * (|lens| - t)
    decreases |lens| - t
  {
    if t < |lens| {
      LengthsSize(lens[t], lens[t][0], 0);
      TablesSize(lens, t + 1);
    }
  }

  // ---------- Selectors and mapping table ----------

  lemma {:induction false} UnarySize(j: nat)
    ensures |Unary(j)| == j + 1
  {
    if j > 0 { UnarySize(j - 1); }
  }

  lemma {:induction false} PositionsSize(js: seq<nat>, i: nat)
    requires i <= |js| && forall k :: 0 <= k < |js| ==> js[k] < 6
    ensures |UnaryBits(js, i)| <= 6 * (|js| - i)
    decreases |js| - i
  {
    if i < |js| {
      UnarySize(js[i]);
      PositionsSize(js, i + 1);
    }
  }

  lemma {:induction false} MappingSize(u: seq<bool>, i: nat)
    requires |u| == 256 && i <= 16
    ensures |FlagBits(u, i)| == 16 - i && |RowBits(u, i)| <= 16 * (16 - i)
    decreases 16 - i
  {
    if i < 16 { MappingSize(u, i + 1); }
  }

  // ---------- Blocks ----------

  /** The most that everything but the symbols can take. */
  const MOST_TABLES := 168_704

  /** The most that a block can take besides twenty bits for each of its bytes. */
  const BLOCK_MOST := MOST_TABLES + LONGEST_CODE + 105

  lemma BodySize(body: Body)
    requires body.Valid()
    ensures |body.Encoding()| <= MOST_TABLES + LONGEST_CODE * |body.syms|
  {
    hide Decodable, Positions, FlagBits, RowBits, UnaryBits, TablesBits, SymbolBits, ToBits, Lengths;
    TablesAreLengths(body.lens);
    PlacesBelow(body);
    MappingSize(body.inUse, 0);
    PositionsSize(body.positions, 0);
    TablesSize(body.lens, 0);
    SymbolsSize(body.lens, body.selector, 0, body.syms);
  }

  lemma TablesAreLengths(lens: seq<seq<int>>)
    requires forall t :: 0 <= t < |lens| ==> Decodable(lens[t]) && lens[t] != []
    ensures forall t :: 0 <= t < |lens| ==> Lengths(lens[t])
  {
    hide Kraft, Lengths;
    forall t | 0 <= t < |lens| ensures Lengths(lens[t]) { assert Decodable(lens[t]); }
  }

  lemma PlacesBelow(body: Body)
    requires body.Valid()
    ensures |body.positions| == |body.selector| && forall k :: 0 <= k < |body.positions| ==> body.positions[k] < 6
  {
    hide Decodable, TablesAfter;
  }

  lemma {:induction false} BytesSize(s: seq<byte>, i: nat)
    requires i <= |s|
    ensures |BytesFrom(s, i)| == 8 * (|s| - i)
    decreases |s| - i
  {
    if i < |s| { BytesSize(s, i + 1); }
  }

  /** The bits of a block that was sent, by the length of its column. */
  lemma SentSize(crc: seq<byte>, origPtr: nat, body: Body, l: seq<byte>)
    requires body.Valid() && Carries(body, body.inUse, l) && |crc| == 4
    ensures |BlockHeaderBits(crc, origPtr) + body.Encoding()| <= BLOCK_MOST + 20 * |l|
  {
    hide Body.Encoding, Body.Valid, Carries, BytesFrom, ToBits;
    FewSymbols(body, body.inUse, l);
    BodySize(body);
    BytesSize(BlockMagic() + crc, 0);
  }
}
