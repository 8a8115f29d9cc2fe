/** Sending a block's tables and symbols. */
module BlockWriter {
  import opened Sequences
  import opened Words
  import opened Bits
  import opened BitStream
  import opened MoveToFront
  import opened CanonicalHuffman
  import opened HuffmanTables
  import opened HuffmanLengths
  import opened SymbolCoding
  import opened BlockFormat

  method SendBit(w: BitWriter, b: bool)
    requires w.Valid()
    modifies w
    ensures w.Valid() && w.Written() == old(w.Written()) + [b]
  {
    hide BytesToBits;
    BitField(b);
    TwoBits();
    if b { w.BsW(1, 1); } else { w.BsW(1, 0); }
  }

  /** Whether a byte of row i is in use. */
  method AnyInRow(inUse: array<bool>, i: nat) returns (any: bool)
    requires inUse.Length == 256 && i < 16
    ensures any == RowUsed(inUse[..], i)
  {
    any := false;
    ghost var row := inUse[..][16 * i..16 * i + 16];
    for j := 0 to 16
      invariant any <==> true in row[..j]
    {
      assert row[j] == inUse[16 * i + j];
      if inUse[16 * i + j] { any := true; }
    }
  }

  method SendMapping(w: BitWriter, inUse: array<bool>)
    requires w.Valid() && inUse.Length == 256
    modifies w
    ensures w.Valid() && w.Written() == old(w.Written()) + (FlagBits(inUse[..], 0) + RowBits(inUse[..], 0))
  {
    hide RowUsed, BitWriter.Written, BitWriter.Valid, FlagBits, RowBits;
    ghost var u := inUse[..];
    var inUse16 := FindRows(inUse);
    SendFlags(w, inUse16, u);
    Associate(old(w.Written()), FlagBits(u, 0), RowBits(u, 0));
    SendRows(w, inUse16, inUse);
  }

  /** The rows that are used. */
  method FindRows(inUse: array<bool>) returns (inUse16: array<bool>)
    requires inUse.Length == 256
    ensures fresh(inUse16) && inUse16.Length == 16 && forall k :: 0 <= k < 16 ==> inUse16[k] == RowUsed(inUse[..], k)
  {
    hide RowUsed;
    ghost var u := inUse[..];
    inUse16 := new bool[16];
    for i := 0 to 16
      invariant inUse[..] == u && forall k :: 0 <= k < i ==> inUse16[k] == RowUsed(u, k)
    {
      inUse16[i] := AnyInRow(inUse, i);
    }
  }

  method SendFlags(w: BitWriter, inUse16: array<bool>, ghost u: seq<bool>)
    requires w.Valid() && inUse16.Length == 16 && |u| == 256 && forall k :: 0 <= k < 16 ==> inUse16[k] == RowUsed(u, k)
    modifies w
    ensures w.Valid() && w.Written() == old(w.Written()) + FlagBits(u, 0)
  {
    hide RowUsed, BitWriter.Written, BitWriter.Valid;
    for i := 0 to 16
      invariant w.Valid() && w.Written() + FlagBits(u, i) == old(w.Written()) + FlagBits(u, 0)
    {
      Associate(w.Written(), [RowUsed(u, i)], FlagBits(u, i + 1));
      SendBit(w, inUse16[i]);
    }
    assert w.Written() + [] == w.Written();
  }

  method SendRows(w: BitWriter, inUse16: array<bool>, inUse: array<bool>)
    requires w.Valid() && inUse16.Length == 16 && inUse.Length == 256 && forall k :: 0 <= k < 16 ==> inUse16[k] == RowUsed(inUse[..], k)
    modifies w
    ensures w.Valid() && w.Written() == old(w.Written()) + RowBits(inUse[..], 0)
  {
    hide RowUsed, BitWriter.Written, BitWriter.Valid;
    ghost var u := inUse[..];
    for i := 0 to 16
      invariant w.Valid() && w.Written() + RowBits(u, i) == old(w.Written()) + RowBits(u, 0)
    {
      if inUse16[i] {
        Associate(w.Written(), u[16 * i..16 * i + 16], RowBits(u, i + 1));
        SendRow(w, inUse, i);
      } else {
        assert [] + RowBits(u, i + 1) == RowBits(u, i + 1);
      }
    }
    assert w.Written() + [] == w.Written();
  }

  method SendRow(w: BitWriter, inUse: array<bool>, i: nat)
    requires w.Valid() && inUse.Length == 256 && i < 16
    modifies w
    ensures w.Valid() && w.Written() == old(w.Written()) + inUse[16 * i..16 * i + 16]
  {
    hide BitWriter.Written, BitWriter.Valid;
    for j := 0 to 16
      invariant w.Valid() && w.Written() == old(w.Written()) + inUse[16 * i..16 * i + j]
    {
      SendBit(w, inUse[16 * i + j]);
      Associate(old(w.Written()), inUse[16 * i..16 * i + j], [inUse[16 * i + j]]);
      assert inUse[16 * i..16 * i + j + 1] == inUse[16 * i..16 * i + j] + [inUse[16 * i + j]];
    }
  }

  /** Turns selected tables into positions in a list that each selection reorders. */
  method SelectorPositions(selector: seq<nat>, nGroups: nat) returns (js: seq<nat>)
    requires 2 <= nGroups <= 6 && forall i :: 0 <= i < |selector| ==> selector[i] < nGroups
    ensures Positions(nGroups, js, selector)
  {
    var pos := new nat[6];
    for i := 0 to nGroups
      invariant forall k :: 0 <= k < i ==> pos[k] == k
    {
      pos[i] := i;
    }
    js := [];
    assert pos[..nGroups] == TablesAfter(nGroups, js, 0);
    hide TablesAfter, Placed, ToFront;
    assert Placed(nGroups, js, selector) by { PlacedNone(nGroups, selector); }
    for i := 0 to |selector|
      invariant |js| == i && (forall k :: 0 <= k < i ==> js[k] < nGroups)
      invariant pos[..nGroups] == TablesAfter(nGroups, js, i) && Placed(nGroups, js, selector)
    {
      AllTables(nGroups, js, i);
      ghost var list := pos[..nGroups];
      var j := MoveUp(pos, selector[i], nGroups);
      assert list[j] == selector[i];
      PlacedStep(nGroups, js, selector, j);
      js := js + [j];
    }
  }

  lemma PlacedNone(nGroups: nat, selector: seq<nat>)
    ensures Placed(nGroups, [], selector)
  {
  }

  lemma {:induction false} AllTables(nGroups: nat, js: seq<nat>, m: nat)
    requires m <= |js| && forall i :: 0 <= i < m ==> js[i] < nGroups
    ensures forall t :: 0 <= t < nGroups ==> t in TablesAfter(nGroups, js, m)
  {
    if m == 0 {
      forall t | 0 <= t < nGroups ensures t in TablesAfter(nGroups, js, 0) { assert TablesAfter(nGroups, js, 0)[t] == t; }
    } else {
      AllTables(nGroups, js, m - 1);
      var list, j := TablesAfter(nGroups, js, m - 1), js[m - 1];
      forall t | 0 <= t < nGroups ensures t in ToFront(list, j) {
        assert t in list;
        var k :| 0 <= k < nGroups && list[k] == t;
        assert ToFront(list, j)[if k == j then 0 else if k < j then k + 1 else k] == t;
      }
    }
  }

  /** Finds a table in the list, moving down those before it. */
  method MoveUp(pos: array<nat>, t: nat, ghost n: nat) returns (j: nat)
    requires 1 <= n <= pos.Length && t in pos[..n]
    modifies pos
    ensures j < n && old(pos[j]) == t && pos[..n] == ToFront(old(pos[..n]), j)
  {
    ghost var s := pos[..];
    ghost var k :| 0 <= k < n && s[k] == t;
    j := 0;
    var tmp := pos[0];
    while t != tmp
      invariant 0 <= j <= k && tmp == s[j] && pos.Length == |s| && j < n
      invariant forall q :: 1 <= q <= j ==> pos[q] == s[q - 1]
      invariant forall q :: j < q < |s| ==> pos[q] == s[q]
      invariant forall q :: 0 <= q < j ==> s[q] != t
      decreases k - j
    {
      j := j + 1;
      var tmp2 := tmp;
      tmp := pos[j];
      pos[j] := tmp2;
    }
    pos[0] := tmp;
    assert pos[..n] == ToFront(s[..n], j);
  }

  method SendSelectors(w: BitWriter, nGroups: nat, js: seq<nat>)
    requires w.Valid() && 2 <= nGroups <= 6 && |js| < 0x8000
    modifies w
    ensures w.Valid() && w.Written() == old(w.Written()) + (ToBits(nGroups, 3) + (ToBits(|js|, 15) + UnaryBits(js, 0)))
  {
    hide BitWriter.Written, BitWriter.Valid, ToBits, UnaryBits;
    FieldSizes();
    w.BsW(3, nGroups);
    w.BsW(15, |js|);
    ghost var before := w.Written();
    Associate(old(w.Written()), ToBits(nGroups, 3), ToBits(|js|, 15));
    for i := 0 to |js|
      invariant w.Valid() && w.Written() + UnaryBits(js, i) == before + UnaryBits(js, 0)
    {
      UnaryStep(js, i);
      Associate(w.Written(), Unary(js[i]), UnaryBits(js, i + 1));
      SendUnary(w, js[i]);
    }
    UnaryStep(js, |js|);
    assert w.Written() + [] == w.Written();
    Associate(ToBits(nGroups, 3), ToBits(|js|, 15), UnaryBits(js, 0));
    Associate(old(w.Written()), ToBits(nGroups, 3) + ToBits(|js|, 15), UnaryBits(js, 0));
  }

  lemma UnaryStep(js: seq<nat>, i: nat)
    requires i <= |js|
    ensures UnaryBits(js, i) == if i == |js| then [] else Unary(js[i]) + UnaryBits(js, i + 1)
  {
  }

  method SendUnary(w: BitWriter, n: nat)
    requires w.Valid()
    modifies w
    ensures w.Valid() && w.Written() == old(w.Written()) + Unary(n)
  {
    hide BitWriter.Written, BitWriter.Valid;
    for j := 0 to n
      invariant w.Valid() && w.Written() + Unary(n - j) == old(w.Written()) + Unary(n)
    {
      Associate(w.Written(), [true], Unary(n - j - 1));
      SendBit(w, true);
    }
    SendBit(w, false);
  }

  /** Sends one table of code lengths as steps from each to the next. */
  method SendTable(w: BitWriter, len: seq<int>)
    requires w.Valid() && Lengths(len) && len != []
    modifies w
    ensures w.Valid() && w.Written() == old(w.Written()) + TableBits(len)
  {
    hide BitWriter.Written, BitWriter.Valid, ToBits, Moves;
    FieldSizes();
    var curr := len[0];
    w.BsW(5, curr);
    Associate(old(w.Written()), ToBits(len[0], 5), LengthBits(len, len[0], 0));
    for i := 0 to |len|
      invariant w.Valid() && w.Written() + LengthBits(len, curr, i) == old(w.Written()) + TableBits(len)
    {
      Associate(w.Written(), Moves(curr, len[i]), LengthBits(len, len[i], i + 1));
      SendMoves(w, curr, len[i]);
      curr := len[i];
    }
    assert w.Written() + [] == w.Written();
  }

  method SendMoves(w: BitWriter, curr0: int, len: int)
    requires w.Valid()
    modifies w
    ensures w.Valid() && w.Written() == old(w.Written()) + Moves(curr0, len)
  {
    hide BitWriter.Written, BitWriter.Valid, ToBits;
    TwoBits();
    var curr := curr0;
    ghost var goal := old(w.Written()) + Moves(curr0, len);
    while curr < len
      invariant w.Valid() && w.Written() + Moves(curr, len) == goal
      invariant curr0 <= len ==> curr <= len
    {
      Associate(w.Written(), [true, false], Moves(curr + 1, len));
      w.BsW(2, 2);
      curr := curr + 1;
    }
    while curr > len
      invariant w.Valid() && w.Written() + Moves(curr, len) == goal
      invariant curr >= len
    {
      Associate(w.Written(), [true, true], Moves(curr - 1, len));
      w.BsW(2, 3);
      curr := curr - 1;
    }
    SendBit(w, false);
  }

  method SendTables(w: BitWriter, lens: seq<seq<int>>)
    requires w.Valid() && forall t :: 0 <= t < |lens| ==> Lengths(lens[t]) && lens[t] != []
    modifies w
    ensures w.Valid() && w.Written() == old(w.Written()) + TablesBits(lens, 0)
  {
    hide BitWriter.Written, BitWriter.Valid, TableBits;
    for t := 0 to |lens|
      invariant w.Valid() && w.Written() + TablesBits(lens, t) == old(w.Written()) + TablesBits(lens, 0)
    {
      Associate(w.Written(), TableBits(lens[t]), TablesBits(lens, t + 1));
      SendTable(w, lens[t]);
    }
    assert w.Written() + [] == w.Written();
  }

  ghost predicate AssignedTo(code: array<int>, len: seq<int>)
    reads code
  {
    Lengths(len) && code.Length >= |len| && forall i :: 0 <= i < |len| ==> code[i] == Code(len, i)
  }

  /** The canonical codes of every table, from their lengths alone. */
  ghost predicate Assigned(codes: seq<array<int>>, lens: seq<seq<int>>)
    reads set t | 0 <= t < |codes| :: codes[t]
  {
    && |codes| == |lens|
    && forall t :: 0 <= t < |lens| ==> AssignedTo(codes[t], lens[t])
  }

  /** Sends symbols in groups of fifty, each group with its selected table. */
  method SendSymbols(w: BitWriter, codes: seq<array<int>>, lens: seq<seq<int>>, selector: seq<nat>, mtfv: seq<nat>) returns (selCtr: nat)
    requires w.Valid() && Sendable(lens, selector, 0, mtfv)
    requires Assigned(codes, lens)
    modifies w
    ensures w.Valid() && w.Written() == old(w.Written()) + SymbolBits(lens, selector, 0, mtfv)
    ensures G_SIZE * (selCtr - 1) < |mtfv| <= G_SIZE * selCtr
  {
    hide BitWriter.Written, BitWriter.Valid, Sendable, SymbolCode, SymbolBits;
    ghost var goal := old(w.Written()) + SymbolBits(lens, selector, 0, mtfv);
    assert mtfv[0..] == mtfv;
    selCtr := 0;
    var gs := 0;
    while true
      invariant w.Valid() && 0 <= gs <= |mtfv| && G_SIZE * (selCtr - 1) < gs && gs <= G_SIZE * selCtr
      invariant gs < |mtfv| ==> gs == G_SIZE * selCtr
      invariant w.Written() + SymbolBits(lens, selector, gs, mtfv[gs..]) == goal
      invariant Sendable(lens, selector, gs, mtfv[gs..])
      decreases |mtfv| - gs
    {
      if gs >= |mtfv| { break; }
      var ge := gs + G_SIZE - 1;
      if ge >= |mtfv| { ge := |mtfv| - 1; }
      for i := gs to ge + 1
        invariant w.Valid() && w.Written() + SymbolBits(lens, selector, i, mtfv[i..]) == goal
        invariant Sendable(lens, selector, i, mtfv[i..])
      {
        SendableTail(lens, selector, i, mtfv[i..]);
        assert mtfv[i..][1..] == mtfv[i + 1..];
        GroupOf(gs, selCtr, i);
        SymbolBitsStep(lens, selector, i, mtfv[i..]);
        Associate(w.Written(), SymbolCode(lens, selector, i, mtfv[i]), SymbolBits(lens, selector, i + 1, mtfv[i + 1..]));
        SendSymbol(w, codes, lens, selector, selCtr, i, mtfv[i]);
      }
      gs := ge + 1;
      selCtr := selCtr + 1;
    }
    assert mtfv[gs..] == [];
    SymbolBitsStep(lens, selector, gs, []);
    assert w.Written() + [] == w.Written();
  }

  lemma GroupOf(gs: nat, selCtr: nat, i: nat)
    requires gs == G_SIZE * selCtr && gs <= i < gs + G_SIZE
    ensures i / G_SIZE == selCtr
  {
  }

  lemma SymbolBitsStep(lens: seq<seq<int>>, selector: seq<nat>, k: nat, syms: seq<nat>)
    ensures SymbolBits(lens, selector, k, syms) ==
            if syms == [] then [] else SymbolCode(lens, selector, k, syms[0]) + SymbolBits(lens, selector, k + 1, syms[1..])
  {
  }

  method SendSymbol(w: BitWriter, codes: seq<array<int>>, lens: seq<seq<int>>, selector: seq<nat>, selCtr: nat, ghost k: nat, sym: nat)
    requires w.Valid() && SendableAt(lens, selector, k, sym) && selCtr == k / G_SIZE
    requires Assigned(codes, lens)
    modifies w
    ensures w.Valid() && w.Written() == old(w.Written()) + SymbolCode(lens, selector, k, sym)
  {
    hide BitWriter.Written, BitWriter.Valid, ToBits, Code, Decodable;
    CodeFits(lens[selector[selCtr]], sym);
    var len, code := lens[selector[selCtr]][sym], codes[selector[selCtr]][sym];
    w.BsW(len, code);
  }

  // ---------- The whole body ----------

  /** How many coding tables a block of nMTF symbols gets. */
  function NGroups(nMTF: nat): nat {
    if nMTF < 200 then 2 else if nMTF < 600 then 3 else if nMTF < 1200 then 4 else if nMTF < 2400 then 5 else 6
  }

  const LONGEST_SENT := 17

  /** Code lengths for every table, from the frequencies that the last round of refinement counted. */
  method MakeTables(rfreq: seq<seq<nat>>, alphaSize: nat) returns (lens: seq<seq<int>>)
    requires 3 <= alphaSize <= MAX_ALPHA_SIZE
    requires forall t :: 0 <= t < |rfreq| ==> |rfreq[t]| == alphaSize && Demand(rfreq[t], alphaSize) < 0x80_0000
    ensures |lens| == |rfreq| && forall t :: 0 <= t < |lens| ==> |lens[t]| == alphaSize && Decodable(lens[t]) && Complete(lens[t], LONGEST_SENT)
  {
    hide Kraft, Demand, Lengths;
    lens := [];
    for t := 0 to |rfreq|
      invariant |lens| == t && forall k :: 0 <= k < t ==> |lens[k]| == alphaSize && Decodable(lens[k]) && Complete(lens[k], LONGEST_SENT)
    {
      var len := new byte[alphaSize];
      ghost var _ := MakeCodeLengths(len, rfreq[t], LONGEST_SENT);
      lens := lens + [len[..]];
    }
  }

  method AssignTables(lens: seq<seq<int>>) returns (codes: seq<array<int>>)
    requires forall t :: 0 <= t < |lens| ==> Lengths(lens[t]) && lens[t] != []
    ensures Assigned(codes, lens) && forall t :: 0 <= t < |codes| ==> fresh(codes[t])
  {
    hide Code, Lengths;
    codes := [];
    for t := 0 to |lens|
      invariant |codes| == t && forall k :: 0 <= k < t ==> fresh(codes[k]) && AssignedTo(codes[k], lens[k])
    {
      var minLen, maxLen := FindExtremes(lens[t]);
      var code := new int[|lens[t]|];
      AssignCodes(code, lens[t], minLen, maxLen);
      codes := codes + [code];
    }
  }

  /** The body that is sent for some symbols. */
  ghost predicate Sends(body: Body, inUse: seq<bool>, syms: seq<nat>, alphaSize: nat) {
    && body.Valid() && body.inUse == inUse && body.syms == syms
    && (forall t :: 0 <= t < |body.lens| ==> |body.lens[t]| == alphaSize)
    && Sendable(body.lens, body.selector, 0, syms)
  }

  /**
   * Sends the symbols of a block, with any choice of tables for the groups of fifty and any
   * frequencies that the code lengths are made from.
   */
  method SendMtfValues(w: BitWriter, inUse: array<bool>, mtfv: seq<nat>, alphaSize: nat, rfreq: seq<seq<nat>>, selector: seq<nat>)
    returns (ghost body: Body)
    requires w.Valid() && inUse.Length == 256 && 3 <= alphaSize <= MAX_ALPHA_SIZE
    requires 0 < |mtfv| <= 900_001 && forall i :: 0 <= i < |mtfv| ==> mtfv[i] < alphaSize
    requires |rfreq| == NGroups(|mtfv|)
    requires forall t :: 0 <= t < |rfreq| ==> |rfreq[t]| == alphaSize && Demand(rfreq[t], alphaSize) < 0x80_0000
    requires G_SIZE * (|selector| - 1) < |mtfv| <= G_SIZE * |selector| && forall i :: 0 <= i < |selector| ==> selector[i] < |rfreq|
    modifies w
    ensures Sends(body, inUse[..], mtfv, alphaSize)
    ensures w.Valid() && w.Written() == old(w.Written()) + body.Encoding()
  {
    hide Decodable, Complete, Demand, BitWriter.Written, BitWriter.Valid, Positions, FlagBits, RowBits, TablesBits, UnaryBits, SymbolBits, ToBits, Lengths;
    var nGroups := NGroups(|mtfv|);
    var lens := MakeTables(rfreq, alphaSize);
    forall t | 0 <= t < |lens| ensures Lengths(lens[t]) && lens[t] != [] { DecodableLengths(lens[t]); }
    var positions := SelectorPositions(selector, nGroups);
    var codes := AssignTables(lens);
    body := Body(inUse[..], lens, positions, selector, mtfv);
    EverySymbolSendable(lens, selector, mtfv, alphaSize);
    SameCount(positions, selector, nGroups);
    SendMapping(w, inUse);
    SendSelectors(w, nGroups, positions);
    SendTables(w, lens);
    var selCtr := SendSymbols(w, codes, lens, selector, mtfv);
    JoinParts(old(w.Written()), body);
  }

  lemma SameCount(js: seq<nat>, selector: seq<nat>, n: nat)
    requires Positions(n, js, selector)
    ensures |js| == |selector|
  {
  }

  lemma DecodableLengths(len: seq<int>)
    requires Decodable(len)
    ensures Lengths(len)
  {
  }

  lemma EverySymbolSendable(lens: seq<seq<int>>, selector: seq<nat>, syms: seq<nat>, alphaSize: nat)
    requires forall t :: 0 <= t < |lens| ==> Decodable(lens[t]) && |lens[t]| == alphaSize
    requires |syms| <= G_SIZE * |selector| && forall i :: 0 <= i < |selector| ==> selector[i] < |lens|
    requires forall i :: 0 <= i < |syms| ==> syms[i] < alphaSize
    ensures Sendable(lens, selector, 0, syms)
  {
    hide Decodable;
    forall j | 0 <= j < |syms| ensures SendableAt(lens, selector, 0 + j, syms[j]) { DecodableLengths(lens[selector[j / G_SIZE]]); }
  }

  lemma JoinParts(before: seq<bool>, body: Body)
    requires body.Valid()
    ensures before + (FlagBits(body.inUse, 0) + RowBits(body.inUse, 0))
            + (ToBits(|body.lens|, 3) + (ToBits(|body.positions|, 15) + UnaryBits(body.positions, 0)))
            + TablesBits(body.lens, 0) + SymbolBits(body.lens, body.selector, 0, body.syms)
            == before + body.Encoding()
  {
    hide FlagBits, RowBits, TablesBits, UnaryBits, SymbolBits, ToBits, Kraft;
    Regrouped(before, FlagBits(body.inUse, 0), RowBits(body.inUse, 0), ToBits(|body.lens|, 3), ToBits(|body.positions|, 15),
              UnaryBits(body.positions, 0), TablesBits(body.lens, 0), SymbolBits(body.lens, body.selector, 0, body.syms));
  }

  lemma Regrouped<T>(x: seq<T>, a: seq<T>, b: seq<T>, c: seq<T>, d: seq<T>, e: seq<T>, f: seq<T>, g: seq<T>)
    ensures x + (a + b) + (c + (d + e)) + f + g == x + (a + (b + (c + (d + (e + (f + g))))))
  {
  }
}
