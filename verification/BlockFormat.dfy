/** The bits of a compressed block: mapping table, selectors, coding tables and symbols. */
module BlockFormat {
  import opened Powers
  import opened Bits
  import opened MoveToFront
  import opened CanonicalHuffman
  import opened SymbolCoding

  // ---------- Mapping table ----------

  /** Some byte of the i-th sixteen is in use. */
  predicate RowUsed(inUse: seq<bool>, i: nat)
    requires |inUse| == 256 && i < 16
  {
    true in inUse[16 * i..16 * i + 16]
  }

  ghost function FlagBits(inUse: seq<bool>, i: nat): seq<bool>
    requires |inUse| == 256 && i <= 16
    decreases 16 - i
  {
    if i == 16 then [] else [RowUsed(inUse, i)] + FlagBits(inUse, i + 1)
  }

  ghost function RowBits(inUse: seq<bool>, i: nat): seq<bool>
    requires |inUse| == 256 && i <= 16
    decreases 16 - i
  {
    if i == 16 then [] else (if RowUsed(inUse, i) then inUse[16 * i..16 * i + 16] else []) + RowBits(inUse, i + 1)
  }

  // ---------- Selectors ----------

  /** The selectors that the compressor and the decompressor have room for. */
  const MAX_SELECTORS := 18_002

  ghost function Unary(j: nat): seq<bool> {
    if j == 0 then [false] else [true] + Unary(j - 1)
  }

  ghost function UnaryBits(js: seq<nat>, i: nat): seq<bool>
    requires i <= |js|
    decreases |js| - i
  {
    if i == |js| then [] else Unary(js[i]) + UnaryBits(js, i + 1)
  }

  /** The table list after the first m selectors, each of which moves its table to the front. */
  ghost function TablesAfter(nGroups: nat, js: seq<nat>, m: nat): (r: seq<nat>)
    requires m <= |js| && forall i :: 0 <= i < m ==> js[i] < nGroups
    ensures |r| == nGroups
  {
    if m == 0 then seq(nGroups, t => t) else ToFront(TablesAfter(nGroups, js, m - 1), js[m - 1])
  }

  /** js are the list positions of the first selected tables. */
  ghost predicate Placed(nGroups: nat, js: seq<nat>, selector: seq<nat>) {
    && |js| <= |selector| && (forall i :: 0 <= i < |js| ==> js[i] < nGroups)
    && forall i :: 0 <= i < |js| ==> TablesAfter(nGroups, js, i)[js[i]] == selector[i]
  }

  ghost predicate Positions(nGroups: nat, js: seq<nat>, selector: seq<nat>) {
    |js| == |selector| && Placed(nGroups, js, selector)
  }

  lemma {:induction false} SameTables(nGroups: nat, js: seq<nat>, js': seq<nat>, m: nat)
    requires m <= |js| && m <= |js'| && forall i :: 0 <= i < m ==> js[i] == js'[i] < nGroups
    ensures TablesAfter(nGroups, js, m) == TablesAfter(nGroups, js', m)
  {
    if m > 0 { SameTables(nGroups, js, js', m - 1); }
  }

  lemma PlacedStep(nGroups: nat, js: seq<nat>, selector: seq<nat>, j: nat)
    requires Placed(nGroups, js, selector) && |js| < |selector| && j < nGroups
    ensures TablesAfter(nGroups, js + [j], |js| + 1) == ToFront(TablesAfter(nGroups, js, |js|), j)
    ensures TablesAfter(nGroups, js, |js|)[j] == selector[|js|] ==> Placed(nGroups, js + [j], selector)
  {
    hide ToFront, TablesAfter;
    var js' := js + [j];
    SameTables(nGroups, js, js', |js|);
    TablesMore(nGroups, js', |js|);
    forall m | 0 <= m < |js| ensures TablesAfter(nGroups, js', m)[js'[m]] == selector[m] {
      SameTables(nGroups, js, js', m);
      assert TablesAfter(nGroups, js, m)[js[m]] == selector[m];
    }
  }

  lemma TablesMore(nGroups: nat, js: seq<nat>, m: nat)
    requires m < |js| && forall i :: 0 <= i <= m ==> js[i] < nGroups
    ensures TablesAfter(nGroups, js, m + 1) == ToFront(TablesAfter(nGroups, js, m), js[m])
  {
    hide ToFront;
  }

  lemma TablesFirst(nGroups: nat, js: seq<nat>)
    ensures TablesAfter(nGroups, js, 0) == seq(nGroups, t => t)
  {
  }

  // ---------- Coding tables ----------

  /** Steps from one code length to the next: up is 10, down is 11, and 0 ends them. */
  ghost function Moves(curr: int, len: int): seq<bool>
    decreases if curr < len then len - curr else curr - len
  {
    if curr < len then [true, false] + Moves(curr + 1, len)
    else if curr > len then [true, true] + Moves(curr - 1, len)
    else [false]
  }

  ghost function LengthBits(len: seq<int>, curr: int, i: nat): seq<bool>
    requires i <= |len|
    decreases |len| - i
  {
    if i == |len| then [] else Moves(curr, len[i]) + LengthBits(len, len[i], i + 1)
  }

  ghost function TableBits(len: seq<int>): seq<bool>
    requires Lengths(len) && len != []
  {
    ToBits(len[0], 5) + LengthBits(len, len[0], 0)
  }

  ghost function TablesBits(lens: seq<seq<int>>, t: nat): seq<bool>
    requires t <= |lens| && forall t :: 0 <= t < |lens| ==> Lengths(lens[t]) && lens[t] != []
    decreases |lens| - t
  {
    if t == |lens| then [] else TableBits(lens[t]) + TablesBits(lens, t + 1)
  }

  // ---------- The body of a block ----------

  /** Everything in a block after its fixed-size header. */
  datatype Body = Body(inUse: seq<bool>, lens: seq<seq<int>>, positions: seq<nat>, selector: seq<nat>, syms: seq<nat>) {
    /** What the compressor sends: two to six decodable tables over the symbols in use, and a table for each fifty symbols. */
    ghost predicate Valid() {
      && |inUse| == 256 && 2 <= |lens| <= 6
      && (forall t :: 0 <= t < |lens| ==> Decodable(lens[t]) && lens[t] != [])
      && 1 <= |selector| <= MAX_SELECTORS && Positions(|lens|, positions, selector)
    }

    ghost function TableInfo(): seq<bool>
      requires Valid()
    {
      TablesBits(lens, 0) + SymbolBits(lens, selector, 0, syms)
    }

    ghost function SelectorInfo(): seq<bool>
      requires Valid()
    {
      ToBits(|lens|, 3) + (ToBits(|selector|, 15) + (UnaryBits(positions, 0) + TableInfo()))
    }

    ghost function Encoding(): seq<bool>
      requires Valid()
    {
      FlagBits(inUse, 0) + (RowBits(inUse, 0) + SelectorInfo())
    }
  }

  lemma BitField(b: bool)
    ensures ToBits(if b then 1 else 0, 1) == [b]
  {
    assert ToBits(0, 0) == [];
  }

  lemma TwoBits()
    ensures ToBits(2, 2) == [true, false] && ToBits(3, 2) == [true, true]
    ensures Pow2(1) == 2 && Pow2(2) == 4
  {
    BitField(true);
  }

  lemma FieldSizes()
    ensures Pow2(3) == 8 && Pow2(5) == 32 && Pow2(15) == 0x8000
  {
    Pow2Of17();
    assert Pow2(1) == 2;
    assert Pow2(3) == 8;
    assert Pow2(5) == 32;
    assert Pow2(17) == 4 * Pow2(15);
  }
}
