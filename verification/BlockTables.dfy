/** The selectors and the decoding tables of a block, made from what was received. */
module BlockTables {
  import opened MoveToFront
  import opened CanonicalHuffman
  import opened HuffmanTables
  import opened SymbolDecoding
  import opened BlockFormat

  /** Undoes the move-to-front coding of the first n selectors. */
  method UndoPositions(nGroups: nat, selectorMtf: array<nat>, selector: array<nat>, n: nat)
    requires 2 <= nGroups <= 6 && n <= selectorMtf.Length && n <= selector.Length && selectorMtf != selector
    requires forall i :: 0 <= i < n ==> selectorMtf[i] < nGroups
    modifies selector
    ensures Positions(nGroups, selectorMtf[..n], selector[..n]) && forall i :: 0 <= i < n ==> selector[i] < nGroups
  {
    hide ToFront, TablesAfter;
    ghost var js := selectorMtf[..n];
    var pos := new nat[6];
    for v := 0 to nGroups
      invariant forall k :: 0 <= k < v ==> pos[k] == k
    {
      pos[v] := v;
    }
    TablesFirst(nGroups, js);
    assert pos[..nGroups] == TablesAfter(nGroups, js, 0);
    for i := 0 to n
      invariant selectorMtf[..n] == js && pos[..nGroups] == TablesAfter(nGroups, js, i)
      invariant forall t :: 0 <= t < nGroups ==> pos[t] < nGroups
      invariant forall k :: 0 <= k < i ==> selector[k] == TablesAfter(nGroups, js, k)[js[k]] && selector[k] < nGroups
    {
      TablesMore(nGroups, js, i);
      var tmp := MoveToTop(pos, selectorMtf[i], nGroups);
      selector[i] := tmp;
    }
  }

  method MoveToTop(pos: array<nat>, v0: nat, ghost n: nat) returns (tmp: nat)
    requires v0 < n <= pos.Length && forall t :: 0 <= t < n ==> pos[t] < n
    modifies pos
    ensures tmp == old(pos[v0]) && pos[..n] == ToFront(old(pos[..n]), v0)
    ensures forall t :: 0 <= t < n ==> pos[t] < n
  {
    ghost var s := pos[..];
    var v := v0;
    tmp := pos[v];
    while v > 0
      invariant v <= v0
      invariant forall q :: 0 <= q <= v ==> pos[q] == s[q]
      invariant forall q :: v < q <= v0 ==> pos[q] == s[q - 1]
      invariant forall q :: v0 < q < |s| ==> pos[q] == s[q]
    {
      pos[v] := pos[v - 1];
      v := v - 1;
    }
    pos[0] := tmp;
    assert pos[..n] == ToFront(s[..n], v0);
  }

  /** The decoding table of one list of code lengths. */
  method MakeTable(len: seq<int>) returns (table: Table)
    requires Lengths(len) && len != []
    ensures table.Decodes(len)
  {
    hide Lengths;
    var limit, base, perm := new int[MAX_CODE_LEN], new int[MAX_CODE_LEN], new int[MAX_ALPHA_SIZE];
    var minLen, maxLen := FindExtremes(len);
    CreateDecodeTables(limit, base, perm, len, minLen, maxLen);
    table := Table(minLen, limit[..], base[..], perm[..]);
  }

  /** The decoding tables of all lists. */
  method MakeTables(len: seq<seq<int>>) returns (tables: seq<Table>)
    requires forall t :: 0 <= t < |len| ==> Lengths(len[t]) && len[t] != []
    ensures |tables| == |len| && forall t :: 0 <= t < |len| ==> tables[t].Decodes(len[t])
  {
    hide Lengths, Table.Decodes;
    tables := [];
    for t := 0 to |len|
      invariant |tables| == t && forall k :: 0 <= k < t ==> tables[k].Decodes(len[k])
    {
      var table := MakeTable(len[t]);
      tables := tables + [table];
    }
  }
}
