/** Generation of the move-to-front symbols, written over the sorted pointers they are made from. */
module MtfEncode {
  import opened Words
  import opened RunCoding
  import opened BurrowsWheeler
  import opened ByteMaps
  import opened MoveToFront

  /** The 32-bit pointers and the 16-bit symbols share one array, kept here as its halfwords. */
  class SharedArray {
    const halves: array<u16>

    constructor (n: nat)
      ensures fresh(halves) && halves.Length == 2 * n
    {
      halves := new u16[2 * n];
    }

    /** ptr[i] */
    function Ptr(i: nat): (r: nat)
      requires 2 * i + 1 < halves.Length
      reads halves
    {
      halves[2 * i] as int + halves[2 * i + 1] as int * 0x1_0000
    }

    /** mtfv[..wr] */
    ghost function Symbols(wr: nat): (s: seq<nat>)
      requires wr <= halves.Length
      reads halves
      ensures |s| == wr && forall k :: 0 <= k < wr ==> s[k] == halves[k]
    {
      seq(wr, k requires 0 <= k < wr <= halves.Length reads halves => halves[k])
    }

    /** The pointers from entry i on are still p. */
    ghost predicate Unread(p: seq<int>, i: nat)
      reads halves
    {
      2 * |p| == halves.Length && forall k :: i <= k < |p| ==> Ptr(k) == p[k]
    }

    /** Stores one symbol; no pointer from entry i on is touched as long as wr <= 2 * i - 1. */
    method Emit(sym: u16, wr: nat, ghost p: seq<int>, ghost i: nat)
      requires wr < halves.Length && wr < 2 * i && Unread(p, i)
      modifies halves
      ensures Symbols(wr + 1) == old(Symbols(wr)) + [sym] && Unread(p, i)
    {
      halves[wr] := sym;
    }
  }

  /** Stores the lowest digit of the run that is pending. */
  method EmitDigit(mem: SharedArray, zPend: nat, wr: nat, ghost p: seq<int>, ghost i: nat)
    requires wr < mem.halves.Length && wr < 2 * i && mem.Unread(p, i)
    modifies mem.halves
    ensures mem.Symbols(wr + 1) + (if zPend < 2 then [] else RunDigits((zPend - 2) / 2)) == old(mem.Symbols(wr)) + RunDigits(zPend) && mem.Unread(p, i)
  {
    if zPend % 2 == 1 { mem.Emit(RUNB, wr, p, i); } else { mem.Emit(RUNA, wr, p, i); }
  }

  /** Stores the digits of a run of zPend0 zeros. */
  method EmitRun(mem: SharedArray, zPend0: nat, wr0: nat, ghost p: seq<int>, ghost i: nat) returns (wr: nat)
    requires zPend0 > 0 && mem.Unread(p, i) && i > 0 && wr0 + zPend0 <= i <= |p|
    modifies mem.halves
    ensures wr0 <= wr <= wr0 + zPend0
    ensures mem.Symbols(wr) == old(mem.Symbols(wr0)) + RunDigits(zPend0 - 1) && mem.Unread(p, i)
  {
    wr := wr0;
    var zPend := zPend0 - 1;
    while true
      invariant 0 <= zPend && wr0 <= wr && wr + zPend + 1 <= wr0 + zPend0 && mem.Unread(p, i)
      invariant mem.Symbols(wr) + RunDigits(zPend) == old(mem.Symbols(wr0)) + RunDigits(zPend0 - 1)
      decreases zPend
    {
      EmitDigit(mem, zPend, wr, p, i);
      wr := wr + 1;
      if zPend < 2 { break; }
      zPend := (zPend - 2) / 2;
    }
  }

  /** Brings rank ll to the front of the list, one entry moving down at each step of the search. */
  method FindAndMove(yy: array<byte>, ll: byte, ghost n: nat) returns (j: nat)
    requires n <= yy.Length && n >= 2 && exists k :: 1 <= k < n && yy[k] == ll
    modifies yy
    ensures 1 <= j < n && old(yy[j]) == ll
    ensures yy[..] == ToFront(old(yy[..]), j)
  {
    ghost var s := yy[..];
    var rtmp := yy[1];
    yy[1] := yy[0];
    j := 1;
    while ll != rtmp
      invariant 1 <= j < n && rtmp == s[j] && yy[0] == s[0]
      invariant forall q :: 1 <= q <= j ==> yy[q] == s[q - 1]
      invariant forall q :: j < q < yy.Length ==> yy[q] == s[q]
      invariant exists k :: j <= k < n && s[k] == ll
      decreases n - j
    {
      j := j + 1;
      var rtmp2 := rtmp;
      rtmp := yy[j];
      yy[j] := rtmp2;
    }
    yy[0] := rtmp;
    assert yy[..] == ToFront(s, j);
  }

  /** Rank v is one of the first n list entries. */
  ghost predicate AmongFirst(list: seq<byte>, n: nat, v: int) {
    exists j :: 0 <= j < n && j < |list| && list[j] == v
  }

  /** yy holds the first entries of the list, which are the ranks below nInUse in some order. */
  ghost predicate ListOf(list: seq<byte>, yy: seq<byte>, nInUse: nat) {
    && 0 < nInUse <= 256 == |list| == |yy|
    && (forall k :: 0 <= k < nInUse ==> yy[k] == list[k])
    && (forall v :: 0 <= v < nInUse ==> AmongFirst(list, nInUse, v))
  }

  /** What the symbols stored so far read as, when zPend zeros after them are still to be stored. */
  ghost predicate Coded(syms: seq<nat>, list: seq<byte>, ranks: seq<byte>, nInUse: nat, i: nat, zPend: nat) {
    && i <= |ranks| && zPend <= i && |list| == 256
    && (forall k :: 0 <= k < |syms| ==> syms[k] <= nInUse)
    && (forall k :: i - zPend <= k < i ==> ranks[k] == list[0])
    && Read(Start(), syms) == Flat(list, ranks[..i - zPend], 0, 1)
  }

  lemma ListMoves(list: seq<byte>, yy: seq<byte>, nInUse: nat, j: nat)
    requires ListOf(list, yy, nInUse) && j < nInUse
    ensures ListOf(ToFront(list, j), ToFront(yy, j), nInUse)
  {
    var list' := ToFront(list, j);
    forall v | 0 <= v < nInUse
      ensures AmongFirst(list', nInUse, v)
    {
      assert AmongFirst(list, nInUse, v);
      var k :| 0 <= k < nInUse && list[k] == v;
      var k' := if k == j then 0 else if k < j then k + 1 else k;
      assert list'[k'] == v;
    }
  }

  lemma ListHead(list: seq<byte>, yy: seq<byte>, nInUse: nat)
    requires ListOf(list, yy, nInUse)
    ensures 0 < nInUse <= 256 == |list| == |yy| && yy[0] == list[0]
    ensures forall k :: 0 <= k < nInUse ==> yy[k] == list[k]
  {
  }

  lemma FoundLater(list: seq<byte>, yy: seq<byte>, nInUse: nat, ll: byte)
    requires ListOf(list, yy, nInUse) && ll < nInUse && yy[0] != ll
    ensures 2 <= nInUse <= |yy| && exists k :: 1 <= k < nInUse && yy[k] == ll
  {
    assert AmongFirst(list, nInUse, ll);
    var k :| 0 <= k < nInUse && list[k] == ll;
    assert yy[k] == ll;
  }

  /** The stored symbols after the digits of the pending run, if there is one. */
  ghost function WithRun(syms: seq<nat>, zPend: nat): seq<nat> {
    if zPend == 0 then syms else syms + RunDigits(zPend - 1)
  }

  lemma WithRunReads(syms: seq<nat>, list: seq<byte>, ranks: seq<byte>, nInUse: nat, i: nat, zPend: nat)
    requires Coded(syms, list, ranks, nInUse, i, zPend) && nInUse > 0
    ensures Read(Start(), WithRun(syms, zPend)).Flush() == Flat(list, ranks[..i], 0, 1)
    ensures forall k :: 0 <= k < |WithRun(syms, zPend)| ==> WithRun(syms, zPend)[k] <= nInUse
  {
    hide Read;
    var st := Read(Start(), syms);
    if zPend > 0 {
      ReadAppend(Start(), syms, RunDigits(zPend - 1));
      ReadDigits(st, zPend - 1);
    }
    assert ranks[..i] == ranks[..i - zPend] + Repeat(list[0], zPend);
  }

  lemma CodedMove(syms: seq<nat>, list: seq<byte>, ranks: seq<byte>, nInUse: nat, i: nat, zPend: nat, j: nat)
    requires Coded(syms, list, ranks, nInUse, i, zPend) && i < |ranks|
    requires 1 <= j < nInUse <= 256 && list[j] == ranks[i]
    ensures Coded(WithRun(syms, zPend) + [j + 1], ToFront(list, j), ranks, nInUse, i + 1, 0)
  {
    hide Read;
    WithRunReads(syms, list, ranks, nInUse, i, zPend);
    ReadOne(Start(), WithRun(syms, zPend), j + 1);
    assert ranks[..i + 1] == ranks[..i] + [ranks[i]];
  }

  lemma CodedStart(ranks: seq<byte>, nInUse: nat)
    ensures Coded([], Identity(), ranks, nInUse, 0, 0)
  {
    assert ranks[..0] == [];
  }

  /** A column byte that is not at the front of the list ends the pending run and makes a symbol of its own. */
  method CodeMove(mem: SharedArray, yy: array<byte>, ll: byte, zPend: nat, wr0: nat, ghost p: seq<int>, ghost i: nat,
                  ghost list0: seq<byte>, ghost ranks: seq<byte>, ghost nInUse: nat)
    returns (wr: nat, ghost list: seq<byte>)
    requires yy as object != mem.halves && mem.Unread(p, i + 1) && i < |ranks| == |p| && ll == ranks[i] < nInUse
    requires wr0 + zPend <= i && ListOf(list0, yy[..], nInUse) && yy.Length > 0 && yy[0] != ll
    requires Coded(mem.Symbols(wr0), list0, ranks, nInUse, i, zPend)
    modifies mem.halves, yy
    ensures mem.Unread(p, i + 1) && wr <= i + 1 && ListOf(list, yy[..], nInUse)
    ensures Coded(mem.Symbols(wr), list, ranks, nInUse, i + 1, 0)
  {
    hide Read, RunDigits, Decoded, Coded;
    wr := wr0;
    ghost var syms := mem.Symbols(wr);
    if zPend > 0 { wr := EmitRun(mem, zPend, wr, p, i + 1); }
    FoundLater(list0, yy[..], nInUse, ll);
    var j := FindAndMove(yy, ll, nInUse);
    MovedEntry(list0, old(yy[..]), nInUse, j);
    CodedMove(syms, list0, ranks, nInUse, i, zPend, j);
    ListMoves(list0, old(yy[..]), nInUse, j);
    list := ToFront(list0, j);
    mem.Emit(j + 1, wr, p, i + 1);
    wr := wr + 1;
  }

  lemma MovedEntry(list: seq<byte>, yy: seq<byte>, n: nat, j: nat)
    requires ListOf(list, yy, n) && j < n
    ensures n <= 256 && j < |list| && j < |yy| && list[j] == yy[j]
  {
  }

  /** One column byte, with the symbols it makes. */
  method CodeRank(mem: SharedArray, yy: array<byte>, ll: byte, zPend0: nat, wr0: nat, ghost p: seq<int>, ghost i: nat,
                  ghost list0: seq<byte>, ghost ranks: seq<byte>, ghost nInUse: nat)
    returns (zPend: nat, wr: nat, ghost list: seq<byte>)
    requires yy as object != mem.halves && mem.Unread(p, i + 1) && i < |ranks| == |p| && ll == ranks[i] < nInUse
    requires wr0 + zPend0 <= i && ListOf(list0, yy[..], nInUse)
    requires Coded(mem.Symbols(wr0), list0, ranks, nInUse, i, zPend0)
    modifies mem.halves, yy
    ensures mem.Unread(p, i + 1) && wr + zPend <= i + 1 && ListOf(list, yy[..], nInUse)
    ensures Coded(mem.Symbols(wr), list, ranks, nInUse, i + 1, zPend)
  {
    hide Read, RunDigits, Decoded;
    zPend, wr, list := zPend0, wr0, list0;
    ListHead(list, yy[..], nInUse);
    if yy[0] == ll {
      zPend := zPend + 1;
    } else {
      wr, list := CodeMove(mem, yy, ll, zPend0, wr0, p, i, list0, ranks, nInUse);
      zPend := 0;
    }
  }

  /**
   * Turns the sorted pointers of a block into move-to-front symbols in the same memory, ending with
   * the end mark; reading them back gives the ranks of the last column.
   */
  method GenerateMtfValues(mem: SharedArray, block: array<byte>, inUse: array<bool>, unseqToSeq: array<byte>)
    returns (nInUse: nat, nMTF: nat)
    requires inUse.Length == 256 == unseqToSeq.Length && block.Length > 0 && mem.halves.Length == 2 * block.Length
    requires inUse as object != unseqToSeq && unseqToSeq != block && mem.halves as object != unseqToSeq
    requires mem.halves as object != block && mem.halves as object != inUse
    requires forall i :: 0 <= i < block.Length ==> mem.Ptr(i) < block.Length && inUse[block[i]]
    modifies mem.halves, unseqToSeq
    ensures nInUse == Rank(inUse[..], 256) && 1 <= nMTF <= block.Length + 1
    ensures var syms := mem.Symbols(nMTF);
            var l := LastColumn(block[..], old(Pointers(mem, block.Length)));
            && syms[nMTF - 1] == nInUse + 1
            && (forall k :: 0 <= k < nMTF - 1 ==> syms[k] <= nInUse)
            && (forall k :: 0 <= k < |l| ==> inUse[l[k]])
            && Decoded(syms[..nMTF - 1]) == Ranks(inUse[..], l)
  {
    hide Read, RunDigits, Decoded, LastColumn, Ranks, ListOf, Coded, RowRanks;
    ghost var b, p, used := block[..], Pointers(mem, block.Length), inUse[..];
    ghost var l := LastColumn(b, p);
    nInUse := MakeMapsE(inUse, unseqToSeq);
    var yy := FirstList(nInUse);
    RowRanksOfColumn(b, p, used, unseqToSeq[..]);
    StartList(used, l, yy[..], nInUse);
    var wr, zPend;
    ghost var list;
    zPend, wr, list := CodeColumn(mem, block, unseqToSeq, yy, nInUse, p, Ranks(used, l));
    nMTF := Finish(mem, zPend, wr, p, list, Ranks(used, l), nInUse);
  }

  method FirstList(nInUse: nat) returns (yy: array<byte>)
    requires nInUse <= 256
    ensures fresh(yy) && yy.Length == 256 && forall k :: 0 <= k < nInUse ==> yy[k] == k
  {
    yy := new byte[256];
    for i := 0 to nInUse
      invariant forall k :: 0 <= k < i ==> yy[k] == k
    {
      yy[i] := i;
    }
  }

  /** The byte before row i has rank ranks[i]. */
  ghost predicate RowRanks(b: seq<byte>, p: seq<int>, unseqToSeq: seq<byte>, ranks: seq<byte>, nInUse: nat) {
    && |p| == |b| == |ranks| && |unseqToSeq| == 256
    && forall i :: 0 <= i < |p| ==> 0 <= p[i] < |b| && unseqToSeq[b[Before(|b|, p[i])]] == ranks[i] < nInUse
  }

  lemma RowRanksOfColumn(b: seq<byte>, p: seq<int>, used: seq<bool>, unseqToSeq: seq<byte>)
    requires |p| == |b| && |used| == 256 == |unseqToSeq| && forall k :: 0 <= k < |b| ==> 0 <= p[k] < |b| && used[b[k]]
    requires forall c :: 0 <= c < 256 && used[c] ==> unseqToSeq[c] == Rank(used, c)
    ensures forall k :: 0 <= k < |b| ==> used[LastColumn(b, p)[k]]
    ensures RowRanks(b, p, unseqToSeq, Ranks(used, LastColumn(b, p)), Rank(used, 256))
  {
  }

  /** The loop over all rows of the sorted block. */
  method CodeColumn(mem: SharedArray, block: array<byte>, unseqToSeq: array<byte>, yy: array<byte>,
                    ghost nInUse: nat, ghost p: seq<int>, ghost ranks: seq<byte>)
    returns (zPend: nat, wr: nat, ghost list: seq<byte>)
    requires {unseqToSeq, block} !! {yy} && {mem.halves as object} !! {yy as object, block, unseqToSeq}
    requires mem.Unread(p, 0) && RowRanks(block[..], p, unseqToSeq[..], ranks, nInUse)
    requires ListOf(Identity(), yy[..], nInUse)
    modifies mem.halves, yy
    ensures wr + zPend <= |p| && mem.Unread(p, |p|)
    ensures Coded(mem.Symbols(wr), list, ranks, nInUse, |p|, zPend)
  {
    hide Read, ListOf, Coded;
    var n := block.Length;
    list := Identity();
    CodedStart(ranks, nInUse);
    wr, zPend := 0, 0;
    assert mem.Symbols(0) == [];
    for i := 0 to n
      invariant mem.Unread(p, i) && wr + zPend <= i
      invariant ListOf(list, yy[..], nInUse) && Coded(mem.Symbols(wr), list, ranks, nInUse, i, zPend)
    {
      assert mem.Ptr(i) == p[i];
      var j := mem.Ptr(i) - 1;
      if j < 0 { j := j + n; }
      zPend, wr, list := CodeRank(mem, yy, unseqToSeq[block[j]], zPend, wr, p, i, list, ranks, nInUse);
    }
  }

  method Finish(mem: SharedArray, zPend: nat, wr0: nat, ghost p: seq<int>, ghost list: seq<byte>, ghost ranks: seq<byte>, nInUse: nat)
    returns (nMTF: nat)
    requires mem.Unread(p, |p|) && |ranks| == |p| > 0 && wr0 + zPend <= |p| && 0 < nInUse <= 256
    requires Coded(mem.Symbols(wr0), list, ranks, nInUse, |p|, zPend)
    modifies mem.halves
    ensures 1 <= nMTF <= |p| + 1
    ensures var syms := mem.Symbols(nMTF);
            && syms[nMTF - 1] == nInUse + 1
            && (forall k :: 0 <= k < nMTF - 1 ==> syms[k] <= nInUse)
            && Decoded(syms[..nMTF - 1]) == ranks
  {
    hide Read, RunDigits, Coded;
    var wr := wr0;
    WithRunReads(mem.Symbols(wr), list, ranks, nInUse, |p|, zPend);
    if zPend > 0 { wr := EmitRun(mem, zPend, wr, p, |p|); }
    ghost var syms := mem.Symbols(wr);
    mem.Emit(nInUse + 1, wr, p, |p|);
    nMTF := wr + 1;
    assert mem.Symbols(nMTF)[..nMTF - 1] == syms;
    assert ranks[..|p|] == ranks;
  }

  /** All pointers. */
  ghost function Pointers(mem: SharedArray, n: nat): (p: seq<int>)
    requires mem.halves.Length == 2 * n
    reads mem.halves
    ensures |p| == n && forall i :: 0 <= i < n ==> p[i] == mem.Ptr(i)
  {
    seq(n, i requires 0 <= i < n reads mem.halves => mem.Ptr(i))
  }

  lemma StartList(used: seq<bool>, l: seq<byte>, yy: seq<byte>, nInUse: nat)
    requires |used| == 256 && l != [] && (forall k :: 0 <= k < |l| ==> used[l[k]]) && nInUse == Rank(used, 256)
    requires |yy| == 256 && forall k :: 0 <= k < nInUse ==> yy[k] == k
    ensures ListOf(Identity(), yy, nInUse)
  {
    assert used[l[0]];
    RankOrder(used, l[0], 256);
    forall v | 0 <= v < nInUse
      ensures AmongFirst(Identity(), nInUse, v)
    {
      assert Identity()[v] == v;
    }
  }
}
