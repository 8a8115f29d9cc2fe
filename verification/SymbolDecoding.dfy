/** The resumable table-driven reader of Huffman symbols. */
module SymbolDecoding {
  import opened Sequences
  import opened Powers
  import opened Bits
  import opened CanonicalHuffman
  import opened HuffmanTables
  import opened BitStream
  import opened SymbolCoding

  /** One coding table as the decoder keeps it. */
  datatype Table = Table(minLen: nat, limit: seq<int>, base: seq<int>, perm: seq<int>) {
    ghost predicate Decodes(len: seq<int>) {
      exists maxLen :: TablesFor(len, minLen, maxLen, limit, base, perm)
    }
  }

  /** A candidate that is not within the limit of its length lies beyond all codes of that length. */
  lemma PastLimit(len: seq<int>, minLen: int, maxLen: int, limit: seq<int>, base: seq<int>, perm: seq<int>, n: nat, v: nat)
    requires TablesFor(len, minLen, maxLen, limit, base, perm) && minLen <= n <= LONGEST_CODE
    requires v >= First(len, n)
    ensures v > limit[n] ==> v >= Used(len, n)
    ensures v <= limit[n] ==> n <= maxLen
  {
    hide OfLength, Listed, Shorter;
    if n > maxLen {
      NoneOf(len, n, |len|);
      PositiveBeyond(len, maxLen, n);
    }
  }

  lemma {:induction false} PositiveBeyond(len: seq<int>, maxLen: nat, n: nat)
    requires maxLen in len && maxLen < n
    ensures First(len, n) > 0
  {
    if n - 1 == maxLen {
      var i :| 0 <= i < |len| && len[i] == maxLen;
      OfLengthMonotone(len, maxLen, i, |len|);
    } else {
      PositiveBeyond(len, maxLen, n - 1);
    }
  }

  lemma AppendBit(v: nat, n: nat, b: bool)
    requires v < Pow2(n)
    ensures ToBits(2 * v + if b then 1 else 0, n + 1) == ToBits(v, n) + [b]
    ensures 2 * v + (if b then 1 else 0) < Pow2(n + 1)
  {
  }

  /** Moving the first unread bit to the end of the candidate. */
  lemma TakeBit(v: nat, n: nat, unread: seq<bool>, b: nat)
    requires v < Pow2(n) && |unread| >= 1 && b == Value(unread[..1])
    ensures b <= 1 && 2 * v + b < Pow2(n + 1)
    ensures ToBits(2 * v + b, n + 1) + unread[1..] == ToBits(v, n) + unread
  {
    hide ToBits;
    assert unread[..1] == [] + [unread[0]];
    ValueAppend([], unread[0]);
    AppendBit(v, n, unread[0]);
    assert unread == [unread[0]] + unread[1..];
    Associate(ToBits(v, n), [unread[0]], unread[1..]);
  }

  lemma TakeFirstBits(unread: seq<bool>, n: nat)
    requires |unread| >= n
    ensures Value(unread[..n]) < Pow2(n)
    ensures ToBits(Value(unread[..n]), n) + unread[n..] == unread
  {
    hide ToBits, Pow2, Value;
    ToBitsOfValue(unread[..n]);
    assert unread[..n] + unread[n..] == unread;
  }

  datatype Waiting = Ready | FirstBits | OneBit
  datatype Outcome = Got | Suspended | Failed

  class SymbolReader {
    ghost const lens: seq<seq<int>>    // the code lengths of each table
    const tables: seq<Table>
    const selector: seq<nat>           // the table for each group of fifty symbols
    var groupNo: int
    var groupPos: nat
    var gSel: nat
    var zn: nat
    var zvec: nat
    var waiting: Waiting               // where reading goes on when it was suspended
    ghost var done: nat                // symbols read so far

    constructor (tables: seq<Table>, selector: seq<nat>, ghost lens: seq<seq<int>>)
      requires |lens| == |tables| && (forall t :: 0 <= t < |tables| ==> tables[t].Decodes(lens[t]))
      requires forall g :: 0 <= g < |selector| ==> selector[g] < |tables|
      ensures Valid() && waiting == Ready && done == 0
      ensures this.lens == lens && this.selector == selector
    {
      this.tables, this.selector, this.lens := tables, selector, lens;
      groupNo, groupPos, gSel, zn, zvec, waiting, done := -1, 0, 0, 0, 0, Ready, 0;
    }

    ghost predicate Fixed() {
      && |lens| == |tables| && (forall t :: 0 <= t < |tables| ==> tables[t].Decodes(lens[t]))
      && forall g :: 0 <= g < |selector| ==> selector[g] < |tables|
    }

    /** The bits of the candidate and its relation to the codes that are no longer. */
    ghost predicate Candidate(n: nat, v: nat)
      reads this
      requires Fixed() && gSel < |tables|
    {
      && tables[gSel].minLen <= n <= LONGEST_CODE && v < Pow2(n)
      && v >= Used(lens[gSel], n)
    }

    ghost predicate Valid()
      reads this
    {
      && Fixed()
      && -1 <= groupNo < |selector| && groupPos <= G_SIZE
      && (groupNo < 0 ==> groupPos == 0)
      && (groupNo >= 0 ==> gSel == selector[groupNo])
      && done == G_SIZE * (groupNo + 1) - groupPos - (if waiting == Ready then 0 else 1)
      && (waiting != Ready ==> groupNo >= 0 && groupPos < G_SIZE)
      && (waiting == FirstBits ==> zn == tables[gSel].minLen)
      && (waiting == OneBit ==> zn > 0 && Candidate(zn - 1, zvec))
    }

    /** Every bit that has arrived and does not belong to a symbol already delivered. */
    ghost function Pending(r: BitReader): seq<bool>
      reads this, r
    {
      if waiting == OneBit && zn > 0 then ToBits(zvec, zn - 1) + r.Unread() else r.Unread()
    }

    /** Moves to the next group when one is used up, and starts a symbol. */
    method Begin() returns (ok: bool)
      requires Valid() && waiting == Ready
      modifies this
      ensures Valid() && done == old(done) && (ok <==> done / G_SIZE < |selector|)
      ensures waiting == if ok then FirstBits else Ready
    {
      if groupPos == 0 {
        if groupNo + 1 >= |selector| { return false; }
        groupNo := groupNo + 1;
        groupPos := G_SIZE;
        gSel := selector[groupNo];
      }
      groupPos := groupPos - 1;
      zn := tables[gSel].minLen;
      waiting := FirstBits;
      ok := true;
    }

    /**
     * Reads one symbol, or suspends in its middle. Whatever the table, and however the input is cut,
     * this comes to what reading the symbol from all its bits comes to.
     */
    method GetMtfVal(r: BitReader, ghost later: seq<bool>) returns (outcome: Outcome, lval: nat)
      requires Valid() && r.Valid()
      modifies this, r
      ensures r.Valid() && (outcome == Failed || Valid())
      ensures outcome == Got ==>
                && waiting == Ready && done == old(done) + 1
                && SymbolAt(lens, selector, old(done), old(Pending(r)) + later) == Arrived(lval, Pending(r) + later)
      ensures outcome == Suspended ==>
                && done == old(done) && Pending(r) == old(Pending(r)) && r.nextIn == []
                && SymbolAt(lens, selector, done, Pending(r)) == Missing
      ensures outcome == Failed ==> SymbolAt(lens, selector, old(done), old(Pending(r)) + later) == Invalid
    {
      hide TablesFor, Scan, First, Used, ToBits, Pow2, Value;
      if waiting == Ready {
        var ok := Begin();
        if !ok { return Failed, 0; }
      }
      assert done / G_SIZE == groupNo;
      TablesAreLengths();
      ghost var p := Pending(r);
      outcome, lval := GoOn(r, p);
      if outcome != Suspended { ScanMore(lens[gSel], 1, p, later); }
    }

    lemma TablesAreLengths()
      requires Fixed() && gSel < |lens|
      ensures Lengths(lens[gSel])
    {
      var tab := tables[gSel];
      var maxLen :| TablesFor(lens[gSel], tab.minLen, maxLen, tab.limit, tab.base, tab.perm);
    }

    /** A candidate of zn bits has been read, and no shorter code matches. */
    ghost predicate Searching(r: BitReader, p: seq<bool>)
      reads this, r
    {
      && Fixed() && r.Valid() && 0 <= groupNo < |selector| && groupPos < G_SIZE && gSel == selector[groupNo]
      && waiting == OneBit && done == G_SIZE * (groupNo + 1) - groupPos - 1
      && tables[gSel].minLen <= zn <= LONGEST_CODE + 1 && zvec < Pow2(zn) && zvec >= First(lens[gSel], zn)
      && p == ToBits(zvec, zn) + r.Unread()
    }

    /** All the bits have come in, and they do not make a symbol. */
    ghost predicate Waits(r: BitReader, p: seq<bool>)
      reads this, r
      requires Fixed() && gSel < |tables|
    {
      Pending(r) == p && r.nextIn == [] && Scan(lens[gSel], 1, p) == Missing
    }

    method ReadFirst(r: BitReader, ghost p: seq<bool>) returns (ok: bool)
      requires Valid() && r.Valid() && waiting == FirstBits && p == Pending(r)
      modifies this`zvec, this`waiting, r
      ensures r.Valid()
      ensures ok ==> Searching(r, p)
      ensures !ok ==> Valid() && Waits(r, p)
    {
      hide Scan, First, Used, ToBits, Pow2, Value, Listed, OfLength, Shorter;
      ghost var len := lens[gSel];
      var tab := tables[gSel];
      ghost var maxLen :| TablesFor(len, tab.minLen, maxLen, tab.limit, tab.base, tab.perm);
      FirstAtLeast(len, tab.minLen);
      var v;
      ok, v := r.GetBits(zn);
      if !ok {
        TooFewBits(len, 1, p);
      } else {
        TakeFirstBits(p, zn);
        zvec := v;
        waiting := OneBit;
      }
    }

    method ReadBit(r: BitReader, ghost p: seq<bool>) returns (ok: bool)
      requires Valid() && r.Valid() && waiting == OneBit && p == Pending(r)
      modifies this`zvec, r
      ensures r.Valid()
      ensures ok ==> Searching(r, p)
      ensures !ok ==> Valid() && Waits(r, p)
    {
      hide Scan, First, Used, ToBits, Pow2, Value, Listed, OfLength, Shorter;
      ghost var len := lens[gSel];
      NextLevel(len, zn - 1);
      ghost var unread := r.Unread();
      var zj;
      ok, zj := r.GetBits(1);
      if !ok {
        assert unread == [] && p == ToBits(zvec, zn - 1);
        ScanEnds(len, zn - 1, zvec, p);
      } else {
        TakeBit(zvec, zn - 1, unread, zj);
        zvec := 2 * zvec + zj;
      }
    }

    /** Looks up a candidate that is within the limit of its length. */
    method Deliver(r: BitReader, ghost p: seq<bool>, ghost maxLen: int) returns (outcome: Outcome, lval: nat)
      requires Searching(r, p)
      requires var t := tables[gSel]; TablesFor(lens[gSel], t.minLen, maxLen, t.limit, t.base, t.perm) && zn <= maxLen && zvec <= t.limit[zn]
      modifies this`waiting, this`done
      ensures outcome == Got && Valid() && waiting == Ready && done == old(done) + 1
      ensures Scan(lens[gSel], 1, p) == Arrived(lval, Pending(r))
    {
      hide Scan, First, Used, ToBits, Pow2, Value, Listed, OfLength, Shorter;
      var tab := tables[gSel];
      ghost var i := LookUp(lens[gSel], tab.minLen, maxLen, tab.limit, tab.base, tab.perm, zn, zvec);
      outcome, lval := Failed, 0;
      if zvec - tab.base[zn] < 0 || zvec - tab.base[zn] >= MAX_ALPHA_SIZE { return; }
      outcome, lval := Got, tab.perm[zvec - tab.base[zn]];
      ScanStops(lens[gSel], zn, zvec, i, r.Unread());
      waiting := Ready;
      done := done + 1;
    }

    method GoOn(r: BitReader, ghost p: seq<bool>) returns (outcome: Outcome, lval: nat)
      requires Valid() && r.Valid() && waiting != Ready && p == Pending(r)
      modifies this, r
      ensures r.Valid() && (outcome == Failed || Valid()) && groupNo == old(groupNo) && gSel == old(gSel)
      ensures outcome == Got ==> waiting == Ready && done == old(done) + 1 && Scan(lens[gSel], 1, p) == Arrived(lval, Pending(r))
      ensures outcome == Suspended ==> done == old(done) && Waits(r, p)
      ensures outcome == Failed ==> Scan(lens[gSel], 1, p) == Invalid
    {
      hide Scan, TablesFor, Searching, Waits;
      var ok;
      if waiting == FirstBits { ok := ReadFirst(r, p); } else { ok := ReadBit(r, p); }
      if !ok { return Suspended, 0; }
      outcome, lval := Search(r, p);
    }

    method Search(r: BitReader, ghost p: seq<bool>) returns (outcome: Outcome, lval: nat)
      requires Searching(r, p)
      modifies this, r
      ensures r.Valid() && (outcome == Failed || Valid()) && groupNo == old(groupNo) && gSel == old(gSel)
      ensures outcome == Got ==> waiting == Ready && done == old(done) + 1 && Scan(lens[gSel], 1, p) == Arrived(lval, Pending(r))
      ensures outcome == Suspended ==> done == old(done) && Waits(r, p)
      ensures outcome == Failed ==> Scan(lens[gSel], 1, p) == Invalid
    {
      hide Scan, First, Used, ToBits, Pow2, Value, Listed, OfLength, Shorter, Waits;
      ghost var len := lens[gSel];
      var tab := tables[gSel];
      ghost var maxLen :| TablesFor(len, tab.minLen, maxLen, tab.limit, tab.base, tab.perm);
      while true
        invariant Searching(r, p) && done == old(done) && groupNo == old(groupNo) && gSel == old(gSel)
        decreases LONGEST_CODE + 1 - zn
      {
        if zn > LONGEST_CODE {
          TooLong(len, zvec, r.Unread());
          return Failed, 0;
        }
        PastLimit(len, tab.minLen, maxLen, tab.limit, tab.base, tab.perm, zn, zvec);
        if zvec <= tab.limit[zn] { break; }
        zn := zn + 1;
        var ok := ReadBit(r, p);
        if !ok { return Suspended, 0; }
      }
      outcome, lval := Deliver(r, p, maxLen);
    }
  }

  /** The candidate is within the codes of its length. */
  lemma ScanStops(len: seq<int>, n: nat, v: nat, i: nat, unread: seq<bool>)
    requires Lengths(len) && i < |len| && len[i] == n && Code(len, i) == v && v < Pow2(n) && v < Used(len, n)
    ensures Scan(len, 1, ToBits(v, n) + unread) == Arrived(i, unread)
  {
    hide First, Used, ToBits, Pow2, Value, OfLength;
    var p := ToBits(v, n) + unread;
    ScanFrom(len, 1, n, v, p);
    ValueOfToBits(v, n);
    assert p[..n] == ToBits(v, n) && p[n..] == unread;
    NthIs(len, n, i, |len|);
  }

  /** The candidate is too long for any code. */
  lemma TooLong(len: seq<int>, v: nat, unread: seq<bool>)
    requires v < Pow2(LONGEST_CODE + 1) && v >= First(len, LONGEST_CODE + 1)
    ensures Scan(len, 1, ToBits(v, LONGEST_CODE + 1) + unread) == Invalid
  {
    hide First, Used, ToBits, Pow2, Value, OfLength;
    ScanFrom(len, 1, LONGEST_CODE + 1, v, ToBits(v, LONGEST_CODE + 1) + unread);
  }

  /** The candidate lies beyond the codes of its length, and there are no more bits. */
  lemma ScanEnds(len: seq<int>, n: nat, v: nat, p: seq<bool>)
    requires 1 <= n <= LONGEST_CODE && v < Pow2(n) && p == ToBits(v, n) && v >= Used(len, n)
    ensures Scan(len, 1, p) == Missing
  {
    hide First, Used, ToBits, Pow2, Value, OfLength;
    NextLevel(len, n);
    ScanFrom(len, 1, n, v, p);
    ValueOfToBits(v, n);
    assert p[..n] == p;
  }
}
