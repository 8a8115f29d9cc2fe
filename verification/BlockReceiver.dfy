/**
 * Receiving headers, tables and symbols, in a form that can be left wherever the input runs out and
 * taken up again there.
 */
module BlockReceiver {
  import opened Sequences
  import opened Words
  import opened Checksums
  import opened Powers
  import opened Bits
  import opened ByteMaps
  import opened BurrowsWheeler
  import opened RunCoding
  import opened CanonicalHuffman
  import opened BitStream
  import opened SymbolDecoding
  import opened ColumnStore
  import opened MtfWindows
  import opened MoveToFront
  import opened BlockFormat
  import opened BlockSender
  import opened BlockTables
  import opened StreamFormat
  import opened StreamSteps
  import opened MtfDecode
  import FastInverse

  /** Where reading goes on; a number counts the bytes of a field of several bytes that have been read. */
  datatype Label =
    | XMagic(n: nat) | XBlkHdr(n: nat) | XBcrc(n: nat) | XRandBit | XOrigPtr(n: nat)
    | XMapping1 | XMapping2 | XSelector1 | XSelector2 | XSelector3 | XCoding1 | XCoding2 | XCoding3
    | XMtf | XOutput | XEndHdr(n: nat) | XCcrc(n: nat) | XIdle

  /** A stretch of reading goes on to the next, waits for input, has read the trailer, or cannot go on. */
  datatype Progress = GoOn | Starved | Trailer | Ended(status: Status)

  /** The statuses of input that cannot be decoded. */
  predicate Wrong(status: Status) {
    status != NeedMore && status != StreamEnd
  }

  class Receiver {
    const r: BitReader
    const inUse16: array<bool>
    const inUse: array<bool>
    const seqToUnseq: array<byte>
    const selectorMtf: array<nat>
    const selector: array<nat>
    var state: Label
    var blockSize100k: nat
    var storedBlockCRC: seq<byte>
    var storedCombinedCRC: seq<byte>
    var origPtr: nat
    var i: nat
    var j: nat
    var nInUse: nat
    var nGroups: nat
    var nSelectors: nat
    var len: seq<seq<int>>     // the coding tables received
    var row: seq<int>          // the lengths received of the next one
    var curr: int
    var mtf: MtfDecoder?
    var d: FastInverse.Decoder?
    const sum: Checksum
    ghost var placed: seq<nat> // the list positions received
    ghost var chosen: seq<nat> // the tables they stand for
    ghost var st: State        // what has been read comes to

    /** Ready to decode the bits that are to come. */
    constructor (sum: Checksum, ghost later: seq<bool>)
      ensures fresh(Repr()) && this.sum == sum && state == XMagic(0) && st == Initial() && mtf == null && d == null && Rests(later, DecodeStream(sum, later))
    {
      hide Proceed, Rests, BitReader.Valid, BitReader.Unread, DecodeStream;
      r := new BitReader();
      inUse16, inUse, seqToUnseq := new bool[16], new bool[256], new byte[256];
      selectorMtf, selector := new nat[MAX_SELECTORS], new nat[MAX_SELECTORS];
      state, st := XMagic(0), Initial();
      mtf, d := null, null;
      this.sum := sum;
      new;
      assert [] + later == later;
      NothingReceived(later);
    }

    /** Before the first call. */
    lemma NothingReceived(later: seq<bool>)
      requires Shape() && r.Valid() && r.Unread() + later == later && state == XMagic(0) && st == Initial()
      ensures Rests(later, DecodeStream(sum, later))
    {
      hide Proceed, BitReader.Valid, BitReader.Unread;
    }

    /** What the symbol loop works on. */
    ghost function LoopRepr(): set<object>
      reads `mtf
    {
      if mtf == null then {} else mtf.Repr()
    }

    ghost function Repr(): set<object>
      reads `mtf, `d
    {
      {this, r, inUse16, inUse, seqToUnseq, selectorMtf, selector} + LoopRepr() + if d == null then {} else {d}
    }

    ghost predicate Shape() {
      inUse16.Length == 16 && inUse.Length == 256 == seqToUnseq.Length && inUse as object != inUse16
      && selectorMtf.Length == MAX_SELECTORS == selector.Length && selectorMtf != selector && seqToUnseq as object !in {selectorMtf as object, selector}
    }

    ghost function H(): Header
      reads `storedBlockCRC, `origPtr
    {
      Header(storedBlockCRC, origPtr)
    }

    // ---------- Where reading stands ----------

    ghost predicate AtMagic()
      reads this
    {
      state.XMagic? && st.stage == FileMagicAt(state.n)
    }

    ghost predicate AtBlkHdr()
      reads this
    {
      state.XBlkHdr? && st.stage == if state.n == 0 then BlockStart else BlockMagicAt(state.n)
    }

    ghost predicate AtBcrc()
      reads this
    {
      state == XBcrc(|storedBlockCRC|) && st.stage == BlockCrc(storedBlockCRC)
    }

    ghost predicate AtRandBit()
      reads this
    {
      state == XRandBit && st.stage == RandBit(storedBlockCRC)
    }

    ghost predicate AtOrigPtr()
      reads this
    {
      state.XOrigPtr? && st.stage == OrigPtr(storedBlockCRC, state.n, origPtr)
    }

    ghost predicate AtMapping1()
      reads this, inUse16
    {
      state == XMapping1 && i < 16 == inUse16.Length && st.stage == Flags(H(), inUse16[..i])
    }

    /** In row i of the mapping table, j of whose bits have been read. */
    ghost predicate InRows(i: nat, j: nat)
      reads `state, `st, `storedBlockCRC, `origPtr, inUse16, inUse
    {
      && state == XMapping2 && Shape() && i <= 16 && j <= 16 && 16 * i + j <= 256
      && st.stage == Rows(H(), inUse16[..], inUse[..16 * i + j]) && forall q :: 16 * i + j <= q < 256 ==> !inUse[q]
    }

    ghost predicate AtMapping2()
      reads this, inUse16, inUse
    {
      i < 16 && j < 16 && InRows(i, j) && inUse16[i]
    }

    /** The bytes of the ranks. */
    ghost predicate Mapping(used: seq<bool>)
      reads `nInUse, seqToUnseq
    {
      seqToUnseq.Length == 256 == |used| && nInUse == Rank(used, 256) && seqToUnseq[..nInUse] == UsedBytes(used, 256)
    }

    ghost predicate AtSelector1()
      reads this
    {
      state == XSelector1 && st.stage.Groups? && st.stage.h == H()
    }

    ghost predicate AtSelector2()
      reads this
    {
      state == XSelector2 && st.stage.SelectorCount? && st.stage.h == H() && st.stage.nGroups == nGroups
    }

    ghost predicate AtSelector3()
      reads this
    {
      && state == XSelector3 && st.stage.SelectorPlace? && st.stage.h == H() && st.stage.nGroups == nGroups
      && st.stage.nSelectors == nSelectors && st.stage.js == placed && st.stage.j == j && i == |placed|
    }

    /** The list positions stand at the start of their array. */
    ghost predicate Stored()
      reads `placed, selectorMtf
    {
      |placed| <= selectorMtf.Length == MAX_SELECTORS && selectorMtf[..|placed|] == placed
    }

    /** The tables that they stand for stand at the start of theirs. */
    ghost predicate Chosen()
      reads `chosen, `nSelectors, selector
    {
      nSelectors == |chosen| <= selector.Length && selector[..nSelectors] == chosen
    }

    ghost predicate AtCoding()
      reads this
    {
      && (state == XCoding1 || state == XCoding2 || state == XCoding3) && st.stage.Tables? && st.stage.h == H()
      && st.stage.selector == chosen && st.stage.nGroups == nGroups && st.stage.lens == len
      && st.stage.coding == if state == XCoding1 then FirstLength else if state == XCoding2 then Steps(row, curr) else Turn(row, curr)
    }

    /** The symbol loop of this block. */
    ghost predicate Loop(m: MtfDecoder)
      reads `blockSize100k, m.Repr(), m.seqToUnseq
    {
      && m.Valid() && m.store.nblockMAX == m.store.tt.Length == 100_000 * blockSize100k
      && {this, r, inUse16, inUse, seqToUnseq, selectorMtf, selector} !! m.Repr() && m.seqToUnseq == seqToUnseq
    }

    ghost predicate AtMtf()
      reads this, if mtf == null then {} else mtf.Repr() + {mtf.seqToUnseq}
    {
      state == XMtf && mtf != null && Loop(mtf) && st == mtf.Here(st, H())
    }

    /** Decoding the rest of a symbol, and the bits to come, gives o. */
    ghost predicate InSymbols(later: seq<bool>, o: Result)
      reads this, r, if mtf == null then {} else mtf.Repr() + {mtf.seqToUnseq}
    {
      AtMtf() && r.Valid() && Proceed(sum, st, mtf.sr.Pending(r) + later) == o
    }

    ghost predicate DryInSymbols()
      reads this, r, if mtf == null then {} else {mtf.sr}
    {
      mtf != null && r.nextIn == [] && Await(st.stage, mtf.sr.Pending(r)).Missing?
    }

    /** A block has been received, and is being put out. */
    ghost predicate AtOutput()
      reads this, if d == null then {} else {d, d.tt}
    {
      && state == XOutput && d != null && d.Valid() && d.sum == sum && {d as object, d.tt} !! {this as object, r, inUse16, inUse, seqToUnseq, selectorMtf, selector}
      && st.stage.Output? && st.stage.h == H() && origPtr < |st.stage.column|
      && d.AllOutput() == BlockBytes(st.stage.column, origPtr)
    }

    /** The decoder of a block that m has received, with nothing put out yet. */
    ghost predicate Undone(m: MtfDecoder)
      reads `d, d
    {
      d != null && d.output == [] && d.tt == m.store.tt
    }

    ghost predicate AtEndHdr()
      reads this
    {
      state.XEndHdr? && st.stage == EndMagicAt(state.n)
    }

    ghost predicate AtCcrc()
      reads this
    {
      state == XCcrc(|storedCombinedCRC|) && st.stage == EndCrc(storedCombinedCRC)
    }

    // ---------- Reading fields ----------

    /** Decoding the bits that are there and those to come gives o. */
    ghost predicate Means(later: seq<bool>, o: Result)
      reads `st, r
    {
      r.Valid() && !st.stage.Symbols? && Sound(st) && Proceed(sum, st, r.Unread() + later) == o
    }

    /** There is nothing left to read, and the next field is not complete. */
    ghost predicate Dry()
      reads `st, r
    {
      r.nextIn == [] && !st.stage.Symbols? && Await(st.stage, r.Unread()).Missing?
    }

    /** After this move, decoding the bits that are there and those to come gives o. */
    ghost predicate Landed(m: Move, later: seq<bool>, o: Result)
      reads r
    {
      r.Valid() && Follow(sum, m, r.Unread() + later) == o && (m.Go? ==> Sound(m.s))
    }

    lemma OnWay(m: Move, later: seq<bool>, o: Result)
      requires Landed(m, later, o) && m == Go(st) && !st.stage.Symbols?
      ensures Means(later, o)
    {
      hide Proceed, Sound, BitReader.Valid;
    }

    /** How many bytes have been read of a field of several. */
    lemma BytesSoFar(later: seq<bool>, o: Result)
      requires Means(later, o)
      ensures st.stage.FileMagicAt? ==> st.stage.n <= 3
      ensures st.stage.BlockMagicAt? || st.stage.EndMagicAt? ==> 1 <= st.stage.n <= 5
      ensures st.stage.BlockCrc? || st.stage.EndCrc? ==> |st.stage.got| <= 3
      ensures st.stage.OrigPtr? ==> st.stage.n <= 2
    {
      hide Proceed, BitReader.Valid;
    }

    lemma PlacesSoFar(later: seq<bool>, o: Result)
      requires Means(later, o) && st.stage.SelectorPlace?
      ensures 2 <= st.stage.nGroups <= 6 && AllBelow(st.stage.js, st.stage.nGroups) && |st.stage.js| <= st.stage.nSelectors
    {
      hide Proceed, BitReader.Valid;
    }

    lemma Halted(m: Move, later: seq<bool>, o: Result)
      requires Landed(m, later, o) && m.Stop?
      ensures o.status == m.status && o.output == m.output
    {
      hide BitReader.Valid;
    }

    /** GET_BITS: a field of n bits, or else the input has run out. */
    method Field(n: nat, ghost later: seq<bool>, ghost o: Result) returns (ok: bool, v: nat, ghost m: Move)
      requires Means(later, o) && 0 < n <= 24 && Width(st.stage) == n
      modifies r
      ensures ok ==> v < Pow2(n) && m == Next(sum, st, v) && |r.Unread()| < |old(r.Unread())|
      ensures ok ==> Landed(m, later, o)
      ensures !ok ==> Means(later, o) && Dry()
    {
      hide Width, Next, Follow, Proceed, Pow2, Value, Sound, BitReader.Valid;
      ghost var unread := r.Unread();
      ok, v := r.GetBits(n);
      m := Next(sum, st, v);
      if ok {
        FieldRead(sum, st, n, unread, later);
        if m.Go? { NextSound(sum, st, v); }
      }
    }

    /** GET_UCHAR */
    method Byte(ghost later: seq<bool>, ghost o: Result) returns (ok: bool, uc: byte, ghost m: Move)
      requires Means(later, o) && Width(st.stage) == 8
      modifies r
      ensures ok ==> m == Next(sum, st, uc)
      ensures ok ==> Landed(m, later, o)
      ensures !ok ==> Means(later, o) && Dry()
    {
      hide Width, Next, Means, Dry, Pow2, Landed;
      Pow2Of24();
      var v;
      ok, v, m := Field(8, later, o);
      uc := 0;
      if ok { uc := v; }
    }

    /** GET_BIT */
    method Bit(ghost later: seq<bool>, ghost o: Result) returns (ok: bool, uc: nat, ghost m: Move)
      requires Means(later, o) && Width(st.stage) == 1
      modifies r
      ensures ok ==> uc <= 1 && m == Next(sum, st, uc) && |r.Unread()| < |old(r.Unread())|
      ensures ok ==> Landed(m, later, o)
      ensures !ok ==> Means(later, o) && Dry()
    {
      hide Width, Next, Means, Dry, Pow2, Landed;
      TwoBits();
      ok, uc, m := Field(1, later, o);
    }

    /** A step that reads nothing. */
    lemma QuietStep(later: seq<bool>, o: Result)
      requires Means(later, o) && Width(st.stage) == 0
      ensures Landed(Next(sum, st, 0), later, o)
    {
      hide Width, Next, Follow, Proceed, Sound, BitReader.Valid;
      NothingRead(sum, st, r.Unread() + later);
      if Next(sum, st, 0).Go? { NextSound(sum, st, 0); }
    }

    // ---------- The stream header ----------

    method MagicByte(ghost later: seq<bool>, ghost o: Result) returns (p: Progress)
      requires AtMagic() && Means(later, o)
      modifies r, this`state, this`st, this`blockSize100k
      ensures st.output == old(st.output) && st.combined == old(st.combined) && old(state.n) <= 3
      ensures p == GoOn ==> Means(later, o) && if old(state.n) < 3 then AtMagic() && state.n == old(state.n) + 1 else AtBlkHdr() && st.k == blockSize100k
      ensures p == Starved ==> AtMagic() && Means(later, o) && Dry()
      ensures p != GoOn && p != Starved ==> p.Ended? && Wrong(p.status) && o.status == p.status && o.output == st.output
    {
      hide Means, Dry, Landed, Next, Width, Pow2, Proceed, Sound, Await, BitReader.Valid, BitReader.Unread;
      var n := state.n;
      BytesSoFar(later, o);
      WidthIs(st.stage, 8);
      var ok, uc, m := Byte(later, o);
      if !ok { return Starved; }
      FileMagicSteps(sum, st, n, uc);
      if if n < 3 then uc != FileMagic(1)[n] else uc < 0x31 || uc > 0x39 {
        Halted(m, later, o);
        return Ended(DataErrorMagic);
      }
      if n < 3 { state := XMagic(n + 1); } else { blockSize100k, state := uc - 0x30, XBlkHdr(0); }
      st := m.s;
      OnWay(m, later, o);
      p := GoOn;
    }

    method ReceiveMagic(ghost later: seq<bool>, ghost o: Result) returns (p: Progress)
      requires AtMagic() && Means(later, o)
      modifies r, this`state, this`st, this`blockSize100k
      ensures st.output == old(st.output) && st.combined == old(st.combined)
      ensures p == GoOn ==> AtBlkHdr() && Means(later, o) && st.k == blockSize100k
      ensures p == Starved ==> AtMagic() && Means(later, o) && Dry()
      ensures p != GoOn && p != Starved ==> p.Ended? && Wrong(p.status) && o.status == p.status && o.output == st.output
    {
      hide Means, Dry, Landed, Next, Width, Pow2, Proceed, Sound, Await, BitReader.Valid, BitReader.Unread;
      while state.XMagic?
        invariant if state.XMagic? then AtMagic() else AtBlkHdr() && st.k == blockSize100k
        invariant Means(later, o) && st.output == old(st.output) && st.combined == old(st.combined)
        decreases if state.XMagic? then 4 - state.n else 0
      {
        p := MagicByte(later, o);
        if p != GoOn { return; }
      }
      p := GoOn;
    }

    // ---------- Block header ----------

    /** The first byte after a block or the stream header tells a block from the trailer. */
    method ReceiveFirst(ghost later: seq<bool>, ghost o: Result) returns (p: Progress)
      requires AtBlkHdr() && state.n == 0 && Means(later, o)
      modifies r, this`state, this`st
      ensures st == old(st).At(st.stage)
      ensures p == GoOn ==> (AtEndHdr() || (AtBlkHdr() && state.n == 1)) && Means(later, o)
      ensures p == Starved ==> AtBlkHdr() && Means(later, o) && Dry()
      ensures p != GoOn && p != Starved ==> p.Ended? && Wrong(p.status) && o.status == p.status && o.output == st.output
    {
      hide Means, Dry, Landed, Next, Width, Pow2, Proceed, Sound, Await, BitReader.Valid, BitReader.Unread;
      WidthIs(st.stage, 8);
      var ok, uc, m := Byte(later, o);
      if !ok { return Starved; }
      StartSteps(sum, st, uc);
      if uc != 0x17 && uc != 0x31 {
        Halted(m, later, o);
        return Ended(DataError);
      }
      state, st := if uc == 0x17 then XEndHdr(1) else XBlkHdr(1), m.s;
      OnWay(m, later, o);
      p := GoOn;
    }

    method BlockMagicByte(ghost later: seq<bool>, ghost o: Result) returns (p: Progress)
      requires AtBlkHdr() && state.n >= 1 && Means(later, o)
      modifies r, this`state, this`st, this`storedBlockCRC
      ensures st == old(st).At(st.stage) && old(state.n) <= 5
      ensures p == GoOn ==> Means(later, o) && if old(state.n) < 5 then AtBlkHdr() && state.n == old(state.n) + 1 else AtBcrc()
      ensures p == Starved ==> AtBlkHdr() && Means(later, o) && Dry()
      ensures p != GoOn && p != Starved ==> p.Ended? && Wrong(p.status) && o.status == p.status && o.output == st.output
    {
      hide Means, Dry, Landed, Next, Width, Pow2, Proceed, Sound, Await, BitReader.Valid, BitReader.Unread;
      var n := state.n;
      BytesSoFar(later, o);
      WidthIs(st.stage, 8);
      var ok, uc, m := Byte(later, o);
      if !ok { return Starved; }
      BlockMagicSteps(sum, st, n, uc);
      if uc != BlockMagic()[n] {
        Halted(m, later, o);
        return Ended(DataError);
      }
      if n == 5 { storedBlockCRC := []; }
      state, st := if n == 5 then XBcrc(0) else XBlkHdr(n + 1), m.s;
      OnWay(m, later, o);
      p := GoOn;
    }

    /** The rest of the magic number of a block. */
    method ReceiveBlockMagic(ghost later: seq<bool>, ghost o: Result) returns (p: Progress)
      requires AtBlkHdr() && state.n >= 1 && Means(later, o)
      modifies r, this`state, this`st, this`storedBlockCRC
      ensures st == old(st).At(st.stage)
      ensures p == GoOn ==> AtBcrc() && Means(later, o)
      ensures p == Starved ==> AtBlkHdr() && Means(later, o) && Dry()
      ensures p != GoOn && p != Starved ==> p.Ended? && Wrong(p.status) && o.status == p.status && o.output == st.output
    {
      hide Means, Dry, Landed, Next, Width, Pow2, Proceed, Sound, Await, BitReader.Valid, BitReader.Unread;
      while state.XBlkHdr?
        invariant if state.XBlkHdr? then AtBlkHdr() && state.n >= 1 else AtBcrc()
        invariant Means(later, o) && st == old(st).At(st.stage)
        decreases if state.XBlkHdr? then 6 - state.n else 0
      {
        p := BlockMagicByte(later, o);
        if p != GoOn { return; }
      }
      p := GoOn;
    }

    method ReceiveBlockCrc(ghost later: seq<bool>, ghost o: Result) returns (p: Progress)
      requires AtBcrc() && Means(later, o)
      modifies r, this`state, this`st, this`storedBlockCRC
      ensures st == old(st).At(st.stage)
      ensures p == GoOn ==> AtRandBit() && Means(later, o)
      ensures p == Starved ==> AtBcrc() && Means(later, o) && Dry()
      ensures p == GoOn || p == Starved
    {
      hide Means, Dry, Landed, Next, Width, Pow2, Proceed, Sound, Await, BitReader.Valid, BitReader.Unread;
      while state.XBcrc?
        invariant if state.XBcrc? then AtBcrc() else AtRandBit()
        invariant Means(later, o) && st == old(st).At(st.stage)
        decreases if state.XBcrc? then 4 - state.n else 0
      {
        BytesSoFar(later, o);
        WidthIs(st.stage, 8);
        var ok, uc, m := Byte(later, o);
        if !ok { return Starved; }
        CrcSteps(sum, st, storedBlockCRC, uc);
        storedBlockCRC := storedBlockCRC + [uc];
        state, st := if |storedBlockCRC| == 4 then XRandBit else XBcrc(|storedBlockCRC|), m.s;
        OnWay(m, later, o);
      }
      p := GoOn;
    }

    method ReceiveRandBit(ghost later: seq<bool>, ghost o: Result) returns (p: Progress)
      requires AtRandBit() && Means(later, o)
      modifies r, this`state, this`st, this`origPtr
      ensures st == old(st).At(st.stage)
      ensures p == GoOn ==> AtOrigPtr() && Means(later, o)
      ensures p == Starved ==> AtRandBit() && Means(later, o) && Dry()
      ensures p != GoOn && p != Starved ==> p.Ended? && Wrong(p.status) && o.status == p.status && o.output == st.output
    {
      hide Means, Dry, Landed, Next, Width, Pow2, Proceed, Sound, Await, BitReader.Valid, BitReader.Unread;
      WidthIs(st.stage, 1);
      var ok, uc, m := Bit(later, o);
      if !ok { return Starved; }
      RandSteps(sum, st, storedBlockCRC, uc);
      if uc == 1 {
        Halted(m, later, o);
        return Ended(Randomised);
      }
      origPtr, state, st := 0, XOrigPtr(0), m.s;
      OnWay(m, later, o);
      p := GoOn;
    }

    method OrigPtrByte(ghost later: seq<bool>, ghost o: Result) returns (p: Progress)
      requires AtOrigPtr() && Means(later, o) && st.k == blockSize100k && Shape()
      modifies r, this`state, this`st, this`origPtr, this`i
      ensures st == old(st).At(st.stage) && old(state.n) <= 2
      ensures p == GoOn ==> Means(later, o) && if old(state.n) < 2 then AtOrigPtr() && state.n == old(state.n) + 1 else AtMapping1()
      ensures p == Starved ==> AtOrigPtr() && Means(later, o) && Dry()
      ensures p != GoOn && p != Starved ==> p.Ended? && Wrong(p.status) && o.status == p.status && o.output == st.output
    {
      hide Means, Dry, Landed, Next, Width, Pow2, Proceed, Sound, Await, BitReader.Valid, BitReader.Unread;
      BytesSoFar(later, o);
      WidthIs(st.stage, 8);
      var ok, uc, m := Byte(later, o);
      if !ok { return Starved; }
      OrigPtrSteps(sum, st, storedBlockCRC, state.n, origPtr, uc);
      origPtr := 256 * origPtr + uc;
      if state.n == 2 {
        if origPtr > 10 + 100_000 * blockSize100k {
          Halted(m, later, o);
          return Ended(DataError);
        }
        i, state := 0, XMapping1;
      } else {
        state := XOrigPtr(state.n + 1);
      }
      st := m.s;
      OnWay(m, later, o);
      p := GoOn;
    }

    method ReceiveOrigPtr(ghost later: seq<bool>, ghost o: Result) returns (p: Progress)
      requires AtOrigPtr() && Means(later, o) && st.k == blockSize100k && Shape()
      modifies r, this`state, this`st, this`origPtr, this`i
      ensures st == old(st).At(st.stage)
      ensures p == GoOn ==> AtMapping1() && Means(later, o)
      ensures p == Starved ==> AtOrigPtr() && Means(later, o) && Dry()
      ensures p != GoOn && p != Starved ==> p.Ended? && Wrong(p.status) && o.status == p.status && o.output == st.output
    {
      hide Means, Dry, Proceed;
      p := GoOn;
      while p == GoOn && state.XOrigPtr?
        invariant p == GoOn ==> Means(later, o) && if state.XOrigPtr? then AtOrigPtr() else AtMapping1()
        invariant p == Starved ==> AtOrigPtr() && Means(later, o) && Dry()
        invariant p != GoOn && p != Starved ==> p.Ended? && Wrong(p.status) && o.status == p.status && o.output == st.output
        invariant st == old(st).At(st.stage)
        decreases p == GoOn, if state.XOrigPtr? then 3 - state.n else 0
      {
        p := OrigPtrByte(later, o);
      }
    }

    // ---------- Mapping table ----------

    /** Among the row flags, or behind them. */
    ghost predicate FlagsSoFar()
      reads this, inUse16
    {
      if i < 16 then AtMapping1() else i == 16 == inUse16.Length && st.stage == Rows(H(), inUse16[..], [])
    }

    method FlagBit(ghost later: seq<bool>, ghost o: Result) returns (p: Progress)
      requires AtMapping1() && Means(later, o) && Shape()
      modifies r, this`st, this`i, inUse16
      ensures st == old(st).At(st.stage) && (p == GoOn || p == Starved)
      ensures p == GoOn ==> i == old(i) + 1 && FlagsSoFar() && Means(later, o)
      ensures p == Starved ==> AtMapping1() && Means(later, o) && Dry()
    {
      hide Means, Dry, Landed, Next, Width, Pow2, Proceed, Sound, Await, BitReader.Valid, BitReader.Unread;
      WidthIs(st.stage, 1);
      var ok, uc, m := Bit(later, o);
      if !ok { return Starved; }
      FlagSteps(sum, st, H(), inUse16[..i], uc);
      SetFlag(uc == 1);
      st := m.s;
      OnWay(m, later, o);
      p := GoOn;
    }

    method ReceiveFlags(ghost later: seq<bool>, ghost o: Result) returns (p: Progress)
      requires AtMapping1() && Means(later, o) && Shape()
      modifies r, this`state, this`st, this`i, this`j, inUse16, inUse
      ensures st == old(st).At(st.stage)
      ensures p == GoOn ==> i == j == 0 && InRows(0, 0) && Means(later, o)
      ensures p == Starved ==> AtMapping1() && Means(later, o) && Dry()
      ensures p == GoOn || p == Starved
    {
      hide Means, Dry, AtMapping1, InRows;
      FlagsHere();
      p := GoOn;
      while p == GoOn && i < 16
        invariant if p == GoOn then FlagsSoFar() && Means(later, o) else p == Starved && AtMapping1() && Means(later, o) && Dry()
        invariant st == old(st).At(st.stage)
        decreases p == GoOn, 16 - i
      {
        p := FlagBit(later, o);
      }
      if p == GoOn { StartRows(); }
    }

    lemma FlagsHere()
      requires AtMapping1()
      ensures FlagsSoFar()
    {
    }

    method StartRows()
      requires Shape() && i >= 16 && FlagsSoFar()
      modifies this`state, this`i, this`j, inUse
      ensures i == j == 0 && InRows(0, 0)
    {
      ClearUse();
      i, j, state := 0, 0, XMapping2;
    }

    method SetFlag(flag: bool)
      requires Shape() && i < 16
      modifies `i, inUse16
      ensures i == old(i) + 1 && inUse16[..i] == old(inUse16[..i]) + [flag] && (i == 16 ==> inUse16[..i] == inUse16[..])
    {
      inUse16[i] := flag;
      i := i + 1;
    }

    method ClearUse()
      requires inUse.Length == 256
      modifies inUse
      ensures inUse[..0] == [] && forall q :: 0 <= q < 256 ==> !inUse[q]
    {
      for q := 0 to 256
        invariant forall k :: 0 <= k < q ==> !inUse[k]
      {
        inUse[q] := false;
      }
    }

    /** One bit of a row that is present. */
    method RowBit(ghost later: seq<bool>, ghost o: Result) returns (ok: bool)
      requires i < 16 && j < 16 && InRows(i, j) && inUse16[i] && Means(later, o)
      modifies r, this`st, this`j, inUse
      ensures st == old(st).At(st.stage)
      ensures ok ==> j == old(j) + 1 && InRows(i, j) && Means(later, o)
      ensures !ok ==> AtMapping2() && Means(later, o) && Dry()
    {
      hide Means, Dry, Landed, Next, Width, Pow2, Proceed, Sound, Await, BitReader.Valid, BitReader.Unread;
      ghost var m, used := Fail(st), inUse[..16 * i + j];
      var uc;
      WidthIs(st.stage, 1);
      ok, uc, m := Bit(later, o);
      if !ok { return; }
      RowSteps(sum, st, H(), inUse16[..], used, uc);
      SetUse(16 * i + j, uc == 1);
      j := j + 1;
      st := m.s;
      OnWay(m, later, o);
    }

    method SetUse(q: nat, used: bool)
      requires inUse.Length == 256 && q < 256 && forall k :: q <= k < 256 ==> !inUse[k]
      modifies inUse
      ensures inUse[..q + 1] == old(inUse[..q]) + [used] && forall k :: q + 1 <= k < 256 ==> !inUse[k]
    {
      if used { inUse[q] := true; }
    }

    /** The rest of a row that is present. */
    method ReceiveRow(ghost later: seq<bool>, ghost o: Result) returns (ok: bool)
      requires i < 16 && InRows(i, j) && inUse16[i] && Means(later, o)
      modifies r, this`st, this`j, inUse
      ensures st == old(st).At(st.stage)
      ensures ok ==> InRows(i, 16) && Means(later, o)
      ensures !ok ==> AtMapping2() && Means(later, o) && Dry()
    {
      hide Means, Dry, Landed, Next, Width, Pow2, Proceed, Sound, Await, BitReader.Valid, BitReader.Unread;
      ok := true;
      while ok && j < 16
        invariant st == old(st).At(st.stage)
        invariant if ok then InRows(i, j) && Means(later, o) else AtMapping2() && Means(later, o) && Dry()
        decreases ok, 16 - j
      {
        ok := RowBit(later, o);
      }
    }

    /** A row that is not present. */
    ghost method SkipRow(later: seq<bool>, o: Result)
      requires i < 16 && InRows(i, 0) && !inUse16[i] && Means(later, o)
      modifies this`st
      ensures st == old(st).At(st.stage) && InRows(i, 16) && Means(later, o)
    {
      hide Means, Dry, Landed, Next, Width, Pow2, Proceed, Sound, Await, BitReader.Valid, BitReader.Unread;
      assert inUse[..16 * i + 0] == inUse[..16 * i];
      RowSteps(sum, st, H(), inUse16[..], inUse[..16 * i], 0);
      WidthIs(st.stage, 0);
      QuietStep(later, o);
      assert inUse[..16 * i + 16] == inUse[..16 * i] + NoRow();
      ghost var m := Next(sum, st, 0);
      st := m.s;
      OnWay(m, later, o);
    }

    lemma NextRow(i: nat)
      requires i < 16 && InRows(i, 16)
      ensures InRows(i + 1, 0)
    {
      assert 16 * i + 16 == 16 * (i + 1) + 0;
    }

    /** Reading stands in row i of the table, and in the middle of it only if it is present. */
    ghost predicate OnRow()
      reads this, inUse16, inUse
    {
      Shape() && i <= 16 && j <= 16 && InRows(i, j) && (i == 16 ==> j == 0) && (j > 0 ==> i < 16 && inUse16[i])
    }

    method ReceiveRows(ghost later: seq<bool>, ghost o: Result) returns (p: Progress)
      requires OnRow() && Means(later, o)
      modifies r, this`state, this`st, this`i, this`j, this`nInUse, inUse, seqToUnseq
      ensures st == old(st).At(st.stage)
      ensures p == GoOn ==> AtSelector1() && Mapping(st.stage.used) && Means(later, o)
      ensures p == Starved ==> AtMapping2() && Means(later, o) && Dry()
      ensures p != GoOn && p != Starved ==> p.Ended? && Wrong(p.status) && o.status == p.status && o.output == st.output
    {
      hide Proceed, BitReader.Valid, Await, Next, Width, InRows, Rank, Dry, Means;
      while i < 16
        invariant OnRow() && Means(later, o) && st == old(st).At(st.stage)
        decreases 16 - i
      {
        if inUse16[i] {
          var ok := ReceiveRow(later, o);
          if !ok { return Starved; }
        } else {
          SkipRow(later, o);
        }
        NextRow(i);
        i, j := i + 1, 0;
      }
      p := MakeMaps(later, o);
    }

    method MakeMaps(ghost later: seq<bool>, ghost o: Result) returns (p: Progress)
      requires InRows(16, 0) && Means(later, o)
      modifies this`state, this`st, this`nInUse, seqToUnseq
      ensures st == old(st).At(st.stage)
      ensures p == GoOn ==> AtSelector1() && Mapping(st.stage.used) && Means(later, o)
      ensures p != GoOn ==> p.Ended? && Wrong(p.status) && o.status == p.status && o.output == st.output
    {
      hide Means, Dry, Landed, Next, Width, Pow2, Proceed, Sound, Await, BitReader.Valid, BitReader.Unread, Rank, UsedBytes;
      assert inUse[..16 * 16 + 0] == inUse[..];
      RowSteps(sum, st, H(), inUse16[..], inUse[..], 0);
      WidthIs(st.stage, 0);
      QuietStep(later, o);
      ghost var m := Next(sum, st, 0);
      nInUse := MakeMapsD(inUse, seqToUnseq);
      if nInUse == 0 {
        Halted(m, later, o);
        return Ended(DataError);
      }
      state, st := XSelector1, m.s;
      OnWay(m, later, o);
      p := GoOn;
    }

    // ---------- Selectors ----------

    method ReceiveGroups(ghost later: seq<bool>, ghost o: Result) returns (p: Progress)
      requires AtSelector1() && Means(later, o)
      modifies r, this`state, this`st, this`nGroups
      ensures st == old(st).At(st.stage)
      ensures p == GoOn ==> AtSelector2() && Means(later, o) && st.stage.used == old(st.stage.used)
      ensures p == Starved ==> AtSelector1() && Means(later, o) && Dry() && st.stage.used == old(st.stage.used)
      ensures p != GoOn && p != Starved ==> p.Ended? && Wrong(p.status) && o.status == p.status && o.output == st.output
    {
      hide Means, Dry, Landed, Next, Width, Pow2, Proceed, Sound, Await, BitReader.Valid, BitReader.Unread;
      WidthIs(st.stage, 3);
      var ok, v, m := Field(3, later, o);
      if !ok { return Starved; }
      GroupSteps(sum, st, H(), st.stage.used, v);
      nGroups := v;
      if nGroups < 2 || nGroups > 6 {
        Halted(m, later, o);
        return Ended(DataError);
      }
      state, st := XSelector2, m.s;
      OnWay(m, later, o);
      p := GoOn;
    }

    method ReceiveCount(ghost later: seq<bool>, ghost o: Result) returns (p: Progress)
      requires AtSelector2() && Means(later, o)
      modifies r, this`state, this`st, this`nSelectors, this`placed, this`i, this`j
      ensures st == old(st).At(st.stage)
      ensures p == GoOn ==> AtSelector3() && placed == [] && Means(later, o) && st.stage.used == old(st.stage.used)
      ensures p == Starved ==> AtSelector2() && Means(later, o) && Dry() && st.stage.used == old(st.stage.used)
      ensures p != GoOn && p != Starved ==> p.Ended? && Wrong(p.status) && o.status == p.status && o.output == st.output
    {
      hide Means, Dry, Landed, Next, Width, Pow2, Proceed, Sound, Await, BitReader.Valid, BitReader.Unread;
      WidthIs(st.stage, 15);
      var ok, v, m := Field(15, later, o);
      if !ok { return Starved; }
      CountSteps(sum, st, H(), st.stage.used, nGroups, v);
      nSelectors := v;
      if nSelectors < 1 {
        Halted(m, later, o);
        return Ended(DataError);
      }
      placed, i, j, state, st := [], 0, 0, XSelector3, m.s;
      OnWay(m, later, o);
      p := GoOn;
    }

    /** One bit of a list position in unary; the last one stores the position, if the array has room for it. */
    method PlaceBit(ghost later: seq<bool>, ghost o: Result) returns (p: Progress)
      requires AtSelector3() && Stored() && i < nSelectors && Means(later, o)
      modifies r, this`st, this`i, this`j, this`placed, selectorMtf
      ensures st == old(st).At(st.stage)
      ensures p == GoOn ==> AtSelector3() && Stored() && Means(later, o) && st.stage.used == old(st.stage.used) && |r.Unread()| < |old(r.Unread())|
      ensures p == Starved ==> AtSelector3() && Stored() && Means(later, o) && Dry() && st.stage.used == old(st.stage.used)
      ensures p != GoOn && p != Starved ==> p.Ended? && Wrong(p.status) && o.status == p.status && o.output == st.output
    {
      hide Means, Dry, Landed, Next, Width, Pow2, Proceed, Sound, Await, BitReader.Valid, BitReader.Unread, SelectorOf;
      WidthIs(st.stage, 1);
      var ok, uc, m := Bit(later, o);
      if !ok { return Starved; }
      PlaceSteps(sum, st, H(), st.stage.used, nGroups, nSelectors, placed, j, uc);
      if uc == 0 {
        if i >= MAX_SELECTORS {
          Halted(m, later, o);
          return Ended(Overrun);
        }
        selectorMtf[i] := j;
        placed := placed + [j];
        i, j := i + 1, 0;
      } else {
        j := j + 1;
        if j >= nGroups {
          Halted(m, later, o);
          return Ended(DataError);
        }
      }
      st := m.s;
      OnWay(m, later, o);
      p := GoOn;
    }

    method ReceivePlaces(ghost later: seq<bool>, ghost o: Result) returns (p: Progress)
      requires AtSelector3() && Stored() && Means(later, o) && Shape()
      modifies r, this`state, this`st, this`i, this`j, this`placed, this`chosen, this`len, selectorMtf, selector
      ensures st == old(st).At(st.stage)
      ensures p == GoOn ==> AtCoding() && Chosen() && state == XCoding1 && Means(later, o) && st.stage.used == old(st.stage.used)
      ensures p == Starved ==> AtSelector3() && Stored() && Means(later, o) && Dry() && st.stage.used == old(st.stage.used)
      ensures p != GoOn && p != Starved ==> p.Ended? && Wrong(p.status) && o.status == p.status && o.output == st.output
    {
      hide Proceed, Means, Dry, Next, Sound, Stored;
      p := GoOn;
      while p == GoOn && i < nSelectors
        invariant st == old(st).At(st.stage)
        invariant p == GoOn || p == Starved ==> AtSelector3() && Stored() && Means(later, o) && st.stage.used == old(st.stage.used) && (p == Starved ==> Dry())
        invariant p != GoOn && p != Starved ==> p.Ended? && Wrong(p.status) && o.status == p.status && o.output == st.output
        decreases p == GoOn, |r.Unread()|
      {
        p := PlaceBit(later, o);
      }
      if p == GoOn { UndoMtf(later, o); }
    }

    /** The tables that the list positions stand for go into their array. */
    method ChooseTables()
      requires Stored() && Shape() && nSelectors == |placed| && 2 <= nGroups <= 6 && AllBelow(placed, nGroups)
      modifies this`chosen, selector
      ensures Chosen() && chosen == SelectorOf(nGroups, placed)
    {
      hide SelectorOf;
      UndoPositions(nGroups, selectorMtf, selector, nSelectors);
      chosen := selector[..nSelectors];
      SelectorIs(nGroups, placed, chosen);
    }

    method UndoMtf(ghost later: seq<bool>, ghost o: Result)
      requires AtSelector3() && Stored() && i >= nSelectors && Means(later, o) && Shape()
      modifies this`state, this`st, this`chosen, this`len, selector
      ensures st == old(st).At(st.stage) && AtCoding() && Chosen() && state == XCoding1 && Means(later, o) && st.stage.used == old(st.stage.used)
    {
      hide Means, Dry, Landed, Next, Width, Pow2, Proceed, Sound, Await, BitReader.Valid, BitReader.Unread, SelectorOf;
      PlacesSoFar(later, o);
      PlaceSteps(sum, st, H(), st.stage.used, nGroups, nSelectors, placed, j, 0);
      WidthIs(st.stage, 0);
      QuietStep(later, o);
      ghost var m := Next(sum, st, 0);
      ChooseTables();
      len, state, st := [], XCoding1, m.s;
      OnWay(m, later, o);
    }

    // ---------- Coding tables ----------

    /** The first length of a table. */
    method ReceiveStart(ghost later: seq<bool>, ghost o: Result) returns (p: Progress)
      requires AtCoding() && |len| < nGroups && state == XCoding1 && Means(later, o)
      modifies r, this`state, this`st, this`row, this`curr
      ensures st == old(st).At(st.stage)
      ensures p == GoOn ==> AtCoding() && Means(later, o) && st.stage.used == old(st.stage.used) && |r.Unread()| < |old(r.Unread())|
      ensures p == Starved ==> AtCoding() && Means(later, o) && Dry() && st.stage.used == old(st.stage.used)
      ensures p != GoOn && p != Starved ==> p.Ended? && Wrong(p.status) && o.status == p.status && o.output == st.output
    {
      hide Means, Dry, Landed, Next, Width, Pow2, Proceed, Sound, Await, BitReader.Valid, BitReader.Unread;
      WidthIs(st.stage, 5);
      var ok, v, m := Field(5, later, o);
      if !ok { return Starved; }
      CodingSteps(sum, st, H(), st.stage.used, chosen, nGroups, len, st.stage.coding, v);
      row, curr := [], v;
      if curr < 1 || curr > 20 {
        Halted(m, later, o);
        return Ended(DataError);
      }
      state, st := XCoding2, m.s;
      OnWay(m, later, o);
      p := GoOn;
    }

    /** Whether the next length is the current one. */
    method ReceiveStep(ghost later: seq<bool>, ghost o: Result) returns (p: Progress)
      requires AtCoding() && |len| < nGroups && state == XCoding2 && Means(later, o) && AlphaSize(st.stage.used) == nInUse + 2
      modifies r, this`state, this`st, this`row, this`len
      ensures st == old(st).At(st.stage)
      ensures p == GoOn ==> AtCoding() && Means(later, o) && st.stage.used == old(st.stage.used) && |r.Unread()| < |old(r.Unread())|
      ensures p == Starved ==> AtCoding() && Means(later, o) && Dry() && |len| < nGroups && st.stage.used == old(st.stage.used)
      ensures p == GoOn || p == Starved
    {
      hide Means, Dry, Landed, Next, Width, Pow2, Proceed, Sound, Await, BitReader.Valid, BitReader.Unread, AlphaSize;
      RowFits(later, o);
      WidthIs(st.stage, 1);
      var ok, uc, m := Bit(later, o);
      if !ok { return Starved; }
      CodingSteps(sum, st, H(), st.stage.used, chosen, nGroups, len, st.stage.coding, uc);
      if uc == 1 {
        state, st := XCoding3, m.s;
      } else {
        EndLength(m);
      }
      OnWay(m, later, o);
      p := GoOn;
    }

    /** The current length is the next one, which may be the last of its table. */
    method EndLength(ghost m: Move)
      requires AtCoding() && |len| < nGroups && state == XCoding2 && AlphaSize(st.stage.used) == nInUse + 2 && |row| < nInUse + 2
      requires m == AfterCoding(st, st.stage.h, st.stage.used, chosen, nGroups, len, Steps(row, curr), 0)
      modifies this`state, this`st, this`row, this`len
      ensures m == Go(st) && st == old(st).At(st.stage) && AtCoding() && st.stage.used == old(st.stage.used)
    {
      hide AlphaSize;
      st := m.s;
      row := row + [curr];
      if |row| == nInUse + 2 {
        len, state := len + [row], XCoding1;
      }
    }

    lemma RowFits(later: seq<bool>, o: Result)
      requires Means(later, o) && AtCoding() && |len| < nGroups && state == XCoding2
      ensures |row| < AlphaSize(st.stage.used)
    {
    }

    /** Whether the current length goes up or down. */
    method ReceiveTurn(ghost later: seq<bool>, ghost o: Result) returns (p: Progress)
      requires AtCoding() && |len| < nGroups && state == XCoding3 && Means(later, o)
      modifies r, this`state, this`st, this`curr
      ensures st == old(st).At(st.stage)
      ensures p == GoOn ==> AtCoding() && Means(later, o) && st.stage.used == old(st.stage.used) && |r.Unread()| < |old(r.Unread())|
      ensures p == Starved ==> AtCoding() && Means(later, o) && Dry() && st.stage.used == old(st.stage.used)
      ensures p != GoOn && p != Starved ==> p.Ended? && Wrong(p.status) && o.status == p.status && o.output == st.output
    {
      hide Means, Dry, Landed, Next, Width, Pow2, Proceed, Sound, Await, BitReader.Valid, BitReader.Unread;
      WidthIs(st.stage, 1);
      var ok, uc, m := Bit(later, o);
      if !ok { return Starved; }
      CodingSteps(sum, st, H(), st.stage.used, chosen, nGroups, len, st.stage.coding, uc);
      if uc == 0 { curr := curr + 1; } else { curr := curr - 1; }
      if curr < 1 || curr > 20 {
        Halted(m, later, o);
        return Ended(DataError);
      }
      state, st := XCoding2, m.s;
      OnWay(m, later, o);
      p := GoOn;
    }

    /** In the coding tables of a block with the mapping table `used`. */
    ghost predicate InTables(used: seq<bool>)
      reads this
    {
      AtCoding() && st.stage.used == used && AlphaSize(used) == nInUse + 2
    }

    method CodingField(ghost used: seq<bool>, ghost later: seq<bool>, ghost o: Result) returns (p: Progress)
      requires InTables(used) && |len| < nGroups && Means(later, o)
      modifies r, this`state, this`st, this`len, this`row, this`curr
      ensures st == old(st).At(st.stage)
      ensures p == GoOn ==> InTables(used) && Means(later, o) && |r.Unread()| < |old(r.Unread())|
      ensures p == Starved ==> InTables(used) && Means(later, o) && Dry()
      ensures p != GoOn && p != Starved ==> p.Ended? && Wrong(p.status) && o.status == p.status && o.output == st.output
    {
      hide Proceed, BitReader.Valid, Await, Next, Width, AlphaSize, Means, Dry, Sound;
      if state == XCoding1 {
        p := ReceiveStart(later, o);
      } else if state == XCoding2 {
        p := ReceiveStep(later, o);
      } else {
        p := ReceiveTurn(later, o);
      }
    }

    method ReceiveTables(ghost used: seq<bool>, ghost later: seq<bool>, ghost o: Result) returns (p: Progress)
      requires InTables(used) && Means(later, o)
      modifies r, this`state, this`st, this`len, this`row, this`curr
      ensures st == old(st).At(st.stage)
      ensures p == GoOn ==> InTables(used) && |len| >= nGroups && Means(later, o)
      ensures p == Starved ==> InTables(used) && Means(later, o) && Dry()
      ensures p != GoOn && p != Starved ==> p.Ended? && Wrong(p.status) && o.status == p.status && o.output == st.output
    {
      hide InTables, Proceed, Means, Dry;
      p := GoOn;
      while p == GoOn && |len| < nGroups
        invariant st == old(st).At(st.stage)
        invariant p == GoOn || p == Starved ==> InTables(used) && Means(later, o) && (p == Starved ==> Dry())
        invariant p != GoOn && p != Starved ==> p.Ended? && Wrong(p.status) && o.status == p.status && o.output == st.output
        decreases p == GoOn, |r.Unread()|
      {
        p := CodingField(used, later, o);
      }
    }

    // ---------- Symbols ----------

    /** Makes the decoding tables and all else that the symbol loop works on. */
    method MakeLoop(ghost used: seq<bool>) returns (m: MtfDecoder)
      requires Shape() && Mapping(used) && nInUse >= 1 && 1 <= blockSize100k <= 9 && ListsOver(len, nInUse + 2) && AllBelow(chosen, |len|) && Chosen()
      ensures fresh(m.Repr()) && Loop(m) && m.used == used && m.flat == Start() && m.sr.lens == len && m.sr.selector == chosen
      ensures m.sr.waiting == Ready && m.sr.done == 0
    {
      hide Rank, UsedBytes, Lengths, Table.Decodes, Store.Valid, Windows.Valid, SymbolReader.Valid, MtfDecoder.Valid;
      var tables := MakeTables(len);
      var sr := new SymbolReader(tables, selector[..nSelectors], len);
      var windows := new Windows();
      var store := new Store(blockSize100k);
      m := new MtfDecoder(sr, windows, store, seqToUnseq, nInUse, used);
    }

    method BeginSymbols(ghost later: seq<bool>, ghost o: Result)
      requires AtCoding() && |len| >= nGroups && Means(later, o) && Mapping(st.stage.used) && Chosen() && Shape() && st.k == blockSize100k
      modifies this`state, this`st, this`mtf
      ensures st == old(st).At(st.stage) && InSymbols(later, o) && mtf != null && fresh(mtf.Repr())
    {
      hide Proceed, BitReader.Valid, Await, AfterRows, AfterPosition, AfterSymbol, AfterOutput, Rank, UsedBytes, Lengths, Loop;
      WidthIs(st.stage, 0);
      QuietStep(later, o);
      mtf := MakeLoop(st.stage.used);
      state, st := XMtf, Next(sum, st, 0).s;
    }

    /** Takes symbols until the column is complete, and gets ready to put out the block. */
    method ReceiveSymbols(ghost later: seq<bool>, ghost o: Result) returns (p: Progress)
      requires InSymbols(later, o) && mtf != null && st.k == blockSize100k && 1 <= blockSize100k <= 9
      modifies r, mtf.Repr(), this`state, this`st, this`d
      ensures st == old(st).At(st.stage)
      ensures p == GoOn ==> AtOutput() && Means(later, o) && Undone(mtf) && fresh(d)
      ensures p == Starved ==> InSymbols(later, o) && DryInSymbols()
      ensures p != GoOn ==> d == old(d)
      ensures p != GoOn && p != Starved ==> p.Ended? && Wrong(p.status) && o.status == p.status && o.output == st.output
    {
      hide Proceed, BitReader.Valid, Await, MtfDecoder.Valid, Follow, AfterColumn, Store.Valid, AtOutput, Means;
      ghost var s := st;
      var ending := mtf.Resume(r, sum, s, H(), later, o);
      if ending == Waiting {
        st := mtf.Here(s, H());
        p := Starved;
      } else if ending == Bad {
        p := Ended(DataError);
      } else {
        p := FinishColumn(later, o);
      }
    }

    method FinishColumn(ghost later: seq<bool>, ghost o: Result) returns (p: Progress)
      requires mtf != null && mtf.store.Valid() && mtf.store.tt.Length == 100_000 * blockSize100k && st.k == blockSize100k && 1 <= blockSize100k <= 9
      requires mtf.store.tt as object !in {this as object, r, inUse16, inUse, seqToUnseq, selectorMtf, selector, mtf.store}
      requires r.Valid() && Follow(sum, AfterColumn(st, H(), mtf.store.column), r.Unread() + later) == o
      modifies mtf.store.tt, this`state, this`st, this`d
      ensures st == old(st).At(st.stage)
      ensures p == GoOn ==> AtOutput() && Means(later, o) && Undone(mtf) && fresh(d)
      ensures p != GoOn ==> d == old(d)
      ensures p != GoOn ==> p.Ended? && Wrong(p.status) && o.status == p.status && o.output == st.output
    {
      hide Proceed, BitReader.Valid, BlockBytes, FastInverse.Decoder.Valid, FastInverse.Decoder.AllOutput, Store.Valid;
      StoredLength(mtf.store);
      if origPtr >= mtf.store.nblock { return Ended(DataError); }
      ghost var column := mtf.store.column;
      d := Undo(mtf.store, blockSize100k, origPtr, sum);
      state, st := XOutput, st.At(Output(H(), column));
      p := GoOn;
    }

    // ---------- Trailer ----------

    method EndMagicByte(ghost later: seq<bool>, ghost o: Result) returns (p: Progress)
      requires AtEndHdr() && Means(later, o)
      modifies r, this`state, this`st, this`storedCombinedCRC
      ensures st == old(st).At(st.stage) && old(state.n) <= 5
      ensures p == GoOn ==> Means(later, o) && if old(state.n) < 5 then AtEndHdr() && state.n == old(state.n) + 1 else AtCcrc()
      ensures p == Starved ==> AtEndHdr() && Means(later, o) && Dry()
      ensures p != GoOn && p != Starved ==> p.Ended? && Wrong(p.status) && o.status == p.status && o.output == st.output
    {
      hide Means, Dry, Landed, Next, Width, Pow2, Proceed, Sound, Await, BitReader.Valid, BitReader.Unread;
      var n := state.n;
      BytesSoFar(later, o);
      WidthIs(st.stage, 8);
      var ok, uc, m := Byte(later, o);
      if !ok { return Starved; }
      EndMagicSteps(sum, st, n, uc);
      if uc != EndMagic()[n] {
        Halted(m, later, o);
        return Ended(DataError);
      }
      if n == 5 { storedCombinedCRC := []; }
      state, st := if n == 5 then XCcrc(0) else XEndHdr(n + 1), m.s;
      OnWay(m, later, o);
      p := GoOn;
    }

    method ReceiveEndMagic(ghost later: seq<bool>, ghost o: Result) returns (p: Progress)
      requires AtEndHdr() && Means(later, o)
      modifies r, this`state, this`st, this`storedCombinedCRC
      ensures st == old(st).At(st.stage)
      ensures p == GoOn ==> AtCcrc() && Means(later, o)
      ensures p == Starved ==> AtEndHdr() && Means(later, o) && Dry()
      ensures p != GoOn && p != Starved ==> p.Ended? && Wrong(p.status) && o.status == p.status && o.output == st.output
    {
      hide Means, Dry, Landed, Next, Width, Pow2, Proceed, Sound, Await, BitReader.Valid, BitReader.Unread;
      while state.XEndHdr?
        invariant if state.XEndHdr? then AtEndHdr() else AtCcrc()
        invariant Means(later, o) && st == old(st).At(st.stage)
        decreases if state.XEndHdr? then 6 - state.n else 0
      {
        p := EndMagicByte(later, o);
        if p != GoOn { return; }
      }
      p := GoOn;
    }

    /** The trailer has been read: the stream ends here, unless the checksum stored in it is wrong. */
    ghost predicate TrailerRead(later: seq<bool>, o: Result)
      reads `state, `st, `storedCombinedCRC, r
    {
      && state == XIdle && r.Valid() && o.output == st.output
      && if storedCombinedCRC == st.combined then o.status == StreamEnd && o.rest == r.Unread() + later else o.status == DataError
    }

    lemma EndOfTrailer(m: Move, later: seq<bool>, o: Result)
      requires Landed(m, later, o) && m.Stop?
      ensures r.Valid() && o == Result(m.status, m.output, r.Unread() + later)
    {
      hide BitReader.Valid, Proceed;
    }

    /** The checksum in the trailer, which the caller compares with that of the blocks. */
    method ReceiveEndCrc(ghost later: seq<bool>, ghost o: Result) returns (p: Progress)
      requires AtCcrc() && Means(later, o)
      modifies r, this`state, this`st, this`storedCombinedCRC
      ensures st == old(st).At(st.stage)
      ensures p == Trailer ==> TrailerRead(later, o)
      ensures p != Trailer ==> p == Starved && AtCcrc() && Means(later, o) && Dry()
    {
      hide Means, Dry, Landed, Next, Width, Pow2, Proceed, Sound, Await, BitReader.Valid, BitReader.Unread;
      while true
        invariant AtCcrc() && Means(later, o) && st == old(st).At(st.stage)
        decreases 4 - |storedCombinedCRC|
      {
        BytesSoFar(later, o);
        WidthIs(st.stage, 8);
        var ok, uc, m := Byte(later, o);
        if !ok { return Starved; }
        EndCrcSteps(sum, st, storedCombinedCRC, uc);
        storedCombinedCRC := storedCombinedCRC + [uc];
        if |storedCombinedCRC| == 4 {
          EndOfTrailer(m, later, o);
          state := XIdle;
          return Trailer;
        }
        state, st := XCcrc(|storedCombinedCRC|), m.s;
        OnWay(m, later, o);
      }
    }

    /** The whole trailer. */
    method ReceiveTrailer(ghost later: seq<bool>, ghost o: Result) returns (p: Progress)
      requires (AtEndHdr() || AtCcrc()) && Means(later, o)
      modifies r, this`state, this`st, this`storedCombinedCRC
      ensures st == old(st).At(st.stage)
      ensures p == Trailer ==> TrailerRead(later, o)
      ensures p == Starved ==> (AtEndHdr() || AtCcrc()) && Means(later, o) && Dry()
      ensures p.Ended? ==> Wrong(p.status) && o.status == p.status && o.output == st.output
      ensures p != GoOn
    {
      hide Proceed, Means, Dry;
      if state.XEndHdr? {
        p := ReceiveEndMagic(later, o);
        if p != GoOn { return; }
      }
      p := ReceiveEndCrc(later, o);
    }

    // ---------- From where reading stands to the end of a block ----------

    /** The fields agree with the place where reading stands. */
    ghost predicate Agrees()
      reads this, inUse16, inUse, seqToUnseq, selectorMtf, selector, if d == null then {} else {d, d.tt}
    {
      match state
      case XMagic(_) => AtMagic()
      case XBlkHdr(_) => AtBlkHdr()
      case XBcrc(_) => AtBcrc()
      case XRandBit => AtRandBit()
      case XOrigPtr(_) => AtOrigPtr()
      case XMapping1 => AtMapping1()
      case XMapping2 => AtMapping2()
      case XSelector1 => AtSelector1() && Mapping(st.stage.used)
      case XSelector2 => AtSelector2() && Mapping(st.stage.used)
      case XSelector3 => AtSelector3() && Stored() && Mapping(st.stage.used)
      case XOutput => AtOutput()
      case XEndHdr(_) => AtEndHdr()
      case XCcrc(_) => AtCcrc()
      case XMtf => false
      case XIdle => false
      case _ => AtCoding() && Chosen() && Mapping(st.stage.used)
    }

    /** Reading rests between two fields or in the middle of a symbol, and decoding what is still to come gives o. */
    ghost predicate Rests(later: seq<bool>, o: Result)
      reads this, r, inUse16, inUse, seqToUnseq, selectorMtf, selector, if mtf == null then {} else mtf.Repr() + {mtf.seqToUnseq}, if d == null then {} else {d, d.tt}
    {
      && Shape() && (!state.XMagic? ==> 1 <= blockSize100k <= 9 && st.k == blockSize100k)
      && if state == XMtf then InSymbols(later, o) else Means(later, o) && Agrees()
    }

    /** The input has run out before the next field or symbol is complete. */
    ghost predicate Waits()
      reads this, r, if mtf == null then {} else {mtf.sr}
    {
      if state == XMtf then DryInSymbols() else Dry()
    }

    /** The application supplies further input. */
    method Supply(bytes: seq<byte>, ghost later: seq<bool>, ghost o: Result)
      requires Rests(BytesToBits(bytes) + later, o)
      modifies r
      ensures Rests(later, o)
    {
      hide Proceed, BytesToBits, BitReader.Valid, Sound, Loop, InSymbols, BlockBytes, FastInverse.Decoder.Valid, FastInverse.Decoder.AllOutput;
      ghost var unread := r.Unread();
      Associate(unread, BytesToBits(bytes), later);
      if state == XMtf {
        LoopRests(BytesToBits(bytes) + later, o);
        SupplyInSymbols(bytes, later, o);
      } else {
        r.Supply(bytes);
      }
    }

    method SupplyInSymbols(bytes: seq<byte>, ghost later: seq<bool>, ghost o: Result)
      requires InSymbols(BytesToBits(bytes) + later, o) && mtf != null
      modifies r
      ensures InSymbols(later, o)
    {
      hide Proceed, BytesToBits, BitReader.Valid, MtfDecoder.Valid, ToBits;
      ghost var before := mtf.sr.Pending(r);
      ghost var unread := r.Unread();
      if mtf.sr.waiting == OneBit && mtf.sr.zn > 0 { Associate(ToBits(mtf.sr.zvec, mtf.sr.zn - 1), unread, BytesToBits(bytes)); }
      r.Supply(bytes);
      assert mtf.sr.Pending(r) == before + BytesToBits(bytes);
      Associate(before, BytesToBits(bytes), later);
    }

    /** The block at hand is done with. */
    method NextBlock(ghost later: seq<bool>, ghost o: Result)
      requires AtOutput() && r.Valid() && Shape() && 1 <= blockSize100k <= 9 && st.k == blockSize100k
      requires var m := Next(sum, st, 0); m.Go? && Proceed(sum, m.s, r.Unread() + later) == o
      modifies `state, `st
      ensures st == old(Next(sum, st, 0).s) && state == XBlkHdr(0) && Rests(later, o)
    {
      hide Rests, Proceed, BitReader.Valid, BlockBytes, FastInverse.Decoder.Valid, FastInverse.Decoder.AllOutput;
      state, st := XBlkHdr(0), Next(sum, st, 0).s;
      BlockStartRests(later, o);
    }

    lemma BlockStartRests(later: seq<bool>, o: Result)
      requires r.Valid() && Proceed(sum, st, r.Unread() + later) == o && Shape() && 1 <= blockSize100k <= 9 && st.k == blockSize100k && state == XBlkHdr(0) && st.stage == BlockStart
      ensures Rests(later, o)
    {
      hide Proceed, BitReader.Valid;
    }

    /** Nobody waits for input in the middle of putting out a block. */
    lemma WaitingPlaces(later: seq<bool>, o: Result)
      requires Rests(later, o) && Waits()
      ensures state != XOutput && state != XIdle
    {
      hide Sound, BitReader.Valid, Loop, Proceed, BlockBytes, FastInverse.Decoder.Valid;
    }

    lemma OutputSoFar(later: seq<bool>, o: Result)
      requires Rests(later, o)
      ensures st.output <= o.output
    {
      hide Agrees, Sound, BitReader.Valid, Loop;
      OutputGrows(sum, st, if state == XMtf then mtf.sr.Pending(r) + later else r.Unread() + later);
    }

    /** What is known while a block is being put out. */
    lemma BlockInHand(later: seq<bool>, o: Result)
      requires Rests(later, o) && state == XOutput
      ensures AtOutput() && Means(later, o) && Shape() && 1 <= blockSize100k <= 9 && st.k == blockSize100k
    {
      hide FastInverse.Decoder.Valid, FastInverse.Decoder.AllOutput, BlockBytes, Proceed, BitReader.Valid, Sound;
    }

    method ReceiveBlockStart(ghost later: seq<bool>, ghost o: Result) returns (p: Progress)
      requires Rests(later, o) && state.XBlkHdr?
      modifies r, this`state, this`st, this`storedBlockCRC
      ensures st == old(st).At(st.stage)
      ensures p == GoOn ==> Rests(later, o) && (state.XEndHdr? || state.XBcrc?)
      ensures p == Starved ==> Rests(later, o) && Waits()
      ensures p != GoOn && p != Starved ==> p.Ended? && Wrong(p.status) && o.status == p.status && o.output == st.output
    {
      hide Proceed, Dry, Means, AtMagic, AtRandBit, AtOrigPtr, AtMapping1, AtMapping2, AtSelector1, AtSelector2, AtSelector3, AtCoding, AtOutput, AtCcrc, InSymbols, Mapping;
      if state.n == 0 {
        p := ReceiveFirst(later, o);
        if p != GoOn || state.XEndHdr? { return; }
      }
      p := ReceiveBlockMagic(later, o);
    }

    /** What is known in the header of a block. */
    lemma HeaderHere(later: seq<bool>, o: Result)
      requires Rests(later, o) && (state.XBcrc? || state == XRandBit || state.XOrigPtr?)
      ensures Means(later, o) && Shape() && 1 <= blockSize100k <= 9 && st.k == blockSize100k && (AtBcrc() || AtRandBit() || AtOrigPtr())
    {
      hide Means, AtBcrc, AtRandBit, AtOrigPtr;
    }

    lemma HeaderRests(later: seq<bool>, o: Result)
      requires Means(later, o) && Shape() && 1 <= blockSize100k <= 9 && st.k == blockSize100k && Dry() && (AtBcrc() || AtRandBit() || AtOrigPtr())
      ensures Rests(later, o) && Waits()
    {
      hide Means, Dry;
    }

    lemma FlagsRest(later: seq<bool>, o: Result)
      requires Means(later, o) && Shape() && 1 <= blockSize100k <= 9 && st.k == blockSize100k && AtMapping1()
      ensures Rests(later, o) && state == XMapping1
    {
      hide Means;
    }

    method ReceiveHeader(ghost later: seq<bool>, ghost o: Result) returns (p: Progress)
      requires Rests(later, o) && (state.XBcrc? || state == XRandBit || state.XOrigPtr?)
      modifies r, this`state, this`st, this`storedBlockCRC, this`origPtr, this`i
      ensures st == old(st).At(st.stage)
      ensures p == GoOn ==> Rests(later, o) && state == XMapping1
      ensures p == Starved ==> Rests(later, o) && Waits()
      ensures p != GoOn && p != Starved ==> p.Ended? && Wrong(p.status) && o.status == p.status && o.output == st.output
    {
      hide Rests, Waits, Agrees, Means, Dry, AtMapping1;
      HeaderHere(later, o);
      p := GoOn;
      if state.XBcrc? { p := ReceiveBlockCrc(later, o); }
      if p == GoOn && state == XRandBit { p := ReceiveRandBit(later, o); }
      if p == GoOn { p := ReceiveOrigPtr(later, o); }
      if p == GoOn { FlagsRest(later, o); }
      if p == Starved { HeaderRests(later, o); }
    }

    /** What is known in the mapping table. */
    lemma MappingHere(later: seq<bool>, o: Result)
      requires Rests(later, o) && (state == XMapping1 || state == XMapping2)
      ensures Means(later, o) && Shape() && 1 <= blockSize100k <= 9 && st.k == blockSize100k && (if state == XMapping1 then AtMapping1() else OnRow())
    {
      hide Means, AtMapping1;
    }

    lemma MappingRests(p: Progress, later: seq<bool>, o: Result)
      requires Means(later, o) && Shape() && 1 <= blockSize100k <= 9 && st.k == blockSize100k && (p == GoOn || p == Starved)
      requires if p == GoOn then AtSelector1() && Mapping(st.stage.used) else Dry() && (AtMapping1() || AtMapping2())
      ensures Rests(later, o) && if p == GoOn then state == XSelector1 else Waits()
    {
      hide Means, Dry, Mapping;
    }

    method ReceiveMapping(ghost later: seq<bool>, ghost o: Result) returns (p: Progress)
      requires Rests(later, o) && (state == XMapping1 || state == XMapping2)
      modifies r, this`state, this`st, this`i, this`j, this`nInUse, inUse16, inUse, seqToUnseq, selectorMtf, selector
      ensures st == old(st).At(st.stage)
      ensures p == GoOn ==> Rests(later, o) && state == XSelector1
      ensures p == Starved ==> Rests(later, o) && Waits()
      ensures p != GoOn && p != Starved ==> p.Ended? && Wrong(p.status) && o.status == p.status && o.output == st.output
    {
      hide Rests, Waits, Agrees, Means, Dry, AtMapping2, Mapping, InRows;
      MappingHere(later, o);
      p := GoOn;
      if state == XMapping1 { p := ReceiveFlags(later, o); }
      if p == GoOn { p := ReceiveRows(later, o); }
      if p == GoOn || p == Starved { MappingRests(p, later, o); }
    }

    method ReceiveCounts(ghost later: seq<bool>, ghost o: Result) returns (p: Progress)
      requires Rests(later, o) && (state == XSelector1 || state == XSelector2)
      modifies r, this`state, this`st, this`nGroups, this`nSelectors, this`placed, this`i, this`j
      ensures st == old(st).At(st.stage)
      ensures p == GoOn ==> Rests(later, o) && state == XSelector3
      ensures p == Starved ==> Rests(later, o) && Waits()
      ensures p != GoOn && p != Starved ==> p.Ended? && Wrong(p.status) && o.status == p.status && o.output == st.output
    {
      hide Proceed, Dry, Means, Mapping, AtMagic, AtBlkHdr, AtBcrc, AtRandBit, AtOrigPtr, AtMapping1, AtMapping2, AtCoding, AtOutput, AtEndHdr, AtCcrc, InSymbols;
      if state == XSelector1 {
        p := ReceiveGroups(later, o);
        if p != GoOn { return; }
      }
      p := ReceiveCount(later, o);
    }

    method ReceiveSelectors(ghost later: seq<bool>, ghost o: Result) returns (p: Progress)
      requires Rests(later, o) && state == XSelector3
      modifies r, this`state, this`st, this`i, this`j, this`placed, this`chosen, this`len, selectorMtf, selector
      ensures st == old(st).At(st.stage)
      ensures p == GoOn ==> Rests(later, o) && state == XCoding1
      ensures p == Starved ==> Rests(later, o) && Waits()
      ensures p != GoOn && p != Starved ==> p.Ended? && Wrong(p.status) && o.status == p.status && o.output == st.output
    {
      hide Proceed, Dry, Means, Mapping, AtMagic, AtBlkHdr, AtBcrc, AtRandBit, AtOrigPtr, AtMapping1, AtMapping2, AtSelector1, AtSelector2, AtOutput, AtEndHdr, AtCcrc, InSymbols;
      p := ReceivePlaces(later, o);
    }

    /** What is known among the coding tables. */
    lemma CodingHere(later: seq<bool>, o: Result)
      requires Rests(later, o) && (state == XCoding1 || state == XCoding2 || state == XCoding3)
      ensures InTables(st.stage.used) && Chosen() && Mapping(st.stage.used) && Means(later, o) && Shape() && 1 <= blockSize100k <= 9 && st.k == blockSize100k
    {
      hide Means, Chosen;
    }

    lemma CodingRests(used: seq<bool>, later: seq<bool>, o: Result)
      requires InTables(used) && Chosen() && Mapping(used) && Means(later, o) && Dry() && Shape() && 1 <= blockSize100k <= 9 && st.k == blockSize100k
      ensures Rests(later, o) && Waits()
    {
      hide Means, Chosen, Dry, Mapping;
    }

    lemma SymbolsHere(later: seq<bool>, o: Result)
      requires InSymbols(later, o) && Shape() && 1 <= blockSize100k <= 9 && st.k == blockSize100k
      ensures Rests(later, o) && state == XMtf
    {
      hide Loop, Proceed, BitReader.Valid;
    }

    method ReceiveCoding(ghost later: seq<bool>, ghost o: Result) returns (p: Progress)
      requires Rests(later, o) && (state == XCoding1 || state == XCoding2 || state == XCoding3)
      modifies r, this`state, this`st, this`len, this`row, this`curr, this`mtf
      ensures st == old(st).At(st.stage)
      ensures p == GoOn ==> Rests(later, o) && state == XMtf && mtf != null && fresh(mtf.Repr())
      ensures p == Starved ==> Rests(later, o) && Waits()
      ensures p != GoOn ==> mtf == old(mtf)
      ensures p != GoOn && p != Starved ==> p.Ended? && Wrong(p.status) && o.status == p.status && o.output == st.output
    {
      hide Rests, Waits, Agrees, Means, Dry, Mapping, Chosen, InSymbols;
      CodingHere(later, o);
      ghost var used := st.stage.used;
      p := ReceiveTables(used, later, o);
      if p == Starved { CodingRests(used, later, o); }
      if p != GoOn { return; }
      BeginSymbols(later, o);
      SymbolsHere(later, o);
    }

    /** What reading up to the symbols of a block can come to: the symbol loop, a pause, the end, or an error. */
    twostate predicate Informed(p: Progress, later: seq<bool>, o: Result)
      reads this, r, inUse16, inUse, seqToUnseq, selectorMtf, selector, if mtf == null then {} else mtf.Repr() + {mtf.seqToUnseq}, if d == null then {} else {d, d.tt}
    {
      && d == old(d) && st.output == old(st.output) && st.combined == old(st.combined)
      && (if p == GoOn then state == XMtf && mtf != null && fresh(mtf.Repr()) && Rests(later, o) else mtf == old(mtf))
      && (p == Starved ==> Rests(later, o) && Waits())
      && (p == Trailer ==> TrailerRead(later, o))
      && (p.Ended? ==> Wrong(p.status) && o.status == p.status && o.output == st.output)
    }

    predicate InCoding()
      reads `state
    {
      state == XCoding1 || state == XCoding2 || state == XCoding3
    }

    predicate InSelectors()
      reads `state
    {
      state == XSelector1 || state == XSelector2 || state == XSelector3
    }

    predicate InMapping()
      reads `state
    {
      state == XMapping1 || state == XMapping2
    }

    /** From the selectors on. */
    method FromSelectors(ghost later: seq<bool>, ghost o: Result) returns (p: Progress)
      requires Rests(later, o) && (InSelectors() || InCoding())
      modifies this, r, inUse16, inUse, seqToUnseq, selectorMtf, selector
      ensures Informed(p, later, o)
    {
      hide Rests, Waits, TrailerRead, Shape, LoopRepr;
      p := GoOn;
      if InSelectors() { p := ReceivePositions(later, o); }
      if p == GoOn { p := ReceiveCoding(later, o); }
    }

    /** The numbers of tables and selectors, and the list positions. */
    method ReceivePositions(ghost later: seq<bool>, ghost o: Result) returns (p: Progress)
      requires Rests(later, o) && InSelectors()
      modifies r, this`state, this`st, this`nGroups, this`nSelectors, this`i, this`j, this`placed, this`chosen, this`len, selectorMtf, selector
      ensures st == old(st).At(st.stage)
      ensures p == GoOn ==> Rests(later, o) && InCoding()
      ensures p == Starved ==> Rests(later, o) && Waits()
      ensures p != GoOn && p != Starved ==> p.Ended? && Wrong(p.status) && o.status == p.status && o.output == st.output
    {
      hide Rests, Waits, Shape;
      p := GoOn;
      if state == XSelector1 || state == XSelector2 { p := ReceiveCounts(later, o); }
      if p == GoOn { p := ReceiveSelectors(later, o); }
    }

    /** From a block's header on. */
    method FromHeader(ghost later: seq<bool>, ghost o: Result) returns (p: Progress)
      requires Rests(later, o) && (state.XBcrc? || state == XRandBit || state.XOrigPtr? || InMapping() || InSelectors() || InCoding())
      modifies this, r, inUse16, inUse, seqToUnseq, selectorMtf, selector
      ensures Informed(p, later, o)
    {
      hide Rests, Waits, TrailerRead;
      if state.XBcrc? || state == XRandBit || state.XOrigPtr? {
        p := ReceiveHeader(later, o);
        if p != GoOn { return; }
      }
      if InMapping() {
        p := ReceiveMapping(later, o);
        if p != GoOn { return; }
      }
      p := FromSelectors(later, o);
    }

    /** Headers and tables, up to the symbols of a block. */
    method ReceiveInfo(ghost later: seq<bool>, ghost o: Result) returns (p: Progress)
      requires Rests(later, o) && state != XMtf && state != XOutput && state != XIdle
      modifies this, r, inUse16, inUse, seqToUnseq, selectorMtf, selector
      ensures Informed(p, later, o)
    {
      hide Rests, Waits, TrailerRead;
      if state.XMagic? {
        p := ReceiveOpening(later, o);
        if p != GoOn { return; }
      }
      if state.XBlkHdr? {
        p := ReceiveBlockStart(later, o);
        if p != GoOn { return; }
      }
      if state.XEndHdr? || state.XCcrc? {
        p := ReceiveEnding(later, o);
        return;
      }
      p := FromHeader(later, o);
    }

    /** How a stretch of reading can come out: with a block to put out, dry, behind the trailer, or with an error. */
    twostate predicate Came(p: Progress, later: seq<bool>, o: Result)
      reads this, r, inUse16, inUse, seqToUnseq, selectorMtf, selector, if mtf == null then {} else mtf.Repr() + {mtf.seqToUnseq}, if d == null then {} else {d, d.tt}
    {
      && fresh(LoopRepr() - old(LoopRepr())) && st.output == old(st.output) && st.combined == old(st.combined)
      && (if p == GoOn then Rests(later, o) && state == XOutput && d != null && fresh(d) && d.output == [] else d == old(d))
      && (p == Starved ==> Rests(later, o) && Waits())
      && (p == Trailer ==> TrailerRead(later, o))
      && (p.Ended? ==> Wrong(p.status) && o.status == p.status && o.output == st.output)
    }

    /** BZ2_decompress: reads up to the end of a block, the end of the stream, or the end of the input. */
    method Decompress(ghost later: seq<bool>, ghost o: Result) returns (p: Progress)
      requires Rests(later, o) && state != XOutput && state != XIdle
      modifies this, r, inUse16, inUse, seqToUnseq, selectorMtf, selector, LoopRepr()
      ensures Came(p, later, o)
    {
      hide Rests, Waits, TrailerRead, MtfDecoder.Repr;
      if state != XMtf {
        p := ReceiveInfo(later, o);
        if p != GoOn { return; }
      }
      p := ReceiveBlock(later, o);
    }

    method ReceiveBlock(ghost later: seq<bool>, ghost o: Result) returns (p: Progress)
      requires Rests(later, o) && state == XMtf
      modifies r, this`state, this`st, this`d, LoopRepr()
      ensures Came(p, later, o)
    {
      hide Rests, InSymbols, Means, AtOutput, Waits, TrailerRead, MtfDecoder.Repr;
      LoopRests(later, o);
      p := ReceiveSymbols(later, o);
      if p == GoOn { OutputRests(later, o); }
      if p == Starved { SymbolsRest(later, o); }
    }

    lemma LoopRests(later: seq<bool>, o: Result)
      requires Rests(later, o) && state == XMtf
      ensures InSymbols(later, o) && mtf != null && Shape() && 1 <= blockSize100k <= 9 && st.k == blockSize100k
      ensures {this, r} !! mtf.Repr()
    {
      hide Proceed, MtfDecoder.Valid, MtfDecoder.Repr;
    }

    lemma OutputRests(later: seq<bool>, o: Result)
      requires AtOutput() && Means(later, o) && Shape() && 1 <= blockSize100k <= 9 && st.k == blockSize100k
      ensures Rests(later, o) && state == XOutput && d != null
    {
      hide Means, InSymbols, BlockBytes, FastInverse.Decoder.Valid;
    }

    lemma SymbolsRest(later: seq<bool>, o: Result)
      requires InSymbols(later, o) && DryInSymbols() && Shape() && 1 <= blockSize100k <= 9 && st.k == blockSize100k
      ensures Rests(later, o) && Waits() && state == XMtf
    {
      hide Loop, Proceed, Await;
    }

    method ReceiveOpening(ghost later: seq<bool>, ghost o: Result) returns (p: Progress)
      requires Rests(later, o) && state.XMagic?
      modifies r, this`state, this`st, this`blockSize100k
      ensures st.output == old(st.output) && st.combined == old(st.combined)
      ensures p == GoOn ==> Rests(later, o) && state.XBlkHdr?
      ensures p == Starved ==> Rests(later, o) && Waits()
      ensures p != GoOn && p != Starved ==> p.Ended? && Wrong(p.status) && o.status == p.status && o.output == st.output
    {
      hide Proceed, Dry;
      p := ReceiveMagic(later, o);
    }

    method ReceiveEnding(ghost later: seq<bool>, ghost o: Result) returns (p: Progress)
      requires Rests(later, o) && (state.XEndHdr? || state.XCcrc?)
      modifies r, this`state, this`st, this`storedCombinedCRC
      ensures st == old(st).At(st.stage)
      ensures p == Starved ==> Rests(later, o) && Waits()
      ensures p == Trailer ==> TrailerRead(later, o)
      ensures p.Ended? ==> Wrong(p.status) && o.status == p.status && o.output == st.output
      ensures p != GoOn
    {
      hide Proceed, Dry, Means, TrailerRead;
      p := ReceiveTrailer(later, o);
    }

    lemma StoredLength(store: Store)
      requires store.Valid()
      ensures store.nblock == |store.column|
    {
    }
  }

  /** Sets up the buckets and the transform from the stored column. */
  method Undo(store: Store, blockSize100k: nat, origPtr: nat, sum: Checksum) returns (d: FastInverse.Decoder)
    requires store.Valid() && 1 <= blockSize100k <= 9 && store.tt.Length == 100_000 * blockSize100k && origPtr < store.nblock
    modifies store.tt
    ensures fresh(d) && d.tt == store.tt && d.sum == sum && d.Valid() && d.output == [] && d.AllOutput() == BlockBytes(store.column, origPtr)
  {
    hide Expand, Unsorted, Count, Smaller;
    var cftab := new int[257];
    var ok := FastInverse.SetUpCftab(store.unzftab, cftab, store.nblock, store.column);
    d := new FastInverse.Decoder(store.tt, cftab, blockSize100k, store.nblock, origPtr, sum, store.column);
  }
}
