/** The decompressor's loop over move-to-front symbols, which can be left for want of input and taken up again. */
module MtfDecode {
  import opened Words
  import opened Checksums
  import opened RunCoding
  import opened BurrowsWheeler
  import opened ByteMaps
  import opened MoveToFront
  import opened MtfWindows
  import opened BitStream
  import opened SymbolCoding
  import opened SymbolDecoding
  import opened ColumnStore
  import opened ColumnSteps
  import opened StreamSteps

  /** Where a symbol is read: the first of a block, one after a run digit, or one after a byte. */
  datatype Place = First | InRun | AfterByte

  /** How a part of the reading ends: it goes on, waits for input, is done, or meets bad data. */
  datatype Ending = Going | Waiting | Done | Bad

  class MtfDecoder {
    const sr: SymbolReader
    const windows: Windows
    const store: Store
    const seqToUnseq: array<byte>
    const nInUse: nat
    var place: Place
    var es: int
    var N: nat
    ghost const used: seq<bool>
    ghost var flat: Flat        // what the symbols so far come to

    constructor (sr: SymbolReader, windows: Windows, store: Store, seqToUnseq: array<byte>, nInUse: nat, ghost used: seq<bool>)
      requires sr.Valid() && sr.waiting == Ready && sr.done == 0 && windows.Valid() && windows.List() == Identity()
      requires store.Valid() && store.column == [] && store.nblockMAX <= 900_000 && Apart(windows, store, seqToUnseq, sr)
      requires |used| == 256 && 1 <= nInUse == Rank(used, 256) && seqToUnseq.Length == 256 && seqToUnseq[..nInUse] == UsedBytes(used, 256)
      requires forall t :: 0 <= t < |sr.lens| ==> |sr.lens[t]| == nInUse + 2
      ensures Valid() && this.sr == sr && this.windows == windows && this.store == store && this.seqToUnseq == seqToUnseq
      ensures flat == Start() && this.used == used
    {
      hide Rank, UsedBytes, ListIn, Shape, Count;
      this.sr, this.windows, this.store, this.seqToUnseq, this.nInUse := sr, windows, store, seqToUnseq, nInUse;
      this.used := used;
      place, es, N, flat := First, 0, 0, Start();
    }

    ghost function Repr(): set<object> {
      {this, sr, windows.mtfa, windows.mtfbase, store, store.tt, store.unzftab}
    }

    ghost predicate Fixed()
      reads store, seqToUnseq
    {
      && |used| == 256 && 1 <= nInUse == Rank(used, 256) && seqToUnseq.Length == 256 && seqToUnseq[..nInUse] == UsedBytes(used, 256)
      && store.nblockMAX <= 900_000 && Apart(windows, store, seqToUnseq, sr) && this as object !in {seqToUnseq as object, windows.mtfa, windows.mtfbase, store.tt, store.unzftab}
      && forall t :: 0 <= t < |sr.lens| ==> |sr.lens[t]| == nInUse + 2
    }

    /** The windows, the column and the pending run are what the symbols so far come to. */
    ghost predicate Column()
      reads this, windows.mtfa, windows.mtfbase, store, store.tt, store.unzftab
    {
      && windows.Valid() && store.Valid() && flat.list == windows.List() && Below(flat, nInUse)
      && store.column == Mapped(Names(used), flat.out)
      && (if place == InRun then flat.run == es + 1 && flat.place == N else flat.run == 0 && flat.place == 1)
    }

    ghost predicate Valid()
      reads Repr(), seqToUnseq
    {
      Fixed() && sr.Valid() && Column()
    }

    /** The byte of a rank in use. */
    lemma NameOf(r: nat)
      requires Fixed() && r < nInUse
      ensures seqToUnseq[r] == Names(used)[r]
    {
      hide Rank, UsedBytes;
      assert seqToUnseq[..nInUse][r] == UsedBytes(used, 256)[r];
    }

    /** One digit of a run. */
    method TakeDigit(sym: nat) returns (ok: bool)
      requires Valid() && (sym == RUNA || sym == RUNB)
      modifies this
      ensures ok ==> Valid() && Take(old(flat), sym, nInUse, store.nblockMAX) == More(flat)
      ensures !ok ==> Take(old(flat), sym, nInUse, store.nblockMAX) == Refused
    {
      hide Rank, UsedBytes, ListIn, Shape, Count, Names, SymbolReader.Valid;
      BelowStep(flat, sym, nInUse);
      if place != InRun { es, N := -1, 1; }
      place := InRun;
      if N >= RUN_LIMIT { return false; }
      if sym == RUNA { es := es + N; } else { es := es + 2 * N; }
      N := N * 2;
      flat := Step(flat, sym);
      ok := true;
    }

    /** Stores the pending run, which is of the byte at the front of the list. */
    method FlushRun() returns (ok: bool)
      requires Valid() && place == InRun
      modifies this, store, store.tt, store.unzftab
      ensures ok <==> Reach(old(flat)) <= store.nblockMAX
      ensures ok ==> Valid() && place != InRun && flat == old(flat).Flush()
    {
      hide Rank, UsedBytes, Count, Names, SymbolReader.Valid;
      BelowStep(flat, 0, nInUse);
      FrontEntry(windows.mtfa[..], windows.mtfbase[..]);
      ghost var front := flat.list[0];
      NameOf(front);
      es := es + 1;
      var uc := seqToUnseq[windows.mtfa[windows.mtfbase[0]]];
      ghost var out, column := flat.out, store.column;
      ok := store.StoreRun(uc, es);
      assert Mapped(Names(used), out + Repeat(front, es)) == Mapped(Names(used), out) + Repeat(uc, es);
      place := AfterByte;
      flat := flat.Flush();
    }

    /** Stores one byte, and moves it to the front of the list. */
    method TakeRank(sym: nat) returns (ok: bool)
      requires Valid() && place != InRun && RUNB < sym <= nInUse
      modifies this, windows.mtfa, windows.mtfbase, store, store.tt, store.unzftab
      ensures ok ==> Valid() && Take(old(flat), sym, nInUse, store.nblockMAX) == More(flat)
      ensures !ok ==> Take(old(flat), sym, nInUse, store.nblockMAX) == Refused
    {
      hide Rank, UsedBytes, ListIn, Shape, Count, Names, SymbolReader.Valid, ToFront;
      if store.nblock >= store.nblockMAX { return false; }
      BelowStep(flat, sym, nInUse);
      ghost var rank := flat.list[sym - 1];
      NameOf(rank);
      var uc := windows.Take(sym - 1);
      ghost var out := flat.out;
      ok := store.StoreByte(seqToUnseq[uc]);
      assert out + Repeat(flat.list[0], 0) == out;
      assert Mapped(Names(used), out + [rank]) == Mapped(Names(used), out) + [seqToUnseq[uc]];
      place := AfterByte;
      flat := Step(flat, sym);
    }

    /** Deals with the symbol that has just been read. */
    method TakeSymbol(sym: nat) returns (ending: Ending)
      requires Valid() && sym <= nInUse + 1
      modifies this, windows.mtfa, windows.mtfbase, store, store.tt, store.unzftab
      ensures ending != Waiting
      ensures ending == Going ==> Valid() && Take(old(flat), sym, nInUse, store.nblockMAX) == More(flat)
      ensures ending == Done ==>
                && Valid() && store.Valid() && Take(old(flat), sym, nInUse, store.nblockMAX).Complete?
                && store.column == Mapped(Names(used), Take(old(flat), sym, nInUse, store.nblockMAX).ranks)
      ensures ending == Bad ==> Take(old(flat), sym, nInUse, store.nblockMAX) == Refused
    {
      hide Rank, UsedBytes, ListIn, Shape, Count, Names, SymbolReader.Valid, Store.Valid, Windows.Valid, ToFront, Mapped, Below;
      ending := Bad;
      ghost var flat0 := flat;
      assert flat0.list != [];
      if sym == RUNA || sym == RUNB {
        var ok := TakeDigit(sym);
        if ok { ending := Going; }
        return;
      }
      if place == InRun {
        var ok := FlushRun();
        if !ok { return; }
      } else {
        NoRun(flat);
      }
      assert flat == flat0.Flush();
      StoreFits();
      if sym == nInUse + 1 { return Done; }
      var ok := TakeRank(sym);
      FlushTwice(flat0, sym, nInUse, store.nblockMAX);
      if ok { ending := Going; }
    }

    lemma StoreFits()
      requires Valid() && place != InRun
      ensures Reach(flat) == |flat.out| <= store.nblockMAX
    {
      hide Rank, UsedBytes, ListIn, Shape, Count, Names;
    }

    /** The state of the whole decompressor that stands in this loop. */
    ghost function Here(s: State, h: Header): State
      reads this, sr
    {
      s.At(Symbols(h, used, sr.lens, sr.selector, sr.done, flat))
    }

    /** Takes symbols until the end mark, or until the input runs out. */
    method Resume(r: BitReader, ghost sum: Checksum, ghost s: State, ghost h: Header, ghost later: seq<bool>, ghost o: Result) returns (ending: Ending)
      requires Valid() && r.Valid() && r !in Repr() && 100_000 * s.k == store.nblockMAX
      requires Proceed(sum, Here(s, h), sr.Pending(r) + later) == o
      modifies r, Repr()
      ensures ending != Going && r.Valid()
      ensures ending == Waiting ==>
                && Valid() && Proceed(sum, Here(s, h), sr.Pending(r) + later) == o
                && r.nextIn == [] && Await(Here(s, h).stage, sr.Pending(r)).Missing?
      ensures ending == Done ==> store.Valid() && Follow(sum, AfterColumn(s, h, store.column), r.Unread() + later) == o
      ensures ending == Bad ==> o.status == DataError && o.output == s.output
    {
      hide Valid, SymbolAt, Proceed, SymbolReader.Valid, Rank, Take, Mapped, Store.Valid, AfterColumn;
      ending := Going;
      Alphabet();
      while ending == Going
        invariant ending == Going ==> Valid() && r.Valid() && Proceed(sum, Here(s, h), sr.Pending(r) + later) == o
        invariant AlphaSize(used) == nInUse + 2
        invariant ending == Waiting ==>
                && Valid() && Proceed(sum, Here(s, h), sr.Pending(r) + later) == o
                && r.nextIn == [] && Await(Here(s, h).stage, sr.Pending(r)).Missing?
        invariant ending == Done ==> store.Valid() && Follow(sum, AfterColumn(s, h, store.column), r.Unread() + later) == o
        invariant ending == Bad ==> o.status == DataError && o.output == s.output
        invariant r.Valid()
        decreases ending == Going, |sr.Pending(r)|
      {
        ending := OneSymbol(r, sum, s, h, later, o);
      }
    }

    lemma Alphabet()
      requires Valid()
      ensures AlphaSize(used) == nInUse + 2
    {
      hide Rank;
    }

    /** After one symbol more, decoding goes on as in the run of the whole decompressor. */
    ghost predicate Awaits(sum: Checksum, s: State, h: Header, m: Flat, sym: nat, rest: seq<bool>, o: Result)
      reads sr
    {
      var taken := Take(m, sym, nInUse, store.nblockMAX);
      && (taken.Refused? ==> o.status == DataError && o.output == s.output)
      && (taken.More? ==> Proceed(sum, s.At(Symbols(h, used, sr.lens, sr.selector, sr.done, taken.flat)), rest) == o)
      && (taken.Complete? ==> Follow(sum, AfterColumn(s, h, Mapped(Names(used), taken.ranks)), rest) == o)
    }

    lemma SymbolComes(sum: Checksum, s: State, h: Header, k: nat, bits: seq<bool>, sym: nat, rest: seq<bool>, o: Result)
      requires Fixed() && AlphaSize(used) == nInUse + 2 && 100_000 * s.k == store.nblockMAX && sr.done == k + 1
      requires SymbolAt(sr.lens, sr.selector, k, bits) == Arrived(sym, rest) && Proceed(sum, s.At(Symbols(h, used, sr.lens, sr.selector, k, flat)), bits) == o
      ensures sym <= nInUse + 1 && |rest| < |bits| && Awaits(sum, s, h, flat, sym, rest, o)
    {
      hide SymbolAt, Rank, UsedBytes, Names, Take, Mapped, AlphaSize, AfterColumn, Proceed, Follow, Apart;
      SymbolRead(sum, s, h, used, sr.lens, sr.selector, k, flat, bits);
      SymbolInAlphabet(sr.lens, sr.selector, k, bits, nInUse);
    }

    /** Reads one symbol, of which the run of the whole decompressor makes what Awaits says. */
    method ReadSymbol(r: BitReader, ghost sum: Checksum, ghost s: State, ghost h: Header, ghost later: seq<bool>, ghost o: Result) returns (ending: Ending, sym: nat)
      requires Valid() && r.Valid() && r !in Repr() && 100_000 * s.k == store.nblockMAX && AlphaSize(used) == nInUse + 2
      requires Proceed(sum, Here(s, h), sr.Pending(r) + later) == o
      modifies r, sr
      ensures r.Valid() && ending != Done
      ensures ending == Going ==>
                && Valid() && sr.waiting == Ready && sym <= nInUse + 1 && |r.Unread()| < |old(sr.Pending(r))|
                && Awaits(sum, s, h, flat, sym, r.Unread() + later, o)
      ensures ending == Waiting ==>
                && Valid() && Proceed(sum, Here(s, h), sr.Pending(r) + later) == o
                && r.nextIn == [] && Await(Here(s, h).stage, sr.Pending(r)).Missing?
      ensures ending == Bad ==> o.status == DataError && o.output == s.output
    {
      hide SymbolAt, SymbolReader.Valid, Fixed, Column, AlphaSize, Proceed, Awaits;
      ghost var bits, k := sr.Pending(r) + later, sr.done;
      var outcome;
      outcome, sym := sr.GetMtfVal(r, later);
      if outcome == Suspended { return Waiting, sym; }
      if outcome == Failed {
        SymbolRead(sum, s, h, used, sr.lens, sr.selector, k, flat, bits);
        return Bad, sym;
      }
      SymbolComes(sum, s, h, k, bits, sym, r.Unread() + later, o);
      ending := Going;
    }

    method OneSymbol(r: BitReader, ghost sum: Checksum, ghost s: State, ghost h: Header, ghost later: seq<bool>, ghost o: Result) returns (ending: Ending)
      requires Valid() && r.Valid() && r !in Repr() && 100_000 * s.k == store.nblockMAX && AlphaSize(used) == nInUse + 2
      requires Proceed(sum, Here(s, h), sr.Pending(r) + later) == o
      modifies r, Repr()
      ensures r.Valid()
      ensures ending == Going ==> Valid() && Proceed(sum, Here(s, h), sr.Pending(r) + later) == o && |sr.Pending(r)| < |old(sr.Pending(r))|
      ensures ending == Waiting ==>
                && Valid() && Proceed(sum, Here(s, h), sr.Pending(r) + later) == o
                && r.nextIn == [] && Await(Here(s, h).stage, sr.Pending(r)).Missing?
      ensures ending == Done ==> store.Valid() && Follow(sum, AfterColumn(s, h, store.column), r.Unread() + later) == o
      ensures ending == Bad ==> o.status == DataError && o.output == s.output
    {
      hide Valid, SymbolAt, Rank, Take, Mapped, AlphaSize, AfterColumn, Proceed, Follow, Store.Valid;
      var sym;
      ending, sym := ReadSymbol(r, sum, s, h, later, o);
      if ending == Going { ending := TakeSymbol(sym); }
    }
  }

  /** What the k-th symbol does in a run of the whole decompressor. */
  lemma SymbolRead(sum: Checksum, s: State, h: Header, used: seq<bool>, lens: seq<seq<int>>, selector: seq<nat>, k: nat, flat: Flat, bits: seq<bool>)
    ensures var o, a := Proceed(sum, s.At(Symbols(h, used, lens, selector, k, flat)), bits), SymbolAt(lens, selector, k, bits);
            && (a.Invalid? ==> o.status == DataError && o.output == s.output)
            && (a.Arrived? ==>
                  var taken := Take(flat, a.v, AlphaSize(used) - 2, 100_000 * s.k);
                  && (taken.Refused? ==> o.status == DataError && o.output == s.output)
                  && (taken.More? ==> Proceed(sum, s.At(Symbols(h, used, lens, selector, k + 1, taken.flat)), a.rest) == o)
                  && (taken.Complete? ==> Follow(sum, AfterColumn(s, h, Mapped(Names(used), taken.ranks)), a.rest) == o))
  {
    hide SymbolAt, Take, Mapped, Names, AlphaSize;
    var s0 := s.At(Symbols(h, used, lens, selector, k, flat));
    if SymbolAt(lens, selector, k, bits).Arrived? {
      hide Proceed;
      ProceedStep(sum, s0, bits);
    }
  }

  lemma SymbolInAlphabet(lens: seq<seq<int>>, selector: seq<nat>, k: nat, bits: seq<bool>, nInUse: nat)
    requires SymbolAt(lens, selector, k, bits).Arrived? && forall t :: 0 <= t < |lens| ==> |lens[t]| == nInUse + 2
    ensures SymbolAt(lens, selector, k, bits).v <= nInUse + 1 && |SymbolAt(lens, selector, k, bits).rest| < |bits|
  {
    hide Scan;
    ScanTakes(lens[selector[k / G_SIZE]], 1, bits);
  }

  lemma NoRun(flat: Flat)
    requires flat.list != [] && flat.run == 0 && flat.place == 1
    ensures flat.Flush() == flat
  {
    assert flat.out + Repeat(flat.list[0], 0) == flat.out;
  }

  lemma FlushTwice(flat: Flat, sym: nat, nInUse: nat, nblockMAX: nat)
    requires RUNB < sym <= nInUse && sym <= |flat.list|
    ensures Take(flat.Flush(), sym, nInUse, nblockMAX) == Take(flat, sym, nInUse, nblockMAX)
  {
    hide ToFront;
    NoRun(flat.Flush());
  }

  /** The front of the list is where the first window starts. */
  lemma FrontEntry(a: seq<byte>, bases: seq<int>)
    requires Shape(a, bases)
    ensures 0 <= bases[0] < MTFA_SIZE && a[bases[0]] == ListIn(a, bases)[0]
  {
    assert Pos(bases, 0) == bases[0];
  }

  /** The objects a decoder works on are different ones. */
  ghost predicate Apart(windows: Windows, store: Store, seqToUnseq: array<byte>, sr: SymbolReader) {
    && {windows.mtfa as object, windows.mtfbase} !! {store as object, store.tt, store.unzftab, sr}
    && store.tt as object != store.unzftab && windows.mtfa as object != windows.mtfbase
    && sr as object !in {store as object, store.tt, store.unzftab}
    && seqToUnseq as object !in {windows.mtfa as object, windows.mtfbase, store, store.tt, store.unzftab, sr}
  }
}
