/** What the decompressor makes of each symbol of a block: the last column, one rank after another. */
module ColumnSteps {
  import opened Words
  import opened RunCoding
  import opened MoveToFront
  import opened ByteMaps

  /** No run that fits a block needs a place value of this size. */
  const RUN_LIMIT := 2 * 1024 * 1024

  /** How many bytes have been delivered once the pending run is. */
  ghost function Reach(flat: Flat): nat {
    |flat.out| + flat.run
  }

  datatype Taken = Refused | More(flat: Flat) | Complete(ranks: seq<byte>)

  /** Takes one symbol: a digit of a run, the end mark, or a place in the list. */
  ghost function Take(flat: Flat, sym: nat, nInUse: nat, nblockMAX: nat): Taken {
    if flat.list == [] then Refused
    else if sym == RUNA || sym == RUNB then
      if flat.place >= RUN_LIMIT then Refused else More(Step(flat, sym))
    else if sym == nInUse + 1 then
      if Reach(flat) > nblockMAX then Refused else Complete(flat.Flush().out)
    else
      if Reach(flat) >= nblockMAX then Refused else More(Step(flat, sym))
  }

  // ---------- Symbols that were sent ----------

  lemma {:induction false} ReachGrows(st: Flat, syms: seq<nat>, m: nat)
    requires st.list != [] && m <= |syms|
    ensures Reach(Read(st, syms[..m])) <= Reach(Read(st, syms))
    decreases |syms| - m
  {
    if m < |syms| {
      assert syms[..m + 1][..m] == syms[..m];
      ReachGrows(st, syms, m + 1);
    } else {
      assert syms[..m] == syms;
    }
  }

  /** The digits of a run are at most worth the run. */
  lemma {:induction false} PlaceBelowRun(syms: seq<nat>)
    ensures Read(Start(), syms).place <= Read(Start(), syms).run + 1
  {
    if syms != [] { PlaceBelowRun(syms[..|syms| - 1]); }
  }

  /** Symbols a compressor may have sent for a block that fits: ranks in range, and not too many bytes. */
  ghost predicate Fitting(syms: seq<nat>, nInUse: nat, nblockMAX: nat) {
    (forall i :: 0 <= i < |syms| ==> syms[i] <= nInUse) && Reach(Read(Start(), syms)) <= nblockMAX
  }

  /** Symbols of a block that fits, with the end mark. */
  ghost predicate Whole(want: seq<nat>, nInUse: nat, nblockMAX: nat) {
    want != [] && want[|want| - 1] == nInUse + 1 && Fitting(want[..|want| - 1], nInUse, nblockMAX)
  }

  /** The symbols of a block that fits are taken one after another. */
  lemma TakesNext(want: seq<nat>, m: nat, nInUse: nat, nblockMAX: nat)
    requires Whole(want, nInUse, nblockMAX) && m < |want| && 1 <= nInUse <= 256 && nblockMAX <= 900_000
    ensures var taken := Take(Read(Start(), want[..m]), want[m], nInUse, nblockMAX);
            taken == if m == |want| - 1 then Complete(Decoded(want[..m])) else More(Read(Start(), want[..m + 1]))
  {
    hide Read;
    var init := want[..|want| - 1];
    assert want[..m] == init[..m];
    ReachGrows(Start(), init, m);
    if m < |init| {
      assert want[..m + 1] == want[..m] + [want[m]] && want[m] == init[m];
      ReadOne(Start(), want[..m], want[m]);
      ReachGrows(Start(), init, m + 1);
      assert want[..m + 1] == init[..m + 1];
      PlaceBelowRun(want[..m]);
    }
  }

  // ---------- Ranks and bytes ----------

  /** Ranks turned into the bytes they stand for. */
  function Mapped(names: seq<byte>, ranks: seq<byte>): (r: seq<byte>)
    requires |names| == 256
    ensures |r| == |ranks| && forall i :: 0 <= i < |r| ==> r[i] == names[ranks[i]]
  {
    seq<byte>(|ranks|, i requires 0 <= i < |ranks| => names[ranks[i]])
  }

  /** The byte of every rank. */
  ghost function Names(used: seq<bool>): (names: seq<byte>)
    ensures |names| == 256
  {
    if |used| == 256 then UsedBytes(used, 256) + Repeat(0, 256 - Rank(used, 256)) else Repeat(0, 256)
  }

  /** Ranks of a column turned back into bytes are the column. */
  lemma NamesUndoRanks(used: seq<bool>, l: seq<byte>)
    requires |used| == 256 && forall k :: 0 <= k < |l| ==> used[l[k]]
    ensures Mapped(Names(used), Ranks(used, l)) == l
  {
    hide Rank, UsedBytes;
    forall k | 0 <= k < |l| ensures Mapped(Names(used), Ranks(used, l))[k] == l[k] {
      assert used[l[k]] && Ranks(used, l)[k] == Rank(used, l[k]);
      UsedByteAt(used, l[k], 256);
    }
  }

  /** Every rank in the first n places of the list and in the output is below n. */
  ghost predicate Below(flat: Flat, n: nat) {
    && |flat.list| == 256 && 1 <= n <= 256
    && (forall i :: 0 <= i < n ==> flat.list[i] < n)
    && forall i :: 0 <= i < |flat.out| ==> flat.out[i] < n
  }

  lemma BelowStep(flat: Flat, sym: nat, n: nat)
    requires Below(flat, n) && sym <= n
    ensures Below(Step(flat, sym), n)
    ensures Below(flat.Flush(), n)
  {
  }

  lemma BelowStart(n: nat)
    requires 1 <= n <= 256
    ensures Below(Start(), n)
  {
  }
}
