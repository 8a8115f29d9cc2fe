/** The decoder's move-to-front list: sixteen windows of sixteen entries drifting down a 4096-byte array. */
module MtfWindows {
  import opened Words
  import opened MoveToFront

  const MTFA_SIZE := 4096
  const MTFL_SIZE := 16

  // ---------- Windows as values ----------

  /** The windows follow one another without overlap, inside the array. */
  ghost predicate Shape(a: seq<byte>, bases: seq<int>) {
    && |a| == MTFA_SIZE && |bases| == 16
    && (forall w :: 0 <= w < 16 ==> 0 <= bases[w] && bases[w] + 16 <= MTFA_SIZE)
    && forall v, w :: 0 <= v < w < 16 ==> bases[v] + 16 * (w - v) <= bases[w]
  }

  /** Where list entry k is stored. */
  function Pos(bases: seq<int>, k: nat): int
    requires |bases| == 16 && k < 256
  {
    bases[k / 16] + k % 16
  }

  lemma PosInside(a: seq<byte>, bases: seq<int>, k: nat)
    requires Shape(a, bases) && k < 256
    ensures 0 <= Pos(bases, k) < MTFA_SIZE
  {
  }

  /** The list the windows stand for, end to end. */
  ghost function ListIn(a: seq<byte>, bases: seq<int>): (list: seq<byte>)
    requires Shape(a, bases)
    ensures |list| == 256
    ensures forall k :: 0 <= k < 256 ==> 0 <= Pos(bases, k) < MTFA_SIZE && list[k] == a[Pos(bases, k)]
  {
    seq<byte>(256, k requires 0 <= k < 256 && Shape(a, bases) => a[Pos(bases, k)])
  }

  lemma ListEntry(a: seq<byte>, bases: seq<int>, k: nat)
    requires Shape(a, bases) && k < 256
    ensures 0 <= Pos(bases, k) < MTFA_SIZE && ListIn(a, bases)[k] == a[Pos(bases, k)]
  {
  }

  /** An entry nn of the first window has moved to its start. */
  lemma NearMoved(a: seq<byte>, a': seq<byte>, bases: seq<int>, nn: nat)
    requires Shape(a, bases) && |a'| == MTFA_SIZE && nn < 16
    requires a'[bases[0]] == a[bases[0] + nn]
    requires forall q {:trigger a'[q]} :: 0 <= q < MTFA_SIZE && q != bases[0] ==> a'[q] == if bases[0] < q <= bases[0] + nn then a[q - 1] else a[q]
    ensures ListIn(a', bases) == ToFront(ListIn(a, bases), nn)
  {
    var list, list' := ListIn(a, bases), ListIn(a', bases);
    forall k | 0 <= k < 256
      ensures list'[k] == ToFront(list, nn)[k]
    {
      NearEntry(a, a', bases, nn, k);
    }
  }

  lemma NearEntry(a: seq<byte>, a': seq<byte>, bases: seq<int>, nn: nat, k: nat)
    requires Shape(a, bases) && |a'| == MTFA_SIZE && nn < 16 && k < 256
    requires a'[bases[0]] == a[bases[0] + nn]
    requires forall q {:trigger a'[q]} :: 0 <= q < MTFA_SIZE && q != bases[0] ==> a'[q] == if bases[0] < q <= bases[0] + nn then a[q - 1] else a[q]
    ensures 0 <= Pos(bases, k) < MTFA_SIZE && 0 <= Pos(bases, nn) < MTFA_SIZE
    ensures k == 0 ==> a'[Pos(bases, k)] == a[Pos(bases, nn)]
    ensures 0 < k <= nn ==> 0 <= Pos(bases, k - 1) < MTFA_SIZE && a'[Pos(bases, k)] == a[Pos(bases, k - 1)]
    ensures k > nn ==> a'[Pos(bases, k)] == a[Pos(bases, k)]
  {
    PosInside(a, bases, k);
    if k > nn { LaterPos(a, bases, nn, k); }
  }

  /** The bases after an entry of window lno has moved to the front. */
  ghost predicate BasesDropped(bases: seq<int>, bases': seq<int>, lno: nat) {
    |bases| == |bases'| == 16 && forall w :: 0 <= w < 16 ==> bases'[w] == if w < lno then bases[w] - 1 else bases[w]
  }

  /** The contents after it: window lno opens at its start, and every lower window hands its last entry on. */
  ghost predicate FarMove(a: seq<byte>, a': seq<byte>, bases: seq<int>, lno: nat, off: nat) {
    && |a| == |a'| == MTFA_SIZE && |bases| == 16 && 0 < lno < 16 && off < 16
    && (forall q {:trigger a'[q]} :: 0 <= bases[lno] < q < MTFA_SIZE ==> a'[q] == if q <= bases[lno] + off then a[q - 1] else a[q])
    && (forall w :: 0 < w <= lno ==> 0 <= HandedTo(bases, lno, w) < MTFA_SIZE && 0 <= bases[w - 1] + 15 < MTFA_SIZE && a'[HandedTo(bases, lno, w)] == a[bases[w - 1] + 15])
    && (forall w, q :: 0 <= w < lno && bases[w] <= q < bases[w] + 15 && 0 <= q < MTFA_SIZE ==> a'[q] == a[q])
  }

  /** Where the last entry of window w - 1 goes. */
  ghost function HandedTo(bases: seq<int>, lno: nat, w: nat): int
    requires w < |bases|
  {
    if w == lno then bases[w] else bases[w] - 1
  }

  lemma FarMoved(a: seq<byte>, a': seq<byte>, bases: seq<int>, bases': seq<int>, lno: nat, off: nat)
    requires Shape(a, bases) && bases[0] > 0 && BasesDropped(bases, bases', lno) && FarMove(a, a', bases, lno, off)
    requires a'[bases[0] - 1] == a[bases[lno] + off]
    ensures Shape(a', bases') && ListIn(a', bases') == ToFront(ListIn(a, bases), 16 * lno + off)
  {
    var list, list', nn := ListIn(a, bases), ListIn(a', bases'), 16 * lno + off;
    forall k | 0 <= k < 256
      ensures list'[k] == ToFront(list, nn)[k]
    {
      FarEntry(a, a', bases, bases', lno, off, k);
    }
  }

  lemma FarEntry(a: seq<byte>, a': seq<byte>, bases: seq<int>, bases': seq<int>, lno: nat, off: nat, k: nat)
    requires Shape(a, bases) && Shape(a', bases') && BasesDropped(bases, bases', lno) && FarMove(a, a', bases, lno, off) && k < 256
    requires 0 < lno < 16 && off < 16 && bases[0] > 0 && a'[bases[0] - 1] == a[bases[lno] + off]
    ensures var nn := 16 * lno + off;
            0 <= Pos(bases', k) < MTFA_SIZE
            && (k == 0 ==> a'[Pos(bases', k)] == a[Pos(bases, nn)])
            && (0 < k <= nn ==> a'[Pos(bases', k)] == a[Pos(bases, k - 1)])
            && (k > nn ==> a'[Pos(bases', k)] == a[Pos(bases, k)])
  {
    hide FarMove;
    var w, j, nn := k / 16, k % 16, 16 * lno + off;
    PosInside(a', bases', k);
    if k == 0 {
    } else if k > nn {
      LaterPos(a, bases, nn, k);
      FarMoveBeyond(a, a', bases, lno, off, Pos(bases, k));
    } else if j == 0 {
      FarMoveHanded(a, a', bases, lno, off, w);
    } else if w < lno {
      FarMoveKept(a, a', bases, lno, off, w, bases[w] + (j - 1));
    } else {
      FarMoveBeyond(a, a', bases, lno, off, bases[lno] + j);
    }
  }

  lemma FarMoveBeyond(a: seq<byte>, a': seq<byte>, bases: seq<int>, lno: nat, off: nat, q: int)
    requires FarMove(a, a', bases, lno, off) && 0 <= bases[lno] < q < MTFA_SIZE
    ensures a'[q] == if q <= bases[lno] + off then a[q - 1] else a[q]
  {
  }

  lemma FarMoveHanded(a: seq<byte>, a': seq<byte>, bases: seq<int>, lno: nat, off: nat, w: nat)
    requires FarMove(a, a', bases, lno, off) && 0 < w <= lno
    ensures 0 <= HandedTo(bases, lno, w) < MTFA_SIZE && 0 <= bases[w - 1] + 15 < MTFA_SIZE
    ensures a'[HandedTo(bases, lno, w)] == a[bases[w - 1] + 15]
  {
  }

  lemma FarMoveKept(a: seq<byte>, a': seq<byte>, bases: seq<int>, lno: nat, off: nat, w: nat, q: int)
    requires FarMove(a, a', bases, lno, off) && w < lno && bases[w] <= q < bases[w] + 15 && 0 <= q < MTFA_SIZE
    ensures a'[q] == a[q]
  {
  }

  lemma LaterPos(a: seq<byte>, bases: seq<int>, k: nat, k': nat)
    requires Shape(a, bases) && k < k' < 256
    ensures Pos(bases, k) < Pos(bases, k')
  {
  }

  /** Contents while windows above lno have taken over the last entry of the window below them. */
  ghost predicate Handing(a: seq<byte>, a': seq<byte>, bases: seq<int>, lno0: nat, lno: nat) {
    && Shape(a, bases) && |a'| == MTFA_SIZE && lno <= lno0 < 16
    && (forall q :: bases[lno0] < q < MTFA_SIZE ==> a'[q] == a[q])
    && (forall w :: lno < w <= lno0 ==> 0 <= HandedTo(bases, lno0, w) < MTFA_SIZE && a'[HandedTo(bases, lno0, w)] == a[bases[w - 1] + 15])
    && (forall w, q :: 0 <= w < lno0 && bases[w] <= q < bases[w] + 15 ==> a'[q] == a[q])
    && (forall w :: 0 <= w < lno ==> a'[bases[w] + 15] == a[bases[w] + 15])
  }

  lemma HandStep(a: seq<byte>, a': seq<byte>, bases: seq<int>, lno0: nat, lno: nat)
    requires Handing(a, a', bases, lno0, lno) && 0 < lno
    ensures 0 <= HandedTo(bases, lno0, lno) < MTFA_SIZE
    ensures Handing(a, a'[HandedTo(bases, lno0, lno) := a'[bases[lno - 1] + 15]], bases, lno0, lno - 1)
  {
  }

  lemma BaseBelowTop(a: seq<byte>, bases: seq<int>, w: nat)
    requires Shape(a, bases) && w < 16
    ensures 0 <= bases[w] <= MTFA_SIZE - 256 + 16 * w
  {
    if w < 15 { assert bases[w] + 16 * (15 - w) <= bases[15]; }
  }

  /** Opening window lno and handing entries down, with the front entry still to be stored. */
  lemma HandedFarMove(a: seq<byte>, moved: seq<byte>, a': seq<byte>, bases: seq<int>, cur: seq<int>, lno: nat, off: nat)
    requires Shape(a, bases) && bases[0] > 0 && 0 < lno < 16 && off < 16
    requires |moved| == MTFA_SIZE
    requires forall q {:trigger moved[q]} :: 0 <= q < MTFA_SIZE ==> moved[q] == if bases[lno] < q <= bases[lno] + off then a[q - 1] else a[q]
    requires Handing(moved, a', bases, lno, 0) && HandingBases(bases, cur, lno, 0)
    ensures |cur| == 16 && cur[0] == bases[0] && BasesDropped(bases, cur[0 := cur[0] - 1], lno)
    ensures |a'| == MTFA_SIZE && FarMove(a, a'[bases[0] - 1 := a[bases[lno] + off]], bases, lno, off)
  {
    var last := a'[bases[0] - 1 := a[bases[lno] + off]];
    forall w | 0 < w <= lno
      ensures 0 <= HandedTo(bases, lno, w) < MTFA_SIZE && 0 <= bases[w - 1] + 15 < MTFA_SIZE && last[HandedTo(bases, lno, w)] == a[bases[w - 1] + 15]
    {
      assert moved[bases[w - 1] + 15] == a[bases[w - 1] + 15];
    }
    forall w, q | 0 <= w < lno && bases[w] <= q < bases[w] + 15
      ensures last[q] == a[q]
    {
      assert a'[q] == moved[q];
    }
  }

  /** The bases while window lno is next. */
  ghost predicate HandingBases(bases: seq<int>, cur: seq<int>, lno0: nat, lno: nat) {
    && |bases| == |cur| == 16
    && forall w :: 0 <= w < 16 ==> cur[w] == if w == lno == lno0 then bases[w] + 1 else if lno < w < lno0 then bases[w] - 1 else bases[w]
  }

  // ---------- Windows in place ----------

  class Windows {
    const mtfa: array<byte>
    const mtfbase: array<int>

    constructor ()
      ensures fresh(mtfa) && fresh(mtfbase) && Valid() && List() == Identity()
    {
      mtfa, mtfbase := new byte[MTFA_SIZE], new int[256 / MTFL_SIZE];
      new;
      Initialise();
    }

    ghost predicate Shaped()
      reads mtfa, mtfbase
    {
      Shape(mtfa[..], mtfbase[..]) && mtfa as object != mtfbase
    }

    /** Between symbols there is room below the first window. */
    ghost predicate Valid()
      reads mtfa, mtfbase
    {
      Shaped() && mtfbase[0] > 0
    }

    ghost function List(): (list: seq<byte>)
      requires Shaped()
      reads mtfa, mtfbase
      ensures |list| == 256
    {
      ListIn(mtfa[..], mtfbase[..])
    }

    method Initialise()
      requires mtfa.Length == MTFA_SIZE && mtfbase.Length == 16 && mtfa as object != mtfbase
      modifies mtfa, mtfbase
      ensures Valid() && List() == Identity()
    {
      var kk := MTFA_SIZE - 1;
      var ii := 256 / MTFL_SIZE - 1;
      while ii >= 0
        invariant -1 <= ii <= 15 && kk == MTFA_SIZE - 256 + 16 * ii + 15
        invariant forall w :: ii < w < 16 ==> mtfbase[w] == MTFA_SIZE - 256 + 16 * w
        invariant forall q :: kk < q < MTFA_SIZE ==> mtfa[q] == q - (MTFA_SIZE - 256)
      {
        var jj := MTFL_SIZE - 1;
        while jj >= 0
          invariant -1 <= jj <= 15 && kk == MTFA_SIZE - 256 + 16 * ii + jj
          invariant forall w :: ii < w < 16 ==> mtfbase[w] == MTFA_SIZE - 256 + 16 * w
          invariant forall q :: kk < q < MTFA_SIZE ==> mtfa[q] == q - (MTFA_SIZE - 256)
        {
          mtfa[kk] := ii * MTFL_SIZE + jj;
          kk := kk - 1;
          jj := jj - 1;
        }
        mtfbase[ii] := kk + 1;
        ii := ii - 1;
      }
      assert forall k :: 0 <= k < 256 ==> Pos(mtfbase[..], k) == MTFA_SIZE - 256 + k;
    }

    /** Brings an entry of the first window to the front; four entries move at a time while possible. */
    method TakeNear(nn0: nat) returns (uc: byte)
      requires Valid() && nn0 < MTFL_SIZE
      modifies mtfa
      ensures Valid() && uc == old(List())[nn0] && List() == ToFront(old(List()), nn0)
    {
      hide ListIn;
      ghost var a, bases := mtfa[..], mtfbase[..];
      var pp := mtfbase[0];
      assert Pos(bases, nn0) == pp + nn0;
      uc := mtfa[pp + nn0];
      ListEntry(a, bases, nn0);
      MoveUp(pp, nn0);
      mtfa[pp] := uc;
      assert mtfbase[..] == bases;
      NearMoved(a, mtfa[..], bases, nn0);
    }

    /** The nn0 entries from pp on move up by one. */
    method MoveUp(pp: nat, nn0: nat)
      requires mtfa.Length == MTFA_SIZE && pp + nn0 < MTFA_SIZE
      modifies mtfa
      ensures forall q {:trigger mtfa[q]} :: 0 <= q < MTFA_SIZE ==> mtfa[q] == if pp < q <= pp + nn0 then old(mtfa[q - 1]) else old(mtfa[q])
    {
      ghost var a := mtfa[..];
      var nn := nn0;
      while nn > 3
        invariant 0 <= nn <= nn0
        invariant forall q {:trigger mtfa[q]} :: 0 <= q < MTFA_SIZE ==> mtfa[q] == if pp + nn < q <= pp + nn0 then a[q - 1] else a[q]
      {
        var z := pp + nn;
        mtfa[z] := mtfa[z - 1];
        mtfa[z - 1] := mtfa[z - 2];
        mtfa[z - 2] := mtfa[z - 3];
        mtfa[z - 3] := mtfa[z - 4];
        nn := nn - 4;
      }
      while nn > 0
        invariant 0 <= nn <= nn0
        invariant forall q {:trigger mtfa[q]} :: 0 <= q < MTFA_SIZE ==> mtfa[q] == if pp + nn < q <= pp + nn0 then a[q - 1] else a[q]
      {
        mtfa[pp + nn] := mtfa[pp + nn - 1];
        nn := nn - 1;
      }
    }

    /** Makes room at the start of window lno: its first off entries move up by one. */
    method OpenWindow(lno: nat, off: nat)
      requires Valid() && lno < 16 && off < 16
      modifies mtfa
      ensures Shaped()
      ensures forall q {:trigger mtfa[q]} :: 0 <= q < MTFA_SIZE ==> mtfa[q] == if mtfbase[lno] < q <= mtfbase[lno] + off then old(mtfa[q - 1]) else old(mtfa[q])
    {
      ghost var a := mtfa[..];
      var pp := mtfbase[lno] + off;
      while pp > mtfbase[lno]
        invariant mtfbase[lno] <= pp <= mtfbase[lno] + off
        invariant forall q {:trigger mtfa[q]} :: 0 <= q < MTFA_SIZE ==> mtfa[q] == if pp < q <= mtfbase[lno] + off then a[q - 1] else a[q]
      {
        mtfa[pp] := mtfa[pp - 1];
        pp := pp - 1;
      }
    }

    /** Each window up to lno takes over the last entry of the window below it. */
    method HandDown(lno0: nat)
      requires Valid() && 0 < lno0 < 16
      modifies mtfa, mtfbase
      ensures Handing(old(mtfa[..]), mtfa[..], old(mtfbase[..]), lno0, 0)
      ensures HandingBases(old(mtfbase[..]), mtfbase[..], lno0, 0)
    {
      ghost var a, bases := mtfa[..], mtfbase[..];
      var lno := lno0;
      mtfbase[lno] := mtfbase[lno] + 1;
      assert Handing(a, a, bases, lno0, lno0);
      hide Handing, Shape;
      while lno > 0
        invariant 0 <= lno <= lno0
        invariant HandingBases(bases, mtfbase[..], lno0, lno)
        invariant Handing(a, mtfa[..], bases, lno0, lno)
      {
        ghost var before := mtfa[..];
        HandStep(a, before, bases, lno0, lno);
        mtfbase[lno] := mtfbase[lno] - 1;
        var last := mtfa[mtfbase[lno - 1] + MTFL_SIZE - 1];
        mtfa[mtfbase[lno]] := last;
        assert mtfa[..] == before[HandedTo(bases, lno0, lno) := before[bases[lno - 1] + 15]];
        lno := lno - 1;
      }
    }

    /** Copies window ii to just below kk + 1, last entry first. */
    method RaiseWindow(ii: nat, kk0: nat, ghost a: seq<byte>, ghost bases: seq<int>, ghost list: seq<byte>)
      requires mtfa.Length == |a| == MTFA_SIZE && mtfbase.Length == |bases| == 16 && Shape(a, bases) && list == ListIn(a, bases)
      requires ii < 16 && kk0 == MTFA_SIZE - 256 + 16 * ii + 15 && mtfbase[ii] == bases[ii] && bases[ii] + 15 <= kk0
      requires forall q :: 0 <= q <= kk0 ==> mtfa[q] == a[q]
      requires forall q :: kk0 < q < MTFA_SIZE ==> mtfa[q] == list[q - (MTFA_SIZE - 256)]
      modifies mtfa
      ensures forall q :: 0 <= q <= kk0 - 16 ==> mtfa[q] == a[q]
      ensures forall q :: kk0 - 16 < q < MTFA_SIZE ==> mtfa[q] == list[q - (MTFA_SIZE - 256)]
    {
      hide ListIn, Shape;
      var kk: int := kk0;
      var jj := MTFL_SIZE - 1;
      while jj >= 0
        invariant -1 <= jj <= 15 && kk == MTFA_SIZE - 256 + 16 * ii + jj
        invariant forall q :: 0 <= q <= kk ==> mtfa[q] == a[q]
        invariant forall q :: kk < q < MTFA_SIZE ==> mtfa[q] == list[q - (MTFA_SIZE - 256)]
      {
        ListEntry(a, bases, 16 * ii + jj);
        assert Pos(bases, 16 * ii + jj) == bases[ii] + jj;
        mtfa[kk] := mtfa[mtfbase[ii] + jj];
        kk := kk - 1;
        jj := jj - 1;
      }
    }

    /** Copies the windows, last entry first, back to the top of the array they live in. */
    method Rebuild()
      requires Shaped()
      modifies mtfa, mtfbase
      ensures Valid() && List() == old(List())
    {
      ghost var a, bases, list := mtfa[..], mtfbase[..], List();
      var kk := MTFA_SIZE - 1;
      var ii := 256 / MTFL_SIZE - 1;
      while ii >= 0
        invariant -1 <= ii <= 15 && kk == MTFA_SIZE - 256 + 16 * ii + 15
        invariant forall w :: 0 <= w < 16 ==> mtfbase[w] == if w <= ii then bases[w] else MTFA_SIZE - 256 + 16 * w
        invariant forall q :: 0 <= q <= kk ==> mtfa[q] == a[q]
        invariant forall q :: kk < q < MTFA_SIZE ==> mtfa[q] == list[q - (MTFA_SIZE - 256)]
      {
        BaseBelowTop(a, bases, ii);
        RaiseWindow(ii, kk, a, bases, list);
        kk := kk - 16;
        mtfbase[ii] := kk + 1;
        ii := ii - 1;
      }
      assert forall k :: 0 <= k < 256 ==> Pos(mtfbase[..], k) == MTFA_SIZE - 256 + k;
    }

    /** Brings an entry beyond the first window to the front, moving one entry between neighbours. */
    method TakeFar(nn: nat) returns (uc: byte)
      requires Valid() && MTFL_SIZE <= nn < 256
      modifies mtfa, mtfbase
      ensures Valid() && uc == old(List())[nn] && List() == ToFront(old(List()), nn)
    {
      hide Handing, HandingBases, FarMove;
      ghost var a, bases := mtfa[..], mtfbase[..];
      var lno, off := nn / MTFL_SIZE, nn % MTFL_SIZE;
      var pp := mtfbase[lno] + off;
      uc := mtfa[pp];
      assert pp == Pos(bases, nn);
      OpenWindow(lno, off);
      ghost var moved := mtfa[..];
      assert mtfbase[..] == bases;
      HandDown(lno);
      HandedFarMove(a, moved, mtfa[..], bases, mtfbase[..], lno, off);
      mtfbase[0] := mtfbase[0] - 1;
      mtfa[mtfbase[0]] := uc;
      FarMoved(a, mtfa[..], bases, mtfbase[..], lno, off);
      if mtfbase[0] == 0 { Rebuild(); }
    }

    /** The byte at list position nn, which moves to the front. */
    method Take(nn: nat) returns (uc: byte)
      requires Valid() && nn < 256
      modifies mtfa, mtfbase
      ensures Valid() && uc == old(List())[nn] && List() == ToFront(old(List()), nn)
    {
      if nn < MTFL_SIZE { uc := TakeNear(nn); } else { uc := TakeFar(nn); }
    }
  }
}
