/** The ring of output that inflate keeps between calls. */
module InflateWindow {
  import opened Words
  import opened Powers

  /** What the ring holds, oldest byte first. */
  function Unroll(data: seq<byte>, whave: nat, wnext: nat): seq<byte>
    requires wnext <= |data| && whave <= |data|
  {
    if whave < |data| then data[..whave] else data[wnext..] + data[..wnext]
  }

  /** The last n bytes of s, or all of them. */
  function Last(s: seq<byte>, n: nat): (r: seq<byte>)
    ensures |r| <= n
  {
    if |s| <= n then s else s[|s| - n..]
  }

  class Window {
    const wbits: nat
    var window: array<byte>
    var wsize: nat
    var whave: nat
    var wnext: nat

    ghost predicate Valid()
      reads this
    {
      && (window.Length == 0 || window.Length == Pow2(wbits))
      && (wsize == 0 || wsize == window.Length == Pow2(wbits))
      && (wsize == 0 ==> whave == 0 && wnext == 0)
      && (wsize > 0 ==> wnext < wsize)
      && (whave == wsize || wnext == whave < wsize)
    }

    /** The bytes a match can reach. */
    ghost function History(): seq<byte>
      reads this, window
      requires Valid()
    {
      if wsize == 0 then [] else Unroll(window[..], whave, wnext)
    }

    constructor (wbits: nat)
      ensures Valid() && fresh(window) && History() == [] && this.wbits == wbits
    {
      this.wbits := wbits;
      window := new byte[0];
      wsize := 0;
      whave := 0;
      wnext := 0;
    }

    /** `zmemcpy(state->window + to, end - copy, n)` */
    method CopyIn(to: nat, out: array<byte>, from: nat, n: nat)
      requires to + n <= window.Length && from + n <= out.Length && out != window
      modifies window
      ensures window[..] == old(window[..to]) + out[from..from + n] + old(window[to + n..])
    {
      forall i | 0 <= i < n {
        window[to + i] := out[from + i];
      }
    }

    /** Takes over the last copy bytes before end. */
    method UpdateWindow(out: array<byte>, end: nat, copy: nat)
      requires Valid() && copy <= end <= out.Length && out != window
      modifies this, window
      ensures Valid() && (window == old(window) || fresh(window)) && wsize == Pow2(wbits)
      ensures History() == Last(old(History()) + out[end - copy..end], wsize)
    {
      hide Pow2, Last, Unroll;
      ghost var h := History();
      if window.Length == 0 {
        window := new byte[Pow2(wbits)];
      }
      if wsize == 0 {
        wsize := Pow2(wbits);
        wnext := 0;
        whave := 0;
        NothingYet(window[..]);
      }
      if copy >= wsize {
        CopyIn(0, out, end - wsize, wsize);
        assert window[..] == out[end - wsize..end];
        wnext := 0;
        whave := wsize;
        Replaced(h, out[..], end, copy, wsize);
      } else {
        AddPart(out, end, copy, h);
      }
    }

    /** The new bytes reach the end of the ring, and go on at its start. */
    method StoreWrapped(out: array<byte>, end: nat, copy: nat, dist: nat, ghost h: seq<byte>)
      requires Valid() && wsize > 0 && copy <= end <= out.Length && copy < wsize && out != window && dist == wsize - wnext < copy
      requires h == Unroll(window[..], whave, wnext)
      modifies window
      ensures Unroll(window[..], wsize, copy - dist) == Last(h + out[end - copy..end], wsize)
    {
      hide Pow2, Last, Unroll;
      ghost var ring, s := window[..], out[end - copy..end];
      CopyIn(wnext, out, end - copy, dist);
      CopyIn(0, out, end - (copy - dist), copy - dist);
      Parts(out[..], end, copy, dist);
      Wrapped(ring, window[..], h, whave, wnext, s, dist);
    }

    method StoreStraight(out: array<byte>, end: nat, copy: nat, ghost h: seq<byte>)
      requires Valid() && wsize > 0 && copy <= end <= out.Length && copy < wsize && out != window && copy <= wsize - wnext
      requires h == Unroll(window[..], whave, wnext)
      modifies window
      ensures var next := if wnext + copy == wsize then 0 else wnext + copy;
              Unroll(window[..], if whave < wsize then whave + copy else whave, next) == Last(h + out[end - copy..end], wsize)
    {
      hide Pow2, Last, Unroll;
      ghost var ring := window[..];
      CopyIn(wnext, out, end - copy, copy);
      Straight(ring, window[..], h, whave, wnext, out[end - copy..end]);
    }

    /** Fewer bytes than the ring holds. */
    method AddPart(out: array<byte>, end: nat, copy: nat, ghost h: seq<byte>)
      requires Valid() && wsize > 0 && copy <= end <= out.Length && copy < wsize && out != window
      requires h == Unroll(window[..], whave, wnext)
      modifies this`wnext, this`whave, window
      ensures Valid()
      ensures History() == Last(h + out[end - copy..end], wsize)
    {
      hide Pow2, Last, Unroll;
      var dist := wsize - wnext;
      if dist > copy { dist := copy; }
      if copy > dist { StoreWrapped(out, end, copy, dist, h); } else { StoreStraight(out, end, copy, h); }
      Advance(copy, dist);
    }

    /** Where the ring goes on after `copy` bytes, the first `dist` of which were stored before its end. */
    method Advance(copy: nat, dist: nat)
      requires Valid() && wsize > 0 && dist == (if wsize - wnext > copy then copy else wsize - wnext) && copy < wsize
      modifies this`wnext, this`whave
      ensures Valid() && wnext == (if copy > dist then copy - dist else if old(wnext) + dist == wsize then 0 else old(wnext) + dist)
      ensures whave == if copy > dist then wsize else if old(whave) < wsize then old(whave) + dist else old(whave)
    {
      hide Pow2;
      if copy > dist {
        wnext, whave := copy - dist, wsize;
      } else {
        wnext := wnext + dist;
        if wnext == wsize { wnext := 0; }
        if whave < wsize { whave := whave + dist; }
      }
    }
  }

  lemma Parts(out: seq<byte>, end: nat, copy: nat, dist: nat)
    requires dist <= copy <= end <= |out|
    ensures var s := out[end - copy..end]; out[end - copy..end - copy + dist] == s[..dist] && out[end - copy + dist..end] == s[dist..]
  {
  }

  lemma NothingYet(ring: seq<byte>)
    requires |ring| > 0
    ensures Unroll(ring, 0, 0) == []
  {
  }

  /** The new bytes fill the ring. */
  lemma Replaced(h: seq<byte>, out: seq<byte>, end: nat, copy: nat, n: nat)
    requires n <= copy <= end <= |out|
    ensures Last(h + out[end - copy..end], n) == out[end - n..end] == Unroll(out[end - n..end], n, 0)
  {
    var s, r := h + out[end - copy..end], out[end - n..end];
    if |s| <= n { assert s == r; } else {
      assert s[|s| - n..] == r;
    }
  }

  /** The new bytes pass the end of the ring. */
  lemma Wrapped(ring: seq<byte>, ring': seq<byte>, h: seq<byte>, whave: nat, wnext: nat, s: seq<byte>, dist: nat)
    requires wnext < |ring| == |ring'| && whave <= |ring| && (whave == |ring| || wnext == whave)
    requires h == Unroll(ring, whave, wnext) && dist == |ring| - wnext < |s| < |ring|
    requires ring' == s[dist..] + (ring[..wnext] + s[..dist])[|s| - dist..]
    ensures Unroll(ring', |ring'|, |s| - dist) == Last(h + s, |ring|)
  {
  }

  /** The new bytes fit before the end of the ring. */
  lemma Straight(ring: seq<byte>, ring': seq<byte>, h: seq<byte>, whave: nat, wnext: nat, s: seq<byte>)
    requires wnext < |ring| == |ring'| && whave <= |ring| && (whave == |ring| || wnext == whave)
    requires h == Unroll(ring, whave, wnext) && |s| <= |ring| - wnext && |s| < |ring|
    requires ring' == ring[..wnext] + s + ring[wnext + |s|..]
    ensures var next := if wnext + |s| == |ring| then 0 else wnext + |s|;
            Unroll(ring', if whave < |ring| then whave + |s| else whave, next) == Last(h + s, |ring|)
  {
    var next := if wnext + |s| == |ring| then 0 else wnext + |s|;
    if whave < |ring| {
      assert ring'[..wnext + |s|] == h + s;
      if wnext + |s| == |ring| {
        assert ring[wnext + |s|..] == [];
        assert ring'[..0] == [] && ring'[0..] == ring' == h + s;
      }
    } else if wnext + |s| == |ring| {
      assert ring[wnext + |s|..] == [];
      assert ring' == ring[..wnext] + s;
      assert (h + s)[|s|..] == ring';
    } else {
      assert ring'[next..] == ring[wnext + |s|..] && ring'[..next] == ring[..wnext] + s;
      assert h[|s|..] == ring[wnext + |s|..] + ring[..wnext];
      assert (h + s)[|s|..] == h[|s|..] + s;
    }
  }
}
