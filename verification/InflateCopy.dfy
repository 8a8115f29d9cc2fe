/** Copying a match out of the ring and out of the output. */
module InflateCopy {
  import opened Words
  import opened Lz77
  import opened InflateWindow

  /** The byte at place p of the output of this call, or of the history when p is before its start. */
  function Source(h: seq<byte>, out: seq<byte>, beg: nat, p: int): byte
    requires beg - |h| <= p < |out|
  {
    if p < beg then h[|h| - (beg - p)] else out[p]
  }

  /** Every place from..upTo has the byte that is dist before it. */
  ghost predicate Copied(h: seq<byte>, out: seq<byte>, beg: nat, from: nat, upTo: nat, dist: nat)
    requires 1 <= dist && beg - |h| <= from - dist && upTo <= |out|
  {
    forall p :: from <= p < upTo ==> out[p] == Source(h, out, beg, p - dist)
  }

  lemma CopiedIsCopy(h: seq<byte>, was: seq<byte>, out: seq<byte>, beg: nat, from: nat, upTo: nat, dist: nat)
    requires 1 <= dist && beg <= from <= upTo <= |out| == |was| && beg - |h| <= from - dist
    requires out[..from] == was[..from] && Copied(h, out, beg, from, upTo, dist)
    ensures h + out[beg..upTo] == Copy(h + was[beg..from], upTo - from, dist)
  {
    hide Copy;
    var all, n := h + out[beg..upTo], |h| + from - beg;
    forall i | n <= i < n + upTo - from ensures all[i] == all[i - dist] {
      assert out[i - |h| + beg] == Source(h, out, beg, i - |h| + beg - dist);
    }
    assert was[beg..from] == out[beg..from] by { assert was[beg..from] == was[..from][beg..]; assert out[beg..from] == out[..from][beg..]; }
    assert all[..n] == h + was[beg..from];
    assert all[..n + upTo - from] == all;
    CopyFollows(all, n, upTo - from, dist);
  }

  /** Writing the next byte. */
  lemma CopiedMore(h: seq<byte>, out: seq<byte>, out': seq<byte>, beg: nat, from: nat, at: nat, dist: nat)
    requires 1 <= dist && beg <= from <= at < |out| && beg - |h| <= from - dist
    requires Copied(h, out, beg, from, at, dist)
    requires out' == out[at := Source(h, out, beg, at - dist)]
    ensures Copied(h, out', beg, from, at + 1, dist)
  {
    forall p | from <= p < at + 1 ensures out'[p] == Source(h, out', beg, p - dist) {
      if p < at { assert out[p] == Source(h, out, beg, p - dist); }
    }
  }

  // ---------- The three layouts ----------

  /** window[f..f + n] is the history from `back` bytes before its end on. */
  ghost predicate Segment(h: seq<byte>, window: seq<byte>, f: nat, n: nat, back: int) {
    f + n <= |window| && n <= back <= |h| && window[f..f + n] == h[|h| - back..|h| - back + n]
  }

  lemma SegmentTail(h: seq<byte>, window: seq<byte>, f: nat, n: nat, back: int)
    requires Segment(h, window, f, n, back) && n > 0
    ensures window[f] == h[|h| - back]
    ensures Segment(h, window, f + 1, n - 1, back - 1)
  {
    assert window[f] == window[f..f + n][0];
    assert window[f + 1..f + n] == window[f..f + n][1..];
    assert h[|h| - back + 1..|h| - back + n] == h[|h| - back..|h| - back + n][1..];
  }

  lemma SegmentStart(h: seq<byte>, window: seq<byte>, f: nat, n: nat, back: int, m: nat)
    requires Segment(h, window, f, n, back) && m <= n
    ensures Segment(h, window, f, m, back)
  {
    assert window[f..f + m] == window[f..f + n][..m];
    assert h[|h| - back..|h| - back + m] == h[|h| - back..|h| - back + n][..m];
  }

  /** The write index is at the start: the ring is full and in order. */
  lemma InOrder(window: seq<byte>, op: nat)
    requires 0 < op <= |window|
    ensures Segment(Unroll(window, |window|, 0), window, |window| - op, op, op)
  {
  }

  /** The match begins before the write index wraps: the end of the ring, then its start. */
  lemma Around(window: seq<byte>, wnext: nat, op: nat)
    requires wnext < op <= |window|
    ensures var h := Unroll(window, |window|, wnext);
            Segment(h, window, |window| + wnext - op, op - wnext, op) && Segment(h, window, 0, wnext, wnext)
  {
  }

  /** The match begins at or after the start of what is before the write index. */
  lemma Contiguous(window: seq<byte>, whave: nat, wnext: nat, op: nat)
    requires op <= wnext <= whave <= |window| && (whave == |window| || wnext == whave)
    ensures Segment(Unroll(window, whave, wnext), window, wnext - op, op, op)
  {
  }

  // ---------- The copy ----------

  /** `*out++ = *from++` */
  method CopyByte(output: array<byte>, src: array<byte>, from: nat, out: nat, ghost h: seq<byte>, ghost beg: nat, ghost start: nat, ghost dist: nat)
    requires 1 <= dist && beg <= start <= out < output.Length && beg - |h| <= start - dist && from < src.Length
    requires Copied(h, output[..], beg, start, out, dist) && src[from] == Source(h, output[..], beg, out - dist)
    modifies output
    ensures output[..] == old(output[..])[out := old(src[from])]
    ensures Copied(h, output[..], beg, start, out + 1, dist)
  {
    hide Copied, Source;
    CopiedMore(h, output[..], output[..][out := src[from]], beg, start, out, dist);
    output[out] := src[from];
  }

  /** `do { *out++ = *from++; } while (--op);` from the ring. */
  method FromWindow(output: array<byte>, window: array<byte>, from: nat, op: nat, out: nat,
                    ghost h: seq<byte>, ghost beg: nat, ghost start: nat, ghost dist: nat)
    requires output != window && 1 <= dist && beg <= start <= out && out + op <= output.Length && beg - |h| <= start - dist
    requires Copied(h, output[..], beg, start, out, dist) && Segment(h, window[..], from, op, beg + dist - out)
    modifies output
    ensures output[..out] == old(output[..out]) && output[out + op..] == old(output[out + op..])
    ensures Copied(h, output[..], beg, start, out + op, dist)
  {
    hide Copied, Segment, Source;
    for i := 0 to op
      invariant output[..out] == old(output[..out]) && output[out + op..] == old(output[out + op..])
      invariant Copied(h, output[..], beg, start, out + i, dist)
      invariant Segment(h, window[..], from + i, op - i, beg + dist - (out + i))
    {
      SegmentTail(h, window[..], from + i, op - i, beg + dist - (out + i));
      FromRing(h, output[..], window[..], from + i, op - i, beg, out + i, dist);
      CopyByte(output, window, from + i, out + i, h, beg, start, dist);
    }
  }

  lemma FromRing(h: seq<byte>, out: seq<byte>, window: seq<byte>, f: nat, n: nat, beg: nat, at: nat, dist: nat)
    requires Segment(h, window, f, n, beg + dist - at) && n > 0 && at < |out| && dist >= 1
    ensures f < |window| && beg - |h| <= at - dist < |out| && window[f] == Source(h, out, beg, at - dist)
  {
    SegmentTail(h, window, f, n, beg + dist - at);
  }

  /** The next n bytes to copy start at from: in the ring, or dist before out in the output itself. */
  ghost predicate Starts(h: seq<byte>, output: array<byte>, src: array<byte>, from: nat, n: nat, beg: nat, out: nat, dist: nat)
    reads output, src
  {
    if src == output then from == out - dist && from >= beg else Segment(h, src[..], from, n, beg + dist - out)
  }

  lemma StartsHere(h: seq<byte>, output: array<byte>, src: array<byte>, from: nat, n: nat, beg: nat, out: nat, dist: nat)
    requires Starts(h, output, src, from, n, beg, out, dist) && n > 0 && dist >= 1 && out < output.Length
    ensures from < src.Length && beg - |h| <= out - dist && src[from] == Source(h, output[..], beg, out - dist)
  {
    if src != output { FromRing(h, output[..], src[..], from, n, beg, out, dist); }
  }

  /** `*out++ = *from++` with len0 bytes still to copy. */
  method CopyNext(output: array<byte>, src: array<byte>, from0: nat, out0: nat, len0: nat,
                  ghost h: seq<byte>, ghost beg: nat, ghost start: nat, ghost dist: nat, ghost kept: nat)
    returns (out: nat, from: nat, len: nat)
    requires 1 <= dist && beg <= start <= out0 && len0 > 0 && out0 + len0 <= output.Length && beg - |h| <= start - dist
    requires Copied(h, output[..], beg, start, out0, dist) && Starts(h, output, src, from0, len0, beg, out0, dist)
    requires kept <= out0
    modifies output
    ensures out == out0 + 1 && from == from0 + 1 && len == len0 - 1
    ensures output[..kept] == old(output[..kept]) && output[out0 + len0..] == old(output[out0 + len0..])
    ensures Copied(h, output[..], beg, start, out, dist) && Starts(h, output, src, from, len, beg, out, dist)
  {
    hide Copied, Segment, Source;
    StartsHere(h, output, src, from0, len0, beg, out0, dist);
    if src != output { SegmentTail(h, src[..], from0, len0, beg + dist - out0); }
    CopyByte(output, src, from0, out0, h, beg, start, dist);
    out, from, len := out0 + 1, from0 + 1, len0 - 1;
  }

  /** Three bytes at a time, and the one or two that are left. */
  method Triples(output: array<byte>, src: array<byte>, from0: nat, out0: nat, len0: nat,
                 ghost h: seq<byte>, ghost beg: nat, ghost start: nat, ghost dist: nat)
    requires 1 <= dist && beg <= start <= out0 && out0 + len0 <= output.Length && beg - |h| <= start - dist
    requires Copied(h, output[..], beg, start, out0, dist) && Starts(h, output, src, from0, len0, beg, out0, dist)
    modifies output
    ensures output[..out0] == old(output[..out0]) && output[out0 + len0..] == old(output[out0 + len0..])
    ensures Copied(h, output[..], beg, start, out0 + len0, dist)
  {
    hide Copied, Starts, Source;
    var from, out, len := from0, out0, len0;
    while len > 2
      invariant out + len == out0 + len0 && out0 <= out
      invariant output[..out0] == old(output[..out0]) && output[out0 + len0..] == old(output[out0 + len0..])
      invariant Copied(h, output[..], beg, start, out, dist) && Starts(h, output, src, from, len, beg, out, dist)
    {
      out, from, len := CopyNext(output, src, from, out, len, h, beg, start, dist, out0);
      out, from, len := CopyNext(output, src, from, out, len, h, beg, start, dist, out0);
      out, from, len := CopyNext(output, src, from, out, len, h, beg, start, dist, out0);
    }
    if len > 0 {
      out, from, len := CopyNext(output, src, from, out, len, h, beg, start, dist, out0);
      if len > 0 {
        out, from, len := CopyNext(output, src, from, out, len, h, beg, start, dist, out0);
      }
    }
  }

  /** One stretch of the ring, and then what the output itself has, unless the stretch is enough. */
  method Stretch(output: array<byte>, window: array<byte>, from0: nat, op: nat, out0: nat, len0: nat,
                 ghost h: seq<byte>, ghost beg: nat, ghost start: nat, dist: nat)
    returns (src: array<byte>, from: nat, out: nat, len: nat)
    requires output != window && 1 <= dist && beg <= start <= out0 && out0 + len0 <= output.Length && beg - |h| <= start - dist
    requires Copied(h, output[..], beg, start, out0, dist) && Segment(h, window[..], from0, op, op) && op == beg + dist - out0
    modifies output
    ensures src == output || src == window
    ensures out0 <= out && out + len == out0 + len0
    ensures output[..out0] == old(output[..out0]) && output[out..] == old(output[out..])
    ensures Copied(h, output[..], beg, start, out, dist) && Starts(h, output, src, from, len, beg, out, dist)
  {
    hide Copied, Segment, Source;
    src, from, out, len := window, from0, out0, len0;
    if op < len {
      len := len - op;
      FromWindow(output, window, from, op, out, h, beg, start, dist);
      out := out + op;
      src, from := output, out - dist;
    } else {
      SegmentStart(h, window[..], from, op, op, len);
    }
  }

  /** The end of the ring, then its start, then what the output itself has. */
  method TwoStretches(output: array<byte>, window: array<byte>, from0: nat, op: nat, wnext: nat, out0: nat, len0: nat,
                      ghost h: seq<byte>, ghost beg: nat, ghost start: nat, dist: nat)
    returns (src: array<byte>, from: nat, out: nat, len: nat)
    requires output != window && 1 <= dist && beg <= start <= out0 && out0 + len0 <= output.Length && beg - |h| <= start - dist
    requires Copied(h, output[..], beg, start, out0, dist) && op + wnext == beg + dist - out0
    requires Segment(h, window[..], from0, op, op + wnext) && Segment(h, window[..], 0, wnext, wnext)
    modifies output
    ensures src == output || src == window
    ensures out0 <= out && out + len == out0 + len0
    ensures output[..out0] == old(output[..out0]) && output[out..] == old(output[out..])
    ensures Copied(h, output[..], beg, start, out, dist) && Starts(h, output, src, from, len, beg, out, dist)
  {
    hide Copied, Segment, Source;
    src, from, out, len := window, from0, out0, len0;
    if op < len {
      len := len - op;
      FromWindow(output, window, from, op, out, h, beg, start, dist);
      ghost var mid := output[..];
      src, from, out, len := Stretch(output, window, 0, wnext, out + op, len, h, beg, start, dist);
      Kept(output[..], mid, out0, out0 + op);
      assert mid[out..] == mid[out0 + op..][out - out0 - op..];
    } else {
      SegmentStart(h, window[..], from, op, op + wnext, len);
    }
  }

  /** The part of a match that is in the ring, in each of its layouts. */
  method CopyFromRing(w: Window, output: array<byte>, beg: nat, out0: nat, len0: nat, dist: nat, ghost h: seq<byte>)
    returns (src: array<byte>, from: nat, out: nat, len: nat)
    requires w.Valid() && output != w.window && beg <= out0 && out0 + len0 <= output.Length && h == w.History()
    requires 1 <= dist <= |h| + (out0 - beg) && dist > out0 - beg && Copied(h, output[..], beg, out0, out0, dist)
    modifies output
    ensures src == output || src == w.window
    ensures out0 <= out && out + len == out0 + len0
    ensures output[..out0] == old(output[..out0]) && output[out..] == old(output[out..])
    ensures Copied(h, output[..], beg, out0, out, dist) && Starts(h, output, src, from, len, beg, out, dist)
  {
    hide Copied, Segment, Source, Window.Valid, Starts;
    var op := dist - (out0 - beg);
    RingParts(w, op);
    if w.wnext == 0 {
      src, from, out, len := Stretch(output, w.window, w.wsize - op, op, out0, len0, h, beg, out0, dist);
    } else if w.wnext < op {
      src, from, out, len := TwoStretches(output, w.window, w.wsize + w.wnext - op, op - w.wnext, w.wnext, out0, len0, h, beg, out0, dist);
    } else {
      src, from, out, len := Stretch(output, w.window, w.wnext - op, op, out0, len0, h, beg, out0, dist);
    }
  }

  /** A match of len bytes from dist back, where out - beg bytes are in the output and the others in the ring. */
  method CopyMatch(w: Window, output: array<byte>, beg: nat, out0: nat, len0: nat, dist: nat) returns (out: nat)
    requires w.Valid() && output != w.window && beg <= out0 && out0 + len0 <= output.Length
    requires 1 <= dist <= |w.History()| + (out0 - beg)
    modifies output
    ensures out == out0 + len0
    ensures w.History() + output[beg..out] == Copy(w.History() + old(output[beg..out0]), len0, dist)
    ensures output[..out0] == old(output[..out0]) && output[out..] == old(output[out..])
  {
    hide Copied, Segment, Source, Copy, Window.Valid, Starts;
    ghost var h, was := w.History(), output[..];
    var src, from: nat, len := output, 0, len0;
    out := out0;
    NothingCopied(h, output[..], beg, out0, dist);
    if dist > out - beg {
      src, from, out, len := CopyFromRing(w, output, beg, out0, len0, dist, h);
    } else {
      from := out - dist;
      FromOutput(h, output, from, len, beg, out, dist);
    }

    ghost var mid := output[..];
    Triples(output, src, from, out, len, h, beg, out0, dist);
    Kept(output[..], mid, out0, out);
    out := out + len;
    assert was[out..] == was[out - len..][len..];
    assert mid[out..] == mid[out - len..][len..];
    CopiedIsCopy(h, was, output[..], beg, out0, out, dist);
  }

  lemma FromOutput(h: seq<byte>, output: array<byte>, from: nat, n: nat, beg: nat, out: nat, dist: nat)
    requires from == out - dist && from >= beg
    ensures Starts(h, output, output, from, n, beg, out, dist)
  {
  }

  lemma Kept(s: seq<byte>, t: seq<byte>, a: nat, b: nat)
    requires a <= b <= |s| && b <= |t| && s[..b] == t[..b]
    ensures s[..a] == t[..a]
  {
    assert s[..a] == s[..b][..a] && t[..a] == t[..b][..a];
  }

  lemma NothingCopied(h: seq<byte>, out: seq<byte>, beg: nat, at: nat, dist: nat)
    requires 1 <= dist && at <= |out| && beg - |h| <= at - dist
    ensures Copied(h, out, beg, at, at, dist)
  {
  }

  /** Where the last op bytes of the history are in the ring. */
  lemma RingParts(w: Window, op: nat)
    requires w.Valid() && 0 < op <= |w.History()|
    ensures op <= w.whave == |w.History()| && w.wsize == w.window.Length && w.wnext < w.wsize
    ensures w.wnext == 0 ==> op <= w.wsize && Segment(w.History(), w.window[..], w.wsize - op, op, op)
    ensures 0 < w.wnext < op ==> op <= w.wsize && Segment(w.History(), w.window[..], w.wsize + w.wnext - op, op - w.wnext, op)
    ensures 0 < w.wnext < op ==> Segment(w.History(), w.window[..], 0, w.wnext, w.wnext)
    ensures op <= w.wnext ==> Segment(w.History(), w.window[..], w.wnext - op, op, op)
  {
    hide Segment;
    if w.wnext == 0 { InOrder(w.window[..], op); }
    else if w.wnext < op { Around(w.window[..], w.wnext, op); }
    else { Contiguous(w.window[..], w.whave, w.wnext, op); }
  }
}
