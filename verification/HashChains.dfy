/** Deflate's dictionary: hash chains through the window positions of earlier strings. */
module HashChains {
  import opened Words
  import opened RollingHash

  /** `pos & w_mask`, for a position in a window of two halves of wSize bytes. */
  function Slot(wSize: nat, pos: nat): nat {
    if pos < wSize then pos else pos - wSize
  }

  /** The hash of the three bytes at input position q. */
  function Key(hash: HashSpec, all: seq<byte>, q: nat): nat
    requires q + 2 < |all|
  {
    hash.Of3(all[q], all[q + 1], all[q + 2])
  }

  /** An inserted string with hash h. */
  ghost predicate IsOne(hash: HashSpec, all: seq<byte>, inserted: set<nat>, p: nat, h: nat) {
    p in inserted && p + 2 < |all| && Key(hash, all, p) == h
  }

  /**
   * Window position v is that of the latest inserted string before input position q with hash h, or 0 if there is none
   * behind position 0 of the window, which starts at input position base.
   */
  ghost predicate IsLatest(hash: HashSpec, all: seq<byte>, base: nat, inserted: set<nat>, v: nat, h: nat, q: nat) {
    && (v == 0 || (base + v < q && IsOne(hash, all, inserted, base + v, h)))
    && forall p :: base + v < p < q ==> !IsOne(hash, all, inserted, p, h)
  }

  /** The string after q in its chain is the latest before q with the same hash. */
  ghost predicate LinkOk(hash: HashSpec, all: seq<byte>, base: nat, inserted: set<nat>, v: nat, q: nat) {
    q + 2 < |all| && IsLatest(hash, all, base, inserted, v, Key(hash, all, q), q)
  }

  /** Every head is the latest of its strings, and every link of a string whose slot has not been used again is in order. */
  ghost predicate Chained(hash: HashSpec, wSize: nat, head: seq<nat>, prev: seq<nat>, all: seq<byte>, base: nat, inserted: set<nat>, top: nat) {
    && hash.Good() && wSize > 0 && |head| == hash.Size() && |prev| == wSize && top <= base + 2 * wSize
    && (forall q :: q in inserted ==> q < top && q + 2 < |all|)
    && (top > 0 ==> top - 1 in inserted)
    && (forall h :: 0 <= h < |head| ==> IsLatest(hash, all, base, inserted, head[h], h, top))
    && (forall q :: q in inserted && base <= q && top <= q + wSize ==> LinkOk(hash, all, base, inserted, prev[Slot(wSize, q - base)], q))
  }

  lemma LatestMore(hash: HashSpec, all: seq<byte>, more: seq<byte>, base: nat, inserted: set<nat>, v: nat, h: nat, q: nat)
    requires IsLatest(hash, all, base, inserted, v, h, q) && forall p :: p in inserted ==> p + 2 < |all|
    ensures IsLatest(hash, all + more, base, inserted, v, h, q)
  {
    hide HashSpec.Of3;
    forall p: nat ensures IsOne(hash, all + more, inserted, p, h) == IsOne(hash, all, inserted, p, h) {
      if p in inserted { assert p + 2 < |all|; }
    }
  }

  lemma ChainedMore(hash: HashSpec, wSize: nat, head: seq<nat>, prev: seq<nat>, all: seq<byte>, more: seq<byte>, base: nat, inserted: set<nat>, top: nat)
    requires Chained(hash, wSize, head, prev, all, base, inserted, top)
    ensures Chained(hash, wSize, head, prev, all + more, base, inserted, top)
  {
    hide HashSpec.Of3, HashSpec.Size, HashSpec.Good, IsLatest;
    var all' := all + more;
    forall h | 0 <= h < |head| ensures IsLatest(hash, all', base, inserted, head[h], h, top) {
      LatestMore(hash, all, more, base, inserted, head[h], h, top);
    }
    forall q | q in inserted && base <= q && top <= q + wSize ensures LinkOk(hash, all', base, inserted, prev[Slot(wSize, q - base)], q) {
      var v := prev[Slot(wSize, q - base)];
      assert LinkOk(hash, all, base, inserted, v, q);
      LatestMore(hash, all, more, base, inserted, v, Key(hash, all, q), q);
    }
  }

  /** INSERT_STRING: the old head becomes the link of the new one. */
  lemma ChainedInsert(hash: HashSpec, wSize: nat, head: seq<nat>, prev: seq<nat>, all: seq<byte>, base: nat, inserted: set<nat>, top: nat, str: nat)
    requires Chained(hash, wSize, head, prev, all, base, inserted, top)
    requires base + str >= top && base + str + 2 < |all| && str < 2 * wSize
    ensures var h := Key(hash, all, base + str);
            && h < |head|
            && Chained(hash, wSize, head[h := str], prev[Slot(wSize, str) := head[h]], all, base, inserted + {base + str}, base + str + 1)
  {
    hide HashSpec.Of3, HashSpec.Good, IsLatest, LinkOk, Key;
    var q0 := base + str;
    var h0 := Key(hash, all, q0);
    KeyInRange(hash, all, q0);
    var head', prev', inserted' := head[h0 := str], prev[Slot(wSize, str) := head[h0]], inserted + {q0};
    forall h | 0 <= h < |head| ensures IsLatest(hash, all, base, inserted', head'[h], h, q0 + 1) {
      if h == h0 {
        NewHead(hash, all, base, inserted, top, q0, head[h0]);
      } else {
        HeadStays(hash, all, base, inserted, top, q0, head[h], h);
      }
    }
    forall q | q in inserted' && base <= q && q0 + 1 <= q + wSize ensures LinkOk(hash, all, base, inserted', prev'[Slot(wSize, q - base)], q) {
      if q == q0 {
        NewHead(hash, all, base, inserted, top, q0, head[h0]);
      } else {
        LinkStays(hash, all, base, inserted, q0, prev[Slot(wSize, q - base)], q);
        assert Slot(wSize, q - base) != Slot(wSize, str);
      }
    }
  }

  lemma KeyInRange(hash: HashSpec, all: seq<byte>, q: nat)
    requires hash.Good() && q + 2 < |all|
    ensures Key(hash, all, q) < hash.Size()
  {
  }

  /** The heads of the other chains stay. */
  lemma HeadStays(hash: HashSpec, all: seq<byte>, base: nat, inserted: set<nat>, top: nat, q0: nat, v: nat, h: nat)
    requires IsLatest(hash, all, base, inserted, v, h, top) && top <= q0 && forall q :: q in inserted ==> q < top
    requires q0 + 2 < |all| && Key(hash, all, q0) != h
    ensures IsLatest(hash, all, base, inserted + {q0}, v, h, q0 + 1)
  {
    hide Key;
    forall p | base + v < p < q0 + 1 ensures !IsOne(hash, all, inserted + {q0}, p, h) {
      if p < top { assert !IsOne(hash, all, inserted, p, h); }
    }
    if v != 0 { assert IsOne(hash, all, inserted, base + v, h); }
  }

  /** A later string makes no difference. */
  lemma LatestStays(hash: HashSpec, all: seq<byte>, base: nat, inserted: set<nat>, q0: nat, v: nat, h: nat, q: nat)
    requires q <= q0
    ensures IsLatest(hash, all, base, inserted + {q0}, v, h, q) == IsLatest(hash, all, base, inserted, v, h, q)
  {
    hide Key;
    forall p: nat | p < q ensures IsOne(hash, all, inserted + {q0}, p, h) == IsOne(hash, all, inserted, p, h) { }
  }

  lemma LinkStays(hash: HashSpec, all: seq<byte>, base: nat, inserted: set<nat>, q0: nat, v: nat, q: nat)
    requires LinkOk(hash, all, base, inserted, v, q) && q <= q0
    ensures LinkOk(hash, all, base, inserted + {q0}, v, q)
  {
    hide Key, IsLatest;
    LatestStays(hash, all, base, inserted, q0, v, Key(hash, all, q), q);
  }

  /** The new string is a head, and the old head of its chain is its link. */
  lemma NewHead(hash: HashSpec, all: seq<byte>, base: nat, inserted: set<nat>, top: nat, q0: nat, v: nat)
    requires base <= q0 && q0 + 2 < |all| && top <= q0 && forall q :: q in inserted ==> q < top
    requires IsLatest(hash, all, base, inserted, v, Key(hash, all, q0), top)
    ensures IsLatest(hash, all, base, inserted + {q0}, q0 - base, Key(hash, all, q0), q0 + 1) && LinkOk(hash, all, base, inserted + {q0}, v, q0)
    ensures IsLatest(hash, all, base, inserted, v, Key(hash, all, q0), q0)
  {
    hide Key;
    var h := Key(hash, all, q0);
    forall p | base + v < p < q0 ensures !IsOne(hash, all, inserted, p, h) && !IsOne(hash, all, inserted + {q0}, p, h) {
      if p < top { assert !IsOne(hash, all, inserted, p, h); }
    }
    assert IsOne(hash, all, inserted + {q0}, q0, h);
    if v != 0 { assert IsOne(hash, all, inserted, base + v, h); }
  }

  /** The head of a chain is the latest of its strings. */
  lemma HeadIs(hash: HashSpec, wSize: nat, head: seq<nat>, prev: seq<nat>, all: seq<byte>, base: nat, inserted: set<nat>, top: nat, h: nat)
    requires Chained(hash, wSize, head, prev, all, base, inserted, top) && h < |head|
    ensures IsLatest(hash, all, base, inserted, head[h], h, top) && |prev| == wSize > 0 && hash.Good()
    ensures forall q :: q in inserted ==> q < top
  {
    hide HashSpec.Size, HashSpec.Good, HashSpec.Of3, IsLatest;
  }

  function Slid(wSize: nat, m: nat): nat {
    if m >= wSize then m - wSize else 0
  }

  /** A string that falls out of the window, or to its position 0, ends the chain there. */
  lemma LatestSlides(hash: HashSpec, wSize: nat, all: seq<byte>, base: nat, inserted: set<nat>, v: nat, h: nat, q: nat)
    requires IsLatest(hash, all, base, inserted, v, h, q)
    ensures IsLatest(hash, all, base + wSize, inserted, Slid(wSize, v), h, q)
  {
    hide IsOne;
    if v >= wSize { assert base + wSize + (v - wSize) == base + v; }
  }

  /** slide_hash: every position moves down with the window; those that fall out end their chains. */
  lemma ChainedSlide(hash: HashSpec, wSize: nat, head: seq<nat>, prev: seq<nat>, head': seq<nat>, prev': seq<nat>, all: seq<byte>, base: nat, inserted: set<nat>, top: nat)
    requires Chained(hash, wSize, head, prev, all, base, inserted, top)
    requires |head'| == |head| && forall i :: 0 <= i < |head| ==> head'[i] == Slid(wSize, head[i])
    requires |prev'| == |prev| && forall i :: 0 <= i < |prev| ==> prev'[i] == Slid(wSize, prev[i])
    ensures Chained(hash, wSize, head', prev', all, base + wSize, inserted, top)
  {
    hide HashSpec.Size, HashSpec.Good, IsLatest, Slid;
    var base' := base + wSize;
    forall h | 0 <= h < |head'| ensures IsLatest(hash, all, base', inserted, head'[h], h, top) {
      LatestSlides(hash, wSize, all, base, inserted, head[h], h, top);
    }
    forall q | q in inserted && base' <= q && top <= q + wSize ensures LinkOk(hash, all, base', inserted, prev'[Slot(wSize, q - base')], q) {
      assert Slot(wSize, q - base) == Slot(wSize, q - base');
      var v := prev[Slot(wSize, q - base)];
      assert LinkOk(hash, all, base, inserted, v, q);
      LatestSlides(hash, wSize, all, base, inserted, v, Key(hash, all, q), q);
    }
  }

  class Dictionary {
    const hash: HashSpec
    const wSize: nat
    const head: array<nat>
    const prev: array<nat>
    var insH: nat
    ghost var inserted: set<nat>   // input positions of the strings inserted
    ghost var top: nat             // one past the latest of them

    constructor (hash: HashSpec, wSize: nat)
      requires hash.Good() && wSize > 0
      ensures Valid([], 0) && fresh(head) && fresh(prev) && top == 0 && this.wSize == wSize && this.hash == hash
    {
      hide HashSpec.Size;
      this.hash, this.wSize := hash, wSize;
      head, prev := new nat[hash.Size()](_ => 0), new nat[wSize](_ => 0);
      insH, inserted, top := 0, {}, 0;
    }

    ghost predicate Valid(all: seq<byte>, base: nat)
      reads this`inserted, this`top, head, prev
    {
      head != prev && Chained(hash, wSize, head[..], prev[..], all, base, inserted, top)
    }

    /** insH is ready for the string at input position q. */
    ghost predicate Primed(all: seq<byte>, q: nat)
      reads this`insH
    {
      q + 1 < |all| && hash.Primes(insH, all[q], all[q + 1])
    }

    /** The hash starts anew at two bytes. */
    method Restart(a: byte, b: byte, ghost all: seq<byte>, ghost q: nat)
      modifies this`insH
      ensures q + 1 < |all| && all[q] == a && all[q + 1] == b ==> Primed(all, q)
    {
      hide HashSpec.Update;
      insH := hash.Update(a, b);
    }

    /** Inserts the string at window position str, whose third byte is c. */
    method Insert(str: nat, c: byte, ghost all: seq<byte>, ghost base: nat) returns (matchHead: nat)
      requires Valid(all, base) && Primed(all, base + str) && base + str + 2 < |all| && all[base + str + 2] == c
      requires base + str >= top && str < 2 * wSize
      modifies this, head, prev
      ensures Valid(all, base) && Primed(all, base + str + 1) && top == base + str + 1 && base + str in inserted
      ensures IsLatest(hash, all, base, old(inserted), matchHead, Key(hash, all, base + str), base + str)
      ensures inserted == old(inserted) + {base + str}
    {
      hide HashSpec.Update, HashSpec.Of3, HashSpec.Good, HashSpec.Size, Chained, HashSpec.Primes, IsLatest;
      ghost var q := base + str;
      ghost var hd: seq<nat>, pv: seq<nat> := head[..], prev[..];
      ChainedInsert(hash, wSize, hd, pv, all, base, inserted, top, str);
      assert hash.Update(insH, c) == Key(hash, all, q) by { UsePrimes(all, q, c); }
      HeadIs(hash, wSize, hd, pv, all, base, inserted, top, Key(hash, all, q));
      NewHead(hash, all, base, inserted, top, q, hd[Key(hash, all, q)]);
      NowPrimes(all, q, c);
      insH := hash.Update(insH, c);
      matchHead := head[insH];
      prev[Slot(wSize, str)] := matchHead;
      head[insH] := str;
      inserted := inserted + {q};
      top := q + 1;
      assert head[..] == hd[insH := str] && prev[..] == pv[Slot(wSize, str) := hd[insH]];
    }

    lemma UsePrimes(all: seq<byte>, q: nat, c: byte)
      requires Primed(all, q) && q + 2 < |all| && all[q + 2] == c
      ensures hash.Update(insH, c) == Key(hash, all, q)
    {
      hide HashSpec.Update;
    }

    lemma NowPrimes(all: seq<byte>, q: nat, c: byte)
      requires hash.Good() && Primed(all, q) && q + 2 < |all| && all[q + 2] == c
      ensures hash.Primes(hash.Update(insH, c), all[q + 1], all[q + 2])
    {
      hide HashSpec.Update;
      hash.PrimesNext(insH, all[q], all[q + 1], c);
    }

    method SlideHash(ghost all: seq<byte>, ghost base: nat)
      requires Valid(all, base)
      modifies head, prev
      ensures Valid(all, base + wSize)
    {
      hide HashSpec.Size, HashSpec.Good, Chained;
      ghost var hd: seq<nat>, pv: seq<nat> := head[..], prev[..];
      SlideAll(head, wSize);
      assert prev[..] == pv;
      SlideAll(prev, wSize);
      ChainedSlide(hash, wSize, hd, pv, head[..], prev[..], all, base, inserted, top);
    }

    lemma InsertedBelow(all: seq<byte>, base: nat)
      requires Valid(all, base)
      ensures forall p :: p in inserted ==> p < top && p + 2 < |all|
    {
      hide HashSpec.Of3, HashSpec.Good, HashSpec.Size, IsLatest, LinkOk;
    }

    lemma MoreInput(all: seq<byte>, more: seq<byte>, base: nat)
      requires Valid(all, base)
      ensures Valid(all + more, base)
    {
      ChainedMore(hash, wSize, head[..], prev[..], all, more, base, inserted, top);
    }

    /** The string after q in its chain: the latest earlier one with the same hash, or the end of the chain. */
    method Next(pos: nat, ghost all: seq<byte>, ghost base: nat) returns (v: nat)
      requires Valid(all, base) && base + pos in inserted && top <= base + pos + wSize && pos < 2 * wSize
      ensures base + pos + 2 < |all| && IsLatest(hash, all, base, inserted, v, Key(hash, all, base + pos), base + pos)
    {
      hide HashSpec.Of3, HashSpec.Good, HashSpec.Size, IsLatest;
      assert LinkOk(hash, all, base, inserted, prev[..][Slot(wSize, base + pos - base)], base + pos);
      v := prev[Slot(wSize, pos)];
    }
  }

  method SlideAll(a: array<nat>, wSize: nat)
    modifies a
    ensures forall i :: 0 <= i < a.Length ==> a[i] == Slid(wSize, old(a[i]))
  {
    var n := a.Length;
    while n > 0
      invariant 0 <= n <= a.Length
      invariant forall i :: 0 <= i < n ==> a[i] == old(a[i])
      invariant forall i :: n <= i < a.Length ==> a[i] == Slid(wSize, old(a[i]))
    {
      n := n - 1;
      var m := a[n];
      a[n] := if m >= wSize then m - wSize else 0;
    }
  }
}
