/** Words of the SFMT generator in memory, and one step of the recurrence there. */
module SfmtMemory {
  import opened SfmtBits
  import opened SfmtRecurrence

  /** The k-th word of 32-bit cells. */
  function Word(a: seq<bv32>, k: nat): W128
    requires 4 * k + 4 <= |a|
  {
    W128(a[4 * k], a[4 * k + 1], a[4 * k + 2], a[4 * k + 3])
  }

  function Words(a: seq<bv32>, n: nat): (r: seq<W128>)
    requires |a| == 4 * n
    ensures |r| == n
  {
    seq<W128>(n, k requires 0 <= k < n && |a| == 4 * n => Word(a, k))
  }

  lemma WordsAt(a: seq<bv32>, n: nat, k: nat)
    requires |a| == 4 * n && k < n
    ensures Words(a, n)[k] == Word(a, k)
  {
  }

  lemma CellOf(a: seq<bv32>, i: nat)
    requires i < |a| && 4 * (i / 4) + 4 <= |a|
    ensures a[i] == Pick(Word(a, i / 4), i % 4)
  {
  }

  /** The first n lanes of word ri have been written. */
  ghost predicate Partway(was: seq<bv32>, now: seq<bv32>, ri: nat, v: W128, n: nat) {
    && |now| == |was| && 4 * ri + 4 <= |was| && n <= 4
    && forall i :: 0 <= i < |was| ==> now[i] == if 4 * ri <= i < 4 * ri + n then Pick(v, i - 4 * ri) else was[i]
  }

  /** Lane n of word k of x is what it was at the start. */
  ghost predicate Kept(x: array<bv32>, k: nat, w: W128, n: nat)
    reads x
    requires n < 4
  {
    4 * k + 4 <= x.Length && x[4 * k + n] == Pick(w, n)
  }

  lemma LaneKept(x: array<bv32>, k: nat, wasX: seq<bv32>, r: array<bv32>, was: seq<bv32>, ri: nat, v: W128, n: nat, m: nat)
    requires n <= m < 4 && 4 * k + 4 <= |wasX| && (if x == r then wasX == was && Partway(was, r[..], ri, v, n) else x[..] == wasX)
    requires x == r ==> k != ri || n <= m
    ensures Kept(x, k, Word(wasX, k), m)
  {
  }

  lemma AllWritten(was: seq<bv32>, now: seq<bv32>, ri: nat, v: W128)
    requires Partway(was, now, ri, v, 4)
    ensures Word(now, ri) == v
    ensures forall j {:trigger Word(now, j)} :: 0 <= j && 4 * j + 4 <= |now| && j != ri ==> Word(now, j) == Word(was, j)
  {
  }

  /** One lane of the result; b and d are not being written, a may be. */
  method WriteLane(r: array<bv32>, ri: nat, n: nat, a: array<bv32>, ai: nat, b: array<bv32>, bi: nat, d: array<bv32>, di: nat,
                   x: W128, y: W128, mask: bv32,
                   ghost was: seq<bv32>, ghost wasA: seq<bv32>, ghost wasB: seq<bv32>, ghost wasD: seq<bv32>, ghost v: W128)
    requires n < 4 && 4 * ri + 4 <= r.Length && 4 * ai + 4 <= a.Length && 4 * bi + 4 <= b.Length && 4 * di + 4 <= d.Length
    requires Partway(was, r[..], ri, v, n)
    requires if a == r then wasA == was else a[..] == wasA
    requires if b == r then wasB == was && ri != bi else b[..] == wasB
    requires if d == r then wasD == was && ri != di else d[..] == wasD
    requires |wasA| == a.Length && |wasB| == b.Length && |wasD| == d.Length
    requires Pick(v, n) == Lane(Pick(Word(wasA, ai), n), Pick(x, n), Pick(Word(wasB, bi), n), mask, Pick(y, n), Pick(Word(wasD, di), n))
    modifies r
    ensures Partway(was, r[..], ri, v, n + 1)
  {
    hide Lane, Partway, Word, Pick;
    LaneKept(a, ai, wasA, r, was, ri, v, n, n);
    LaneKept(b, bi, wasB, r, was, ri, v, n, n);
    LaneKept(d, di, wasD, r, was, ri, v, n, n);
    var value := Lane(a[4 * ai + n], Pick(x, n), b[4 * bi + n], mask, Pick(y, n), d[4 * di + n]);
    OneMoreLane(was, r[..], ri, v, n);
    r[4 * ri + n] := value;
  }

  lemma OneMoreLane(was: seq<bv32>, now: seq<bv32>, ri: nat, v: W128, n: nat)
    requires n < 4 && Partway(was, now, ri, v, n)
    ensures Partway(was, now[4 * ri + n := Pick(v, n)], ri, v, n + 1)
  {
  }

  /** Writes the next word of the recurrence over word ri of r, which may be the word a itself. */
  method DoRecursion(r: array<bv32>, ri: nat, a: array<bv32>, ai: nat, b: array<bv32>, bi: nat, c: array<bv32>, ci: nat, d: array<bv32>, di: nat)
    requires 4 * ri + 4 <= r.Length && 4 * ai + 4 <= a.Length && 4 * bi + 4 <= b.Length && 4 * ci + 4 <= c.Length && 4 * di + 4 <= d.Length
    requires (r == b ==> ri != bi) && (r == d ==> ri != di)
    modifies r
    ensures Word(r[..], ri) == old(Rec(Word(a[..], ai), Word(b[..], bi), Word(c[..], ci), Word(d[..], di)))
    ensures IsNext(Word(r[..], ri), old(Word(a[..], ai)), old(Word(b[..], bi)), old(Word(c[..], ci)), old(Word(d[..], di)))
    ensures forall j {:trigger Word(r[..], j)} :: 0 <= j && 4 * j + 4 <= r.Length && j != ri ==> Word(r[..], j) == old(Word(r[..], j))
  {
    hide Lane, Partway, LeftShift, RightShift, Word, IsNext;
    ghost var was, wasA, wasB, wasD := r[..], a[..], b[..], d[..];
    ghost var v := Rec(Word(wasA, ai), Word(wasB, bi), Word(c[..], ci), Word(wasD, di));
    var x, y := LeftShift(Word(a[..], ai)), RightShift(Word(c[..], ci));
    NothingWritten(was, ri, v);
    WriteLane(r, ri, 0, a, ai, b, bi, d, di, x, y, MSK1, was, wasA, wasB, wasD, v);
    WriteLane(r, ri, 1, a, ai, b, bi, d, di, x, y, MSK2, was, wasA, wasB, wasD, v);
    WriteLane(r, ri, 2, a, ai, b, bi, d, di, x, y, MSK3, was, wasA, wasB, wasD, v);
    WriteLane(r, ri, 3, a, ai, b, bi, d, di, x, y, MSK4, was, wasA, wasB, wasD, v);
    AllWritten(was, r[..], ri, v);
    RecIsNext(Word(wasA, ai), Word(wasB, bi), old(Word(c[..], ci)), Word(wasD, di));
  }

  lemma NothingWritten(was: seq<bv32>, ri: nat, v: W128)
    requires 4 * ri + 4 <= |was|
    ensures Partway(was, was, ri, v, 0)
  {
  }
}
