/** The SFMT generator: the recurrence in place, batch by batch, or in bulk into an array. */
module SfmtGenerator {
  import opened SfmtBits
  import opened SfmtMemory
  import opened SfmtPeriod
  import opened SfmtRecurrence
  import WordBits

  // ---------- Both layouts ----------

  /** Words i..j of memory are the sequence's, k places further on. */
  ghost predicate Has(a: seq<bv32>, i: nat, j: nat, s: seq<W128>, k: nat)
    requires |s| == N
  {
    4 * j <= |a| && forall m {:trigger Word(a, m)} :: i <= m < j ==> Word(a, m) == X(s, m + k)
  }

  lemma HasWord(a: seq<bv32>, i: nat, j: nat, s: seq<W128>, k: nat, m: nat)
    requires |s| == N && Has(a, i, j, s, k) && i <= m < j
    ensures 4 * m + 4 <= |a| && Word(a, m) == X(s, m + k)
  {
  }

  /** Only word i has changed. */
  ghost predicate OnlyWord(a: seq<bv32>, a': seq<bv32>, i: nat) {
    |a| == |a'| && forall j {:trigger Word(a', j)} :: 0 <= j && 4 * j + 4 <= |a| && j != i ==> Word(a', j) == Word(a, j)
  }

  lemma HasKept(a: seq<bv32>, a': seq<bv32>, w: nat, i: nat, j: nat, s: seq<W128>, k: nat)
    requires |s| == N && Has(a, i, j, s, k) && OnlyWord(a, a', w) && !(i <= w < j)
    ensures Has(a', i, j, s, k)
  {
    hide Word, X;
  }

  lemma HasMore(a: seq<bv32>, i: nat, j: nat, s: seq<W128>, k: nat)
    requires |s| == N && Has(a, i, j, s, k) && 4 * j + 4 <= |a| && Word(a, j) == X(s, j + k)
    ensures Has(a, i, j + 1, s, k)
  {
    hide Word, X;
  }

  lemma HasLess(a: seq<bv32>, i: nat, j: nat, s: seq<W128>, k: nat)
    requires |s| == N && Has(a, i, j, s, k)
    ensures Has(a, i + 1, j, s, k)
  {
    hide Word, X;
  }

  lemma HasNone(a: seq<bv32>, i: nat, s: seq<W128>, k: nat)
    requires |s| == N && 4 * i <= |a|
    ensures Has(a, i, i, s, k)
  {
  }

  lemma HasAll(a: seq<bv32>, s: seq<W128>)
    requires |a| == 4 * N && |s| == N && s == Words(a, N)
    ensures Has(a, 0, N, s, 0)
  {
  }

  lemma AllHas(a: seq<bv32>, s: seq<W128>, k: nat)
    requires |a| == 4 * N && |s| == N && Has(a, 0, N, s, k)
    ensures Words(a, N) == From(s, k)
  {
    hide X;
    forall m | 0 <= m < N ensures Words(a, N)[m] == From(s, k)[m] { HasWord(a, 0, N, s, k, m); }
  }

  lemma NextWord(s: seq<W128>, i: nat)
    requires |s| == N
    ensures X(s, N + i) == Rec(X(s, i), X(s, i + POS1), X(s, N + i - 2), X(s, N + i - 1))
  {
    hide Rec;
  }

  class Generator {
    const state: array<bv32>
    var idx: nat

    ghost predicate Valid()
      reads this
    {
      state.Length == 4 * N && idx <= 4 * N
    }

    ghost function Sequence(): (s: seq<W128>)
      requires Valid()
      reads this, state
      ensures |s| == N
    {
      Words(state[..], N)
    }

    constructor (seed: seq<bv32>)
      requires |seed| == 4 * N
      ensures Valid() && fresh(state) && state[..] == seed && idx == 4 * N
    {
      state := new bv32[4 * N](i requires 0 <= i < 4 * N => seed[i]);
      idx := 4 * N;
    }

    /** Puts the state on the long period: afterwards an odd number of the bits that the parity vector selects are set. */
    method PeriodCertification()
      requires Valid()
      modifies state
      ensures Certified(state[..4])
      ensures if old(Certified(state[..4])) then state[..] == old(state[..]) else
                exists i, j :: 0 <= i < 4 && 0 <= j < 32 && state[..] == old(state[..])[i := Sum(old(state[i]), Work(j))]
    {
      hide Certified, OddBits, Sum, Masked, Work, Twice, SingleOrNone, ClearBelow, Parity;
      var inner: bv32 := 0;
      for i := 0 to 4
        invariant inner == Selected(state[..4], i)
      {
        inner := Sum(inner, Masked(state[i], Parity()[i]));
      }
      inner := FoldDown(inner);
      OddOfSelected(state[..4], 4);
      OddIsCertified(state[..4]);
      if inner == 1 { return; }
      ghost var was := state[..];
      for i := 0 to 4
        invariant state[..] == was && forall m :: 0 <= m < i ==> Parity()[m] == 0
      {
        var work: bv32 := 1;
        WorkStart();
        FirstWork(Parity()[i]);
        for j := 0 to 32
          invariant work == Work(j) && state[..] == was && ClearBelow(Parity()[i], work)
        {
          if Masked(work, Parity()[i]) != 0 {
            FlippingCertifies(was[..4], i, j);
            state[i] := Sum(state[i], work);
            assert state[..] == was[i := Sum(was[i], Work(j))];
            assert state[..4] == was[..4][i := Sum(was[i], Work(j))];
            return;
          }
          WorkIsSingle(j);
          NotHere(Parity()[i], work);
          WorkStep(j + 1);
          work := Twice(work);
        }
        LastWork();
        Nowhere(Parity()[i]);
      }
      ParityIsNotZero();
      assert false;
    }

    /** The next batch, written over the last. */
    method GenRandAll()
      requires Valid()
      modifies state
      ensures Sequence() == From(old(Sequence()), N)
    {
      hide Has, Word, X, Words, Rec, OnlyWord;
      ghost var s := Sequence();
      var r1, r2 := N - 2, N - 1;
      HasAll(state[..], s);
      HasNone(state[..], 0, s, N);
      for i := 0 to N - POS1
        invariant r1 == (if i < 2 then N - 2 + i else i - 2) && r2 == (if i < 1 then N - 1 else i - 1)
        invariant Has(state[..], 0, i, s, N) && Has(state[..], i, N, s, 0)
      {
        InPlace(s, i, i + POS1, r1, r2);
        r1, r2 := r2, i;
      }
      for i := N - POS1 to N
        invariant r1 == i - 2 && r2 == i - 1
        invariant Has(state[..], 0, i, s, N) && Has(state[..], i, N, s, 0)
      {
        InPlace(s, i, i + POS1 - N, r1, r2);
        r1, r2 := r2, i;
      }
      AllHas(state[..], s, N);
    }

    method InPlace(ghost s: seq<W128>, i: nat, b: nat, r1: nat, r2: nat)
      requires Valid() && |s| == N && i < N && b == (if i + POS1 < N then i + POS1 else i + POS1 - N)
      requires r1 == (if i < 2 then N - 2 + i else i - 2) && r2 == (if i < 1 then N - 1 else i - 1)
      requires Has(state[..], 0, i, s, N) && Has(state[..], i, N, s, 0)
      modifies state
      ensures Has(state[..], 0, i + 1, s, N) && Has(state[..], i + 1, N, s, 0)
    {
      hide Has, Word, X, Words, Rec, OnlyWord;
      ghost var was := state[..];
      InPlaceOperands(was, s, i, b, r1, r2);
      DoRecursion(state, i, state, i, state, b, state, r1, state, r2);
      ChangedWord(was, state[..], i);
      HasKept(was, state[..], i, 0, i, s, N);
      HasMore(state[..], 0, i, s, N);
      HasLess(was, i, N, s, 0);
      HasKept(was, state[..], i, i + 1, N, s, 0);
    }

    /** `state[j] = array[k]` */
    method CopyWord(array_: array<bv32>, k: nat, j: nat)
      requires Valid() && j < N && 4 * k + 4 <= array_.Length && array_ != state
      modifies state
      ensures Word(state[..], j) == Word(array_[..], k) && OnlyWord(old(state[..]), state[..], j)
    {
      ghost var was, v := state[..], Word(array_[..], k);
      state[4 * j] := array_[4 * k];
      state[4 * j + 1] := array_[4 * k + 1];
      state[4 * j + 2] := array_[4 * k + 2];
      state[4 * j + 3] := array_[4 * k + 3];
      AllWritten(was, state[..], j, v);
    }

    /** One more word of the state, from the array. */
    method SaveWord(ghost s: seq<W128>, array_: array<bv32>, k: nat, j: nat, ghost size: nat)
      requires Valid() && |s| == N && j < N && 4 * k + 4 <= array_.Length && array_ != state && size >= N && k == j + size - N
      requires Has(state[..], 0, j, s, size) && Word(array_[..], k) == X(s, N + k)
      modifies state
      ensures Has(state[..], 0, j + 1, s, size)
    {
      hide Has, Word, X, OnlyWord;
      ghost var was := state[..];
      CopyWord(array_, k, j);
      HasKept(was, state[..], j, 0, j, s, size);
      HasMore(state[..], 0, j, s, size);
    }

    /** One more word of the array, from words of the state or of the array. */
    method BulkStep(ghost s: seq<W128>, array_: array<bv32>, i: nat, a: array<bv32>, ai: nat, b: array<bv32>, bi: nat, r1: array<bv32>, i1: nat, r2: array<bv32>, i2: nat)
      requires Valid() && |s| == N && array_ != state && 4 * i + 4 <= array_.Length
      requires Has(array_[..], 0, i, s, N)
      requires Operand(a, ai, array_, i, s, i) && Operand(b, bi, array_, i, s, i + POS1)
      requires Operand(r1, i1, array_, i, s, i + N - 2) && Operand(r2, i2, array_, i, s, i + N - 1)
      modifies array_
      ensures Has(array_[..], 0, i + 1, s, N) && Operand(array_, i, array_, i + 1, s, i + N) && Operand(r2, i2, array_, i + 1, s, i + N - 1)
    {
      hide Has, Word, X, OnlyWord, Rec;
      ghost var was := array_[..];
      NextWord(s, i);
      DoRecursion(array_, i, a, ai, b, bi, r1, i1, r2, i2);
      ChangedWord(was, array_[..], i);
      HasKept(was, array_[..], i, 0, i, s, N);
      HasMore(array_[..], 0, i, s, N);
    }

    /** Fills array_ with size words of the sequence, and leaves the last N of them in the state. */
    method GenRandArray(array_: array<bv32>, size: nat)
      requires Valid() && size >= N && array_.Length == 4 * size && array_ != state
      modifies state, array_
      ensures forall m {:trigger Word(array_[..], m)} :: 0 <= m < size ==> Word(array_[..], m) == X(old(Sequence()), N + m)
      ensures Sequence() == From(old(Sequence()), size)
    {
      hide Has, Word, X, Words, Operand, OnlyWord;
      ghost var s := Sequence();
      HasAll(state[..], s);
      HasNone(array_[..], 0, s, N);
      var r1, i1: nat, r2, i2: nat := state, N - 2, state, N - 1;
      StateOperand(state, array_, 0, s, N - 2);
      StateOperand(state, array_, 0, s, N - 1);
      var i: nat := 0;
      while i < N - POS1
        invariant i <= N - POS1 && Has(array_[..], 0, i, s, N) && Has(state[..], 0, N, s, 0)
        invariant Operand(r1, i1, array_, i, s, i + N - 2) && Operand(r2, i2, array_, i, s, i + N - 1)
        invariant (i >= 1 ==> r2 == array_) && (i >= 2 ==> r1 == array_)
        modifies array_
      {
        StateOperand(state, array_, i, s, i);
        StateOperand(state, array_, i, s, i + POS1);
        BulkStep(s, array_, i, state, i, state, i + POS1, r1, i1, r2, i2);
        r1, i1, r2, i2 := r2, i2, array_, i;
        i := i + 1;
      }
      while i < N
        invariant N - POS1 <= i <= N && Has(array_[..], 0, i, s, N) && Has(state[..], 0, N, s, 0)
        invariant Operand(r1, i1, array_, i, s, i + N - 2) && Operand(r2, i2, array_, i, s, i + N - 1)
        invariant (i >= 1 ==> r2 == array_) && (i >= 2 ==> r1 == array_)
        modifies array_
      {
        StateOperand(state, array_, i, s, i);
        ArrayOperand(array_, i, s, i + POS1 - N);
        BulkStep(s, array_, i, state, i, array_, i + POS1 - N, r1, i1, r2, i2);
        r1, i1, r2, i2 := r2, i2, array_, i;
        i := i + 1;
      }
      while i < size - N
        invariant N <= i && (i <= size - N || i == N) && Has(array_[..], 0, i, s, N)
        invariant Operand(r1, i1, array_, i, s, i + N - 2) && Operand(r2, i2, array_, i, s, i + N - 1)
        invariant (i >= 1 ==> r2 == array_) && (i >= 2 ==> r1 == array_)
        modifies array_
      {
        ArrayOperand(array_, i, s, i - N);
        ArrayOperand(array_, i, s, i + POS1 - N);
        BulkStep(s, array_, i, array_, i - N, array_, i + POS1 - N, r1, i1, r2, i2);
        r1, i1, r2, i2 := r2, i2, array_, i;
        i := i + 1;
      }
      var j: nat := 0;
      HasNone(state[..], 0, s, size);
      while j < 2 * N - size
        invariant (j <= 2 * N - size || j == 0) && Has(state[..], 0, j, s, size) && Has(array_[..], 0, i, s, N)
        modifies state
      {
        HasWord(array_[..], 0, i, s, N, j + size - N);
        SaveWord(s, array_, j + size - N, j, size);
        j := j + 1;
      }
      while i < size
        invariant i <= size && j == i - (size - N) && Has(array_[..], 0, i, s, N) && Has(state[..], 0, j, s, size)
        invariant Operand(r1, i1, array_, i, s, i + N - 2) && Operand(r2, i2, array_, i, s, i + N - 1)
        invariant (i >= 1 ==> r2 == array_) && (i >= 2 ==> r1 == array_)
      {
        ArrayOperand(array_, i, s, i - N);
        ArrayOperand(array_, i, s, i + POS1 - N);
        BulkStep(s, array_, i, array_, i - N, array_, i + POS1 - N, r1, i1, r2, i2);
        r1, i1, r2, i2 := r2, i2, array_, i;
        HasWord(array_[..], 0, i + 1, s, N, i);
        SaveWord(s, array_, i, j, size);
        i, j := i + 1, j + 1;
      }
      AllHas(state[..], s, size);
      forall m {:trigger Word(array_[..], m)} | 0 <= m < size ensures Word(array_[..], m) == X(s, N + m) { HasWord(array_[..], 0, size, s, N, m); }
    }

    // ---------- Output ----------

    /** The next number; a new batch is made when the last one has been used up. */
    method GenrandUint32() returns (r: bv32)
      requires Valid()
      modifies this, state
      ensures Valid() && r == old(Cell(Sequence(), idx))
      ensures SameStream(Sequence(), idx, old(Sequence()), old(idx) + 1)
    {
      hide Cell, Words, SameStream;
      ghost var s, at := Sequence(), idx;
      if idx >= 4 * N {
        GenRandAll();
        idx := 0;
      }
      BatchGoesOn(Sequence(), s, idx, at, 1);
      CellHere(state[..], idx);
      r := state[idx];
      idx := idx + 1;
    }

    /** Two numbers as one, the first lower. */
    method GenrandUint64() returns (r: bv64)
      requires Valid() && idx % 2 == 0
      modifies this, state
      ensures Valid() && r % 0x1_0000_0000 == old(Cell(Sequence(), idx)) as bv64
      ensures r / 0x1_0000_0000 == old(Cell(Sequence(), idx + 1)) as bv64
      ensures SameStream(Sequence(), idx, old(Sequence()), old(idx) + 2)
    {
      hide Cell, Words, Pair, SameStream;
      ghost var s, at := Sequence(), idx;
      if idx >= 4 * N {
        GenRandAll();
        idx := 0;
      }
      BatchGoesOn(Sequence(), s, idx, at, 2);
      BatchGoesOn(Sequence(), s, idx + 1, at + 1, 1);
      CellHere(state[..], idx);
      CellHere(state[..], idx + 1);
      r := Pair(state[idx], state[idx + 1]);
      PairParts(state[idx], state[idx + 1]);
      idx := idx + 2;
    }

    /** Fills array_ with the numbers that would have come one by one. */
    method FillArray32(array_: array<bv32>, size: nat)
      requires Valid() && idx == 4 * N && size % 4 == 0 && size >= 4 * N && array_.Length == size && array_ != state
      modifies this, state, array_
      ensures Valid() && idx == 4 * N
      ensures forall i :: 0 <= i < size ==> array_[i] == Cell(old(Sequence()), 4 * N + i)
      ensures SameStream(Sequence(), idx, old(Sequence()), old(idx) + size)
    {
      hide Cell, Words, X, Word, SameStream;
      ghost var s := Sequence();
      GenRandArray(array_, size / 4);
      idx := 4 * N;
      CellsGoOn(s, size / 4, 4 * N);
      forall i | 0 <= i < size ensures array_[i] == Cell(s, 4 * N + i) { BulkCell(array_[..], s, i); }
    }
  }

  lemma OddIsCertified(cells: seq<bv32>)
    requires |cells| == 4
    ensures Certified(cells) == OddlySelected(cells, 4)
  {
  }

  function Pair(low: bv32, high: bv32): bv64 { ((high as bv64) << 32) | (low as bv64) }

  lemma PairParts(low: bv32, high: bv32)
    ensures Pair(low, high) % 0x1_0000_0000 == low as bv64 && Pair(low, high) / 0x1_0000_0000 == high as bv64
  {
  }

  /** The k-th number from place i on. */
  function Nth(s: seq<W128>, i: nat, k: nat): bv32
    requires |s| == N
  {
    Cell(s, i + k)
  }

  /** From these places on, the two sequences give the same numbers for ever. */
  ghost predicate SameStream(s: seq<W128>, i: nat, t: seq<W128>, j: nat)
    requires |s| == |t| == N
  {
    forall k: nat :: Nth(s, i, k) == Nth(t, j, k)
  }

  lemma Later(s: seq<W128>, i: nat, t: seq<W128>, j: nat, n: nat)
    requires |s| == |t| == N && SameStream(s, i, t, j)
    ensures SameStream(s, i + n, t, j + n) && Cell(s, i) == Cell(t, j)
  {
    hide Cell;
    assert Nth(s, i, 0) == Nth(t, j, 0);
    var i', j' := i + n, j + n;
    forall k: nat ensures Nth(s, i', k) == Nth(t, j', k) {
      assert Nth(s, i, n + k) == Nth(t, j, n + k);
    }
  }

  lemma Through(s: seq<W128>, i: nat, t: seq<W128>, j: nat, u: seq<W128>, k: nat)
    requires |s| == |t| == |u| == N && SameStream(s, i, t, j) && SameStream(t, j, u, k)
    ensures SameStream(s, i, u, k) && SameStream(t, j, s, i)
  {
    hide Cell;
  }

  /** Taking n numbers one by one. */
  method TakeSingly(g: Generator, n: nat) returns (r: seq<bv32>)
    requires g.Valid()
    modifies g, g.state
    ensures g.Valid() && |r| == n && forall i :: 0 <= i < n ==> r[i] == Cell(old(g.Sequence()), old(g.idx) + i)
    ensures SameStream(g.Sequence(), g.idx, old(g.Sequence()), old(g.idx) + n)
  {
    hide Cell, Words, SameStream;
    r := [];
    ghost var s, p := g.Sequence(), g.idx;
    Itself(s, p);
    for m := 0 to n
      invariant g.Valid() && |r| == m && forall i :: 0 <= i < m ==> r[i] == Cell(s, p + i)
      invariant SameStream(g.Sequence(), g.idx, s, p + m)
    {
      ghost var t, q := g.Sequence(), g.idx;
      var x := g.GenrandUint32();
      Later(t, q, s, p + m, 1);
      Through(g.Sequence(), g.idx, t, q + 1, s, p + m + 1);
      r := r + [x];
    }
  }

  lemma Itself(s: seq<W128>, i: nat)
    requires |s| == N
    ensures SameStream(s, i, s, i)
  {
  }

  /** Bulk generation and numbers taken singly agree, and so does everything that comes after. */
  method BulkIsSingly(g: Generator, h: Generator, array_: array<bv32>) returns (singly: seq<bv32>)
    requires g.Valid() && h.Valid() && g.state[..] == h.state[..] && g.idx == h.idx == 4 * N
    requires g != h && g.state != h.state && array_ != g.state && array_ != h.state
    requires array_.Length % 4 == 0 && array_.Length >= 4 * N
    modifies g, g.state, h, h.state, array_
    ensures g.Valid() && h.Valid() && array_[..] == singly
    ensures SameStream(g.Sequence(), g.idx, h.Sequence(), h.idx)
  {
    hide Cell, Words, SameStream;
    ghost var s, n := g.Sequence(), array_.Length;
    g.FillArray32(array_, array_.Length);
    singly := TakeSingly(h, array_.Length);
    Itself(s, 4 * N + n);
    Through(h.Sequence(), h.idx, s, 4 * N + n, s, 4 * N + n);
    Through(g.Sequence(), g.idx, s, 4 * N + n, h.Sequence(), h.idx);
  }

  /** The numbers after m words of the sequence. */
  lemma CellsGoOn(s: seq<W128>, m: nat, i: nat)
    requires |s| == N
    ensures SameStream(From(s, m), i, s, 4 * m + i)
  {
    hide X, From, Pick;
    forall k: nat ensures Nth(From(s, m), i, k) == Nth(s, 4 * m + i, k) {
      GoesOn(s, m, (i + k) / 4);
      Quarter(m, i + k);
    }
  }

  /** A new batch, or the same one, goes on where the last one stopped. */
  lemma BatchGoesOn(t: seq<W128>, s: seq<W128>, i: nat, at: nat, n: nat)
    requires |s| == N && ((t == s && i == at) || (t == From(s, N) && i + 4 * N == at))
    ensures SameStream(t, i + n, s, at + n) && Cell(t, i) == Cell(s, at)
  {
    hide Cell, From;
    if t == s && i == at { Itself(s, at); } else { CellsGoOn(s, N, i); }
    Later(t, i, s, at, n);
  }

  lemma Quarter(m: nat, k: nat)
    ensures (4 * m + k) / 4 == m + k / 4 && (4 * m + k) % 4 == k % 4
  {
  }

  /** A number of the current batch. */
  lemma CellHere(a: seq<bv32>, i: nat)
    requires |a| == 4 * N && i < 4 * N
    ensures a[i] == Cell(Words(a, N), i)
  {
    hide Word, Pick;
    CellOf(a, i);
    WordsAt(a, N, i / 4);
    assert X(Words(a, N), i / 4) == Words(a, N)[i / 4];
  }

  lemma BulkCell(a: seq<bv32>, s: seq<W128>, i: nat)
    requires |s| == N && |a| % 4 == 0 && i < |a| && forall m {:trigger Word(a, m)} :: 0 <= m < |a| / 4 ==> Word(a, m) == X(s, N + m)
    ensures a[i] == Cell(s, 4 * N + i)
  {
    hide Word, Pick, X;
    CellOf(a, i);
    Quarter(N, i);
    assert Word(a, i / 4) == X(s, N + i / 4);
  }

  /** Word k of x is the sequence's at place p, and is not word i of the array, which is to be written. */
  ghost predicate Operand(x: array<bv32>, k: nat, array_: array<bv32>, i: nat, s: seq<W128>, p: nat)
    requires |s| == N
    reads x
  {
    4 * k + 4 <= x.Length && Word(x[..], k) == X(s, p) && (x == array_ ==> k < i)
  }

  lemma StateOperand(state: array<bv32>, array_: array<bv32>, i: nat, s: seq<W128>, k: nat)
    requires |s| == N && k < N && Has(state[..], 0, N, s, 0) && state != array_
    ensures Operand(state, k, array_, i, s, k)
  {
    hide Word, X;
    HasWord(state[..], 0, N, s, 0, k);
  }

  lemma ArrayOperand(array_: array<bv32>, i: nat, s: seq<W128>, k: nat)
    requires |s| == N && k < i && Has(array_[..], 0, i, s, N)
    ensures Operand(array_, k, array_, i, s, k + N)
  {
    hide Word, X;
    HasWord(array_[..], 0, i, s, N, k);
  }

  function Cell(s: seq<W128>, k: nat): bv32
    requires |s| == N
  {
    Pick(X(s, k / 4), k % 4)
  }

  /** Number k of a sequence is lane k % 4 of its word k / 4. */
  lemma CellBit(s: seq<W128>, k: nat, n: nat)
    requires |s| == N && n < 32
    ensures WordBits.BitOf(Cell(s, k), n) == BitAt(X(s, k / 4), 32 * (k % 4) + n)
  {
    hide X, Pick, BitAt, WordBits.BitOf;
    BitOfLane(X(s, k / 4), k % 4, n);
  }

  lemma ChangedWord(a: seq<bv32>, a': seq<bv32>, i: nat)
    requires |a| == |a'| && forall j {:trigger Word(a', j)} :: 0 <= j && 4 * j + 4 <= |a'| && j != i ==> Word(a', j) == Word(a, j)
    ensures OnlyWord(a, a', i)
  {
  }

  lemma InPlaceOperands(a: seq<bv32>, s: seq<W128>, i: nat, b: nat, r1: nat, r2: nat)
    requires |s| == N && |a| == 4 * N && i < N && b == (if i + POS1 < N then i + POS1 else i + POS1 - N)
    requires r1 == (if i < 2 then N - 2 + i else i - 2) && r2 == (if i < 1 then N - 1 else i - 1)
    requires Has(a, 0, i, s, N) && Has(a, i, N, s, 0)
    ensures Rec(Word(a, i), Word(a, b), Word(a, r1), Word(a, r2)) == X(s, i + N)
  {
    hide Has, Word, X, Rec;
    NextWord(s, i);
    HasWord(a, i, N, s, 0, i);
    if i + POS1 < N { HasWord(a, i, N, s, 0, b); } else { HasWord(a, 0, i, s, N, b); }
    if i < 2 { HasWord(a, i, N, s, 0, r1); } else { HasWord(a, 0, i, s, N, r1); }
    if i < 1 { HasWord(a, i, N, s, 0, r2); } else { HasWord(a, 0, i, s, N, r2); }
  }
}
