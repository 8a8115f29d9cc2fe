/** Where the decompressor collects a block's last column, with a count of every byte. */
module ColumnStore {
  import opened Words
  import opened RunCoding
  import opened BurrowsWheeler

  lemma {:induction false} CountAppend(l: seq<byte>, t: seq<byte>, c: int, m: nat)
    requires m <= |l|
    ensures Count(l + t, c, m) == Count(l, c, m)
  {
    if m > 0 { CountAppend(l, t, c, m - 1); }
  }

  lemma CountOne(l: seq<byte>, b: byte, c: int)
    ensures Count(l + [b], c, |l| + 1) == Count(l, c, |l|) + if b == c then 1 else 0
  {
    CountAppend(l, [b], c, |l|);
  }

  lemma {:induction false} CountRun(l: seq<byte>, b: byte, n: nat, c: int)
    ensures Count(l + Repeat(b, n), c, |l| + n) == Count(l, c, |l|) + if b == c then n else 0
  {
    if n == 0 {
      assert l + Repeat(b, 0) == l;
    } else {
      CountRun(l, b, n - 1, c);
      assert l + Repeat(b, n) == (l + Repeat(b, n - 1)) + [b];
      CountOne(l + Repeat(b, n - 1), b, c);
    }
  }

  class Store {
    const tt: array<u32>
    const unzftab: array<int>
    const nblockMAX: nat
    var nblock: nat
    ghost var column: seq<byte>

    constructor (blockSize100k: nat)
      ensures Valid() && nblock == 0 && column == [] && nblockMAX == tt.Length == 100_000 * blockSize100k
      ensures fresh(tt) && fresh(unzftab)
    {
      nblockMAX := 100_000 * blockSize100k;
      tt, unzftab := new u32[100_000 * blockSize100k], new int[256](_ => 0);
      nblock, column := 0, [];
    }

    ghost predicate Stored()
      reads this, tt
    {
      && nblock == |column| <= nblockMAX <= tt.Length && unzftab.Length == 256 && tt as object != unzftab
      && forall i :: 0 <= i < nblock ==> tt[i] == column[i]
    }

    ghost predicate Counted(l: seq<byte>)
      reads unzftab
    {
      unzftab.Length == 256 && forall c :: 0 <= c < 256 ==> unzftab[c] == Count(l, c, |l|)
    }

    ghost predicate Valid()
      reads this, tt, unzftab
    {
      Stored() && Counted(column)
    }

    /** Adds one byte; fails when the block is full. */
    method StoreByte(uc: byte) returns (ok: bool)
      requires Valid()
      modifies this, tt, unzftab
      ensures Valid()
      ensures ok <==> old(nblock) < nblockMAX
      ensures column == old(column) + if ok then [uc] else []
    {
      if nblock >= nblockMAX { return false; }
      forall c ensures Count(column + [uc], c, |column| + 1) == Count(column, c, |column|) + if uc == c then 1 else 0 { CountOne(column, uc, c); }
      unzftab[uc] := unzftab[uc] + 1;
      tt[nblock] := uc;
      nblock := nblock + 1;
      column := column + [uc];
      ok := true;
    }

    /** Adds a run of es equal bytes; fails when the block is full before its end. */
    method StoreRun(uc: byte, es0: nat) returns (ok: bool)
      requires Valid()
      modifies this, tt, unzftab
      ensures ok <==> old(nblock) + es0 <= nblockMAX
      ensures ok ==> Valid() && column == old(column) + Repeat(uc, es0)
    {
      hide Count;
      var es := es0;
      ghost var l := column + Repeat(uc, es);
      forall c ensures Count(l, c, |l|) == Count(column, c, |column|) + if uc == c then es else 0 { CountRun(column, uc, es, c); }
      unzftab[uc] := unzftab[uc] + es;
      while es > 0
        invariant Stored() && Counted(l)
        invariant 0 <= es <= es0 && nblock == old(nblock) + (es0 - es) && column == old(column) + Repeat(uc, es0 - es)
      {
        if nblock >= nblockMAX { return false; }
        tt[nblock] := uc;
        nblock := nblock + 1;
        column := column + [uc];
        es := es - 1;
        assert column == old(column) + Repeat(uc, es0 - es);
      }
      assert es == 0 && column == l;
      ok := true;
    }
  }
}
