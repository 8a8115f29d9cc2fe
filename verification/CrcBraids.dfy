/** The braided calculation: five interleaved streams of eight-byte words. */
module CrcBraids {
  import opened CrcPolynomials
  import opened CrcTables

  const N := 5
  const W := 8

  // ---------- Eight bytes in a word ----------

  function Zext(c: bv32): bv64 { c as bv64 }

  function Low32(d: bv64): bv32 { (d & 0xffff_ffff) as bv32 }

  function Xor64(a: bv64, b: bv64): bv64 { a ^ b }

  function Right64(w: bv64): bv64 { w >> 8 }

  function Byte64(w: bv64): bv8 { (w & 0xff) as bv8 }

  /** `w >> (8 * k)` */
  function Tail(w: bv64, k: nat): bv64 {
    if k == 0 then w else Right64(Tail(w, k - 1))
  }

  /** The first k bytes of a word in memory order. */
  function Bytes(w: bv64, k: nat): (s: seq<bv8>)
    ensures |s| == k
  {
    if k == 0 then [] else Bytes(w, k - 1) + [Byte64(Tail(w, k - 1))]
  }

  /** The register after a whole word, started from zero. */
  function WordRegister(w: bv64): bv32 {
    Register(0, Bytes(w, W))
  }

  lemma TailEnds(w: bv64)
    ensures Tail(w, 8) == 0
  {
    hide Right64;
    assert Tail(w, 1) == Right64(w) && Tail(w, 2) == Right64(Tail(w, 1));
    assert Tail(w, 3) == Right64(Tail(w, 2)) && Tail(w, 4) == Right64(Tail(w, 3));
    assert Tail(w, 5) == Right64(Tail(w, 4)) && Tail(w, 6) == Right64(Tail(w, 5));
    assert Tail(w, 7) == Right64(Tail(w, 6)) && Tail(w, 8) == Right64(Tail(w, 7));
    AllShiftedOut(w);
  }

  lemma AllShiftedOut(w: bv64)
    ensures Right64(Right64(Right64(Right64(Right64(Right64(Right64(Right64(w)))))))) == 0
  {
  }

  lemma ZextShift(c: bv32, r: bv64)
    ensures Right64(Xor64(Zext(c), r)) == Xor64(Zext(Right8(c)), Right64(r))
  {
  }

  lemma ZextByte(c: bv32, r: bv64)
    ensures Byte64(Xor64(Zext(c), r)) == LowByte(Add(c, Widen(Byte64(r))))
  {
  }

  lemma ZextAdd(c: bv32, e: bv32, r: bv64)
    ensures Xor64(Xor64(Zext(c), r), Zext(e)) == Xor64(Zext(Add(c, e)), r)
  {
    hide Xor64, Zext, Add;
    ZextOfSum(c, e);
    Xor64Laws(Zext(c), r, Zext(e));
    Xor64Laws(Zext(c), Zext(e), r);
    Xor64Laws(r, Zext(e), r);
  }

  lemma ZextOfSum(c: bv32, e: bv32)
    ensures Zext(Add(c, e)) == Xor64(Zext(c), Zext(e))
  {
  }

  lemma Xor64Laws(a: bv64, b: bv64, c: bv64)
    ensures Xor64(a, b) == Xor64(b, a) && Xor64(Xor64(a, b), c) == Xor64(a, Xor64(b, c))
  {
  }

  lemma XorZero64(c: bv32, w: bv64)
    ensures Xor64(Zext(c), 0) == Zext(c) && Xor64(0, w) == w && Zext(0) == 0 && Low32(Zext(c)) == c
    ensures Xor64(w, 0) == w
  {
  }

  /** `data = (data >> 8) ^ crc_table[data & 0xff]`, eight times */
  method CrcWord(table: array<bv32>, data0: bv64, ghost c: bv32, ghost w: bv64) returns (r: bv32)
    requires IsCrcTable(table[..])
    ensures data0 == Xor64(Zext(c), w) ==> r == Register(c, Bytes(w, W))
    ensures r == WordRegister(data0)
  {
    hide Zext, Low32, Xor64, Right64, Byte64, ShiftUp, Entry, Tail, Register;
    var data := data0;
    NoBytes(c, w);
    NoBytes(0, data0);
    XorZero64(0, data0);
    for k := 0 to W
      invariant data0 == Xor64(Zext(c), w) ==> data == Xor64(Zext(Register(c, Bytes(w, k))), Tail(w, k))
      invariant data == Xor64(Zext(Register(0, Bytes(data0, k))), Tail(data0, k))
    {
      OneByte(Register(c, Bytes(w, k)), w, k, c);
      OneByte(Register(0, Bytes(data0, k)), data0, k, 0);
      EntryOf(Byte64(data));
      data := Xor64(Right64(data), Zext(table[Byte64(data) as int]));
    }
    TailEnds(w);
    TailEnds(data0);
    XorZero64(Register(c, Bytes(w, W)), 0);
    XorZero64(Register(0, Bytes(data0, W)), 0);
    r := Low32(data);
  }

  lemma NoBytes(c: bv32, w: bv64)
    ensures Register(c, Bytes(w, 0)) == c && Tail(w, 0) == w
  {
  }

  lemma OneByte(c: bv32, w: bv64, k: nat, c0: bv32)
    requires c == Register(c0, Bytes(w, k))
    ensures var data := Xor64(Zext(c), Tail(w, k));
            Xor64(Right64(data), Zext(ShiftUp(Widen(Byte64(data)), 8))) == Xor64(Zext(Register(c0, Bytes(w, k + 1))), Tail(w, k + 1))
  {
    hide Zext, Low32, Xor64, Right64, Byte64, ShiftUp, Add, Widen, LowByte, Right8;
    var b, r := Byte64(Tail(w, k)), Tail(w, k);
    var v := Add(c, Widen(b));
    RegisterAppend(c0, Bytes(w, k), b);
    LookUp(v);
    DroppedByte(c, b);
    ZextShift(c, r);
    ZextByte(c, r);
    ZextAdd(Right8(c), ShiftUp(Widen(LowByte(v)), 8), Right64(r));
  }

  /** Starting from c is adding c to the first bytes of the word. */
  lemma StartInWord(c: bv32, w: bv64)
    ensures Register(c, Bytes(w, W)) == WordRegister(Xor64(Zext(c), w))
  {
    hide Zext, Low32, Xor64, Right64, Byte64, ShiftUp, Tail, Register;
    var x := Xor64(Zext(c), w);
    NoBytes(c, w);
    NoBytes(0, x);
    XorZero64(0, x);
    SameData(c, w, 8);
    TailEnds(w);
    TailEnds(x);
    XorZero64(Register(c, Bytes(w, W)), 0);
    XorZero64(Register(0, Bytes(x, W)), 0);
  }

  lemma {:induction false} SameData(c: bv32, w: bv64, k: nat)
    ensures Xor64(Zext(Register(c, Bytes(w, k))), Tail(w, k)) ==
            Xor64(Zext(Register(0, Bytes(Xor64(Zext(c), w), k))), Tail(Xor64(Zext(c), w), k))
  {
    hide Zext, Low32, Xor64, Right64, Byte64, ShiftUp, Tail, Register;
    var x := Xor64(Zext(c), w);
    if k == 0 {
      NoBytes(c, w);
      NoBytes(0, x);
      XorZero64(0, x);
    } else {
      SameData(c, w, k - 1);
      OneByte(Register(c, Bytes(w, k - 1)), w, k - 1, c);
      OneByte(Register(0, Bytes(x, k - 1)), x, k - 1, 0);
    }
  }

  lemma WordAdds(c: bv32, w: bv64)
    ensures WordRegister(Xor64(Zext(c), w)) == Add(WordRegister(w), ShiftUp(c, 64))
  {
    hide Zext, Xor64, ShiftUp, Add, Bytes, Register;
    StartInWord(c, w);
    AddLaws(0, c, 0);
    RegisterAdds(0, c, Bytes(w, W));
    AddLaws(c, 0, 0);
  }

  // ---------- Streams of words ----------

  /** The register after one more word, given that word's own register. */
  function NextWord(c: bv32, g: bv32): bv32 {
    Add(g, ShiftUp(c, 64))
  }

  /** The register after words with these registers. */
  function Run(c: bv32, gs: seq<bv32>): bv32 {
    if gs == [] then c else NextWord(Run(c, gs[..|gs| - 1]), gs[|gs| - 1])
  }

  lemma {:induction false} RunConcat(c: bv32, s: seq<bv32>, t: seq<bv32>)
    ensures Run(c, s + t) == Run(Run(c, s), t)
  {
    hide NextWord;
    if t == [] {
      assert s + t == s;
    } else {
      var n := |t| - 1;
      RunConcat(c, s, t[..n]);
      assert (s + t)[..|s + t| - 1] == s + t[..n];
    }
  }

  lemma NextWordAdds(c: bv32, d: bv32, g: bv32, h: bv32)
    ensures NextWord(Add(c, d), Add(g, h)) == Add(NextWord(c, g), NextWord(d, h))
  {
    hide Add, ShiftUp;
    ShiftUpAdds(c, d, 64);
    AddSwap(g, h, ShiftUp(c, 64), ShiftUp(d, 64));
  }

  function Sums(gs: seq<bv32>, hs: seq<bv32>): (r: seq<bv32>)
    requires |gs| == |hs|
    ensures |r| == |gs|
  {
    seq<bv32>(|gs|, i requires 0 <= i < |gs| && i < |hs| => Add(gs[i], hs[i]))
  }

  lemma {:induction false} RunAdds(c: bv32, d: bv32, gs: seq<bv32>, hs: seq<bv32>)
    requires |gs| == |hs|
    ensures Run(Add(c, d), Sums(gs, hs)) == Add(Run(c, gs), Run(d, hs))
  {
    hide Add, NextWord;
    if gs != [] {
      var n := |gs| - 1;
      RunAdds(c, d, gs[..n], hs[..n]);
      assert Sums(gs, hs)[..n] == Sums(gs[..n], hs[..n]);
      NextWordAdds(Run(c, gs[..n]), Run(d, hs[..n]), gs[n], hs[n]);
    }
  }

  function ShiftAll(gs: seq<bv32>, n: nat): (r: seq<bv32>)
    ensures |r| == |gs|
  {
    seq<bv32>(|gs|, i requires 0 <= i < |gs| => ShiftUp(gs[i], n))
  }

  lemma {:induction false} RunShifts(c: bv32, gs: seq<bv32>, n: nat)
    ensures Run(ShiftUp(c, n), ShiftAll(gs, n)) == ShiftUp(Run(c, gs), n)
  {
    hide Add, ShiftUp;
    if gs != [] {
      var m := |gs| - 1;
      RunShifts(c, gs[..m], n);
      assert ShiftAll(gs, n)[..m] == ShiftAll(gs[..m], n);
      var r := Run(c, gs[..m]);
      ShiftUpAdds(gs[m], ShiftUp(r, 64), n);
      ShiftUpTwice(r, 64, n);
      ShiftUpTwice(r, n, 64);
    }
  }

  function Zeros(n: nat): (r: seq<bv32>)
    ensures |r| == n
  {
    seq<bv32>(n, i => 0)
  }

  lemma {:induction false} RunZeros(c: bv32, n: nat)
    ensures Run(c, Zeros(n)) == ShiftUp(c, 64 * n)
  {
    hide Add, ShiftUp;
    if n == 0 {
      NoShift(c);
    } else {
      RunZeros(c, n - 1);
      assert Zeros(n)[..n - 1] == Zeros(n - 1);
      ShiftUpTwice(c, 64 * (n - 1), 64);
      AddLaws(ShiftUp(c, 64 * n), 0, 0);
    }
  }

  /** What a register adds to the end of a run. */
  lemma RunFrom(c: bv32, gs: seq<bv32>)
    ensures Run(c, gs) == Add(Run(0, gs), ShiftUp(c, 64 * |gs|))
  {
    hide Add, ShiftUp, Run;
    AddLaws(0, c, 0);
    RunAdds(0, c, gs, Zeros(|gs|));
    assert Sums(gs, Zeros(|gs|)) == gs by {
      forall i | 0 <= i < |gs| ensures Sums(gs, Zeros(|gs|))[i] == gs[i] { AddLaws(gs[i], 0, 0); }
    }
    RunZeros(c, |gs|);
    AddLaws(c, 0, 0);
  }

  /** Each word's register may be carried over the next block of n words and added into the word it meets there. */
  lemma CarryOver(gs: seq<bv32>, hs: seq<bv32>)
    requires |gs| == |hs|
    ensures Run(0, gs + hs) == Run(0, Sums(hs, ShiftAll(gs, 64 * |gs|)))
  {
    hide Add, ShiftUp, Run;
    var n := |gs|;
    RunConcat(0, gs, hs);
    RunFrom(Run(0, gs), hs);
    RunShifts(0, gs, 64 * n);
    RunAdds(0, 0, hs, ShiftAll(gs, 64 * n));
    AddLaws(0, 0, 0);
    ZeroShift(64 * n);
  }

  lemma {:induction false} ZeroShift(n: nat)
    ensures ShiftUp(0, n) == 0
  {
    TimesXZero();
    if n > 0 { ZeroShift(n - 1); }
  }
}
