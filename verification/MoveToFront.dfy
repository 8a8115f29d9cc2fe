/** Move-to-front coding of the last column, with zero runs in bijective base two. */
module MoveToFront {
  import opened Words
  import opened RunCoding

  const RUNA := 0
  const RUNB := 1

  /** The list with entry k brought to the front. */
  function ToFront<T>(list: seq<T>, k: nat): (r: seq<T>)
    requires k < |list|
    ensures |r| == |list| && r[0] == list[k]
    ensures forall i :: 1 <= i <= k ==> r[i] == list[i - 1]
    ensures forall i :: k < i < |list| ==> r[i] == list[i]
  {
    [list[k]] + list[..k] + list[k + 1..]
  }

  /** The digits of a run of z + 1 zeros, lowest first: RUNA counts once, RUNB twice its place. */
  function RunDigits(z: nat): (r: seq<nat>)
    ensures 1 <= |r| <= z + 1
    ensures forall i :: 0 <= i < |r| ==> r[i] == RUNA || r[i] == RUNB
  {
    [if z % 2 == 1 then RUNB else RUNA] + if z < 2 then [] else RunDigits((z - 2) / 2)
  }

  /**
   * A flat reading of the symbols: the list, the bytes delivered, and a zero run that has been
   * read but not delivered, with the place value of its next digit.
   */
  datatype Flat = Flat(list: seq<byte>, out: seq<byte>, run: nat, place: nat) {
    /** Delivers the pending run. */
    function Flush(): Flat
      requires list != []
    {
      Flat(list, out + Repeat(list[0], run), 0, 1)
    }
  }

  /** Reads one symbol: a run digit, or a list position plus one. */
  function Step(st: Flat, sym: nat): Flat
    requires st.list != []
  {
    if sym == RUNA then st.(run := st.run + st.place, place := 2 * st.place)
    else if sym == RUNB then st.(run := st.run + 2 * st.place, place := 2 * st.place)
    else if sym - 1 < |st.list| then
      var f := st.Flush();
      Flat(ToFront(f.list, sym - 1), f.out + [f.list[sym - 1]], 0, 1)
    else st
  }

  /** Reads symbols from the left. */
  function Read(st: Flat, syms: seq<nat>): (r: Flat)
    requires st.list != []
    ensures |r.list| == |st.list|
  {
    if syms == [] then st else Step(Read(st, syms[..|syms| - 1]), syms[|syms| - 1])
  }

  lemma ReadOne(st: Flat, syms: seq<nat>, sym: nat)
    requires st.list != []
    ensures Read(st, syms + [sym]) == Step(Read(st, syms), sym)
  {
    assert (syms + [sym])[..|syms|] == syms;
  }

  lemma {:induction false} ReadAppend(st: Flat, s: seq<nat>, t: seq<nat>)
    requires st.list != []
    ensures Read(st, s + t) == Read(Read(st, s), t)
  {
    if t == [] {
      assert s + t == s;
    } else {
      var n := |t| - 1;
      ReadAppend(st, s, t[..n]);
      assert (s + t)[..|s + t| - 1] == s + t[..n];
    }
  }

  /** The digits of a run read as its length. */
  lemma {:induction false} ReadDigits(st: Flat, z: nat)
    requires st.list != [] && st.place > 0
    ensures Read(st, RunDigits(z)).list == st.list && Read(st, RunDigits(z)).out == st.out
    ensures Read(st, RunDigits(z)).run == st.run + (z + 1) * st.place
    decreases z
  {
    hide Read;
    var d := if z % 2 == 1 then RUNB else RUNA;
    var st1 := Step(st, d);
    assert Read(st, [d]) == st1 by { ReadSingle(st, d); }
    if z < 2 {
      assert RunDigits(z) == [d];
      assert z == 0 || z == 1;
    } else {
      var rest := RunDigits((z - 2) / 2);
      ReadAppend(st, [d], rest);
      ReadDigits(st1, (z - 2) / 2);
      DigitSum(z, st.place);
    }
  }

  lemma ReadSingle(st: Flat, sym: nat)
    requires st.list != []
    ensures Read(st, [sym]) == Step(st, sym)
  {
    assert [] + [sym] == [sym];
    ReadOne(st, [], sym);
  }

  lemma DigitSum(z: nat, place: nat)
    requires z >= 2
    ensures (1 + z % 2) * place + ((z - 2) / 2 + 1) * (2 * place) == (z + 1) * place
  {
    var h := (z - 2) / 2;
    assert z + 1 == 1 + z % 2 + 2 * (h + 1);
  }

  /** The list the coder starts from. */
  function Identity(): (r: seq<byte>)
    ensures |r| == 256 && forall i :: 0 <= i < 256 ==> r[i] == i
  {
    seq<byte>(256, i requires 0 <= i < 256 => i)
  }

  function Start(): Flat {
    Flat(Identity(), [], 0, 1)
  }

  /** What a symbol sequence without its end mark stands for, as list ranks. */
  function Decoded(syms: seq<nat>): seq<byte> {
    Read(Start(), syms).Flush().out
  }
}
