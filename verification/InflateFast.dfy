/** The fast decoding loop of inflate: no check of input or output inside an iteration. */
module InflateFast {
  import opened Words
  import opened Powers
  import opened Accumulator
  import opened Lz77
  import opened InflateWindow
  import opened InflateCodes
  import opened InflateCopy
  import opened Sequences

  datatype Mode = LEN | TYPE | BAD

  // ---------- Bits ----------

  /** `hold += (unsigned long)(*in++) << bits; bits += 8;` The accumulator stays within 32 bits. */
  method PullByte(input: seq<byte>, ghost u: nat, hold0: nat, bits0: nat, in0: nat) returns (hold: nat, bits: nat, in_: nat)
    requires Holds(u, hold0, bits0, input, in0) && in0 < |input| && bits0 <= 22
    ensures Holds(u, hold, bits, input, in_) && bits == bits0 + 8 && in_ == in0 + 1
    ensures hold < 0x1_0000_0000
  {
    hide Holds;
    HoldsMore(u, hold0, bits0, input, in0);
    hold := hold0 + input[in0] * Pow2(bits0);
    bits, in_ := bits0 + 8, in0 + 1;
    HoldsInWord(u, hold, bits, input, in_);
  }

  lemma HoldsInWord(u: nat, hold: nat, bits: nat, input: seq<byte>, i: nat)
    requires Holds(u, hold, bits, input, i) && bits <= 32
    ensures hold < 0x1_0000_0000
  {
    hide Pow2;
    Pow2Of32();
    Pow2Monotone(bits, 32);
  }

  /** At least 15 bits, so that a whole code is there. */
  method Need15(input: seq<byte>, ghost u: nat, hold0: nat, bits0: nat, in0: nat) returns (hold: nat, bits: nat, in_: nat)
    requires Holds(u, hold0, bits0, input, in0) && (bits0 < 15 ==> in0 + 2 <= |input|)
    ensures Holds(u, hold, bits, input, in_) && bits + 8 * in0 == bits0 + 8 * in_
    ensures in_ == if bits0 < 15 then in0 + 2 else in0
  {
    hide Holds;
    hold, bits, in_ := hold0, bits0, in0;
    if bits < 15 {
      hold, bits, in_ := PullByte(input, u, hold, bits, in_);
      hold, bits, in_ := PullByte(input, u, hold, bits, in_);
    }
  }

  /** From the first-level table, and through a link to the second level, to the end of a code. */
  method Decode(table: seq<Code>, root: nat, kind: Kind, input: seq<byte>, ghost u: nat, hold0: nat, bits0: nat, ghost in0: nat)
    returns (here: Code, hold: nat, bits: nat, ghost n: nat)
    requires ValidTable(table, root, kind) && Holds(u, hold0, bits0, input, in0) && bits0 >= 15
    ensures (here, n) == Find(table, root, u, kind)
    ensures Holds(Drop(u, n), hold, bits, input, in0) && bits + n == bits0
  {
    hide Holds, Low, Drop, ValidLeaf, IsLink;
    HoldsPeek(u, hold0, bits0, input, in0, root);
    here := table[Low(hold0, root)];
    ghost var first := here;
    assert ValidEntry(table, here, kind);
    n := here.bits;
    BitsOfEntry(table, here, kind);
    HoldsPeek(u, hold0, bits0, input, in0, here.bits);
    hold, bits := Drop(hold0, here.bits), bits0 - here.bits;
    ghost var level := 0;
    while IsLink(here, kind)
      invariant level == 0 || level == 1
      invariant level == 0 ==> here == first && n == here.bits
      invariant level == 1 ==> IsLink(first, kind) && !IsLink(here, kind) && here == table[first.val + Low(Drop(u, first.bits), first.op)] && n == first.bits + here.bits
      invariant n <= 15 && bits + n == bits0 && Holds(Drop(u, n), hold, bits, input, in0)
      decreases 1 - level
    {
      HoldsPeek(Drop(u, n), hold, bits, input, in0, here.op);
      var link := here;
      here := table[link.val + Low(hold, link.op)];
      BitsOfLeaf(here, 15 - link.bits, kind);
      HoldsPeek(Drop(u, n), hold, bits, input, in0, here.bits);
      DropTwice(u, n, here.bits);
      hold, bits := Drop(hold, here.bits), bits - here.bits;
      n := n + here.bits;
      level := 1;
    }
  }

  lemma BitsOfEntry(t: seq<Code>, c: Code, kind: Kind)
    requires ValidEntry(t, c, kind)
    ensures c.bits <= 15 && (IsLink(c, kind) ==> c.bits + c.op <= 15)
  {
  }

  lemma BitsOfLeaf(c: Code, limit: int, kind: Kind)
    requires ValidLeaf(c, limit, kind)
    ensures c.bits <= limit && !IsLink(c, kind)
  {
  }

  /** The extra bits of a length, at most five. */
  method LengthBits(op: nat, input: seq<byte>, ghost u: nat, hold0: nat, bits0: nat, in0: nat)
    returns (value: nat, hold: nat, bits: nat, in_: nat)
    requires op <= 5 && Holds(u, hold0, bits0, input, in0) && (bits0 < op ==> in0 < |input|)
    ensures value == Low(u, op) && Holds(Drop(u, op), hold, bits, input, in_)
    ensures bits + op + 8 * in0 == bits0 + 8 * in_ && in_ == if bits0 < op then in0 + 1 else in0
  {
    hide Holds, Low, Drop;
    value, hold, bits, in_ := 0, hold0, bits0, in0;
    DropNone(u);
    NoBits(u);
    if op > 0 {
      if bits < op {
        hold, bits, in_ := PullByte(input, u, hold, bits, in_);
      }
      HoldsPeek(u, hold, bits, input, in_, op);
      value := Low(hold, op);
      hold := Drop(hold, op);
      bits := bits - op;
    }
  }

  lemma NoBits(u: nat)
    ensures Low(u, 0) == 0
  {
  }

  /** The extra bits of a distance, at most thirteen. */
  method DistanceBits(op: nat, input: seq<byte>, ghost u: nat, hold0: nat, bits0: nat, in0: nat)
    returns (value: nat, hold: nat, bits: nat, in_: nat)
    requires op <= 13 && Holds(u, hold0, bits0, input, in0)
    requires (bits0 < op ==> in0 + 1 <= |input|) && (bits0 + 8 < op ==> in0 + 2 <= |input|)
    ensures value == Low(u, op) && Holds(Drop(u, op), hold, bits, input, in_)
    ensures bits + op + 8 * in0 == bits0 + 8 * in_
    ensures in_ == if bits0 < op then if bits0 + 8 < op then in0 + 2 else in0 + 1 else in0
  {
    hide Holds, Low, Drop;
    hold, bits, in_ := hold0, bits0, in0;
    if bits < op {
      hold, bits, in_ := PullByte(input, u, hold, bits, in_);
      if bits < op {
        hold, bits, in_ := PullByte(input, u, hold, bits, in_);
      }
    }
    HoldsPeek(u, hold, bits, input, in_, op);
    value := Low(hold, op);
    hold := Drop(hold, op);
    bits := bits - op;
  }

  /** The distance after a length that has taken n bits. */
  method ReadDistance(t: Tables, input: seq<byte>, ghost u: nat, ghost n: nat, ghost b0: nat, ghost start: nat,
                      length: nat, hold0: nat, bits0: nat, in0: nat)
    returns (item: Item, hold: nat, bits: nat, in_: nat, ghost k: nat)
    requires ValidTables(t) && n <= 20 && Holds(Drop(u, n), hold0, bits0, input, in0)
    requires start + 6 <= |input| && start <= in0 && n + bits0 + 8 * start == b0 + 8 * in0
    requires bits0 < 15 || in0 <= start + 6
    ensures (item, k) == NextDistance(t, u, length, n)
    ensures Holds(Drop(u, k), hold, bits, input, in_) && k + bits + 8 * start == b0 + 8 * in_ && start <= in_ <= start + 6
    ensures bits0 <= 30 ==> bits <= 30
  {
    hide Holds, Low, Drop, Find, ValidTable;
    hold, bits, in_ := Need15(input, Drop(u, n), hold0, bits0, in0);
    var here;
    ghost var m;
    here, hold, bits, m := Decode(t.distcode, t.distbits, Distances, input, Drop(u, n), hold, bits, in_);
    DropTwice(u, n, m);
    k := n + m;
    if IsBase(here) {
      LeafBounds(here, Distances);
      var value;
      value, hold, bits, in_ := DistanceBits(Extra(here), input, Drop(u, k), hold, bits, in_);
      DropTwice(u, k, Extra(here));
      k := k + Extra(here);
      item := Symbol(Match(length, here.val + value));
    } else {
      item := BadDistance;
    }
  }

  lemma LeafBounds(c: Code, kind: Kind)
    requires ValidLeaf(c, 15, kind) && IsBase(c)
    ensures kind.Lengths? ==> Extra(c) <= 5
    ensures kind.Distances? ==> Extra(c) <= 13
  {
  }

  /** One item: at most 48 bits, so at most six bytes of input. */
  method ReadItem(t: Tables, input: seq<byte>, ghost u: nat, hold0: nat, bits0: nat, in0: nat)
    returns (item: Item, hold: nat, bits: nat, in_: nat, ghost k: nat)
    requires ValidTables(t) && Holds(u, hold0, bits0, input, in0) && in0 + 6 <= |input|
    ensures (item, k) == Next(t, u)
    ensures Holds(Drop(u, k), hold, bits, input, in_) && k + bits + 8 * in0 == bits0 + 8 * in_ && in0 <= in_ <= in0 + 6
    ensures bits0 <= 30 ==> bits <= 30
  {
    hide Holds, Low, Drop, Find, ValidTable, NextDistance;
    hold, bits, in_ := Need15(input, u, hold0, bits0, in0);
    var here;
    here, hold, bits, k := Decode(t.lencode, t.lenbits, Lengths, input, u, hold, bits, in_);
    if IsLiteral(here) {
      item := Symbol(Literal(here.val));
    } else if IsBase(here) {
      LeafBounds(here, Lengths);
      var value;
      value, hold, bits, in_ := LengthBits(Extra(here), input, Drop(u, k), hold, bits, in_);
      DropTwice(u, k, Extra(here));
      k := k + Extra(here);
      item, hold, bits, in_, k := ReadDistance(t, input, u, k, bits0, in0, here.val + value, hold, bits, in_);
    } else if IsEnd(here) {
      item := EndOfBlock;
    } else {
      item := BadLength;
    }
  }

  // ---------- The loop ----------

  lemma ReachOfRing(w: Window)
    requires w.Valid()
    ensures |w.History()| == w.whave
  {
  }

  lemma Beginning(t: Tables, u: nat, h: seq<byte>, hold: nat, bits: nat, input: seq<byte>, i: nat)
    requires ValidTables(t) && i <= |input| && hold < Pow2(bits) && u == hold + Pow2(bits) * Number(input[i..])
    ensures Decoded(t, u, h, 0, LEN, h, 0) && Holds(u, hold, bits, input, i) && Holds(Drop(u, 0), hold, bits, input, i)
  {
    DropNone(u);
  }

  lemma HoldsUnread(u: nat, hold: nat, bits: nat, input: seq<byte>, i: nat)
    requires Holds(u, hold, bits, input, i)
    ensures hold < Pow2(bits) && u == hold + Pow2(bits) * Number(input[i..])
  {
  }

  /**
   * The first n items of u turn the history h into h', and decoding goes on after them (LEN) or has stopped at the next,
   * which ends the block (TYPE) or cannot be carried out (BAD); all this takes so many bits.
   */
  ghost predicate Decoded(t: Tables, u: nat, h: seq<byte>, n: nat, mode: Mode, h': seq<byte>, taken: nat)
    requires ValidTables(t)
  {
    && Regular(t, u, h, n) && h' == Output(t, u, h, n)
    && taken == Taken(t, u, if mode == LEN then n else n + 1)
    && (mode != LEN ==> !Reaches(ItemAt(t, u, n), h'))
    && (mode == TYPE <==> mode != LEN && ItemAt(t, u, n).EndOfBlock?)
  }

  lemma OneMore(t: Tables, u: nat, h: seq<byte>, n: nat, h1: seq<byte>, h2: seq<byte>, taken: nat, mode: Mode)
    requires ValidTables(t) && Decoded(t, u, h, n, LEN, h1, taken)
    requires var item := Next(t, Drop(u, taken)).0;
             && mode == (if item.EndOfBlock? then TYPE else if Reaches(item, h1) then LEN else BAD)
             && h2 == if Reaches(item, h1) then ExpandToken(h1, item.token) else h1
    ensures Decoded(t, u, h, if mode == LEN then n + 1 else n, mode, h2, taken + Next(t, Drop(u, taken)).1)
  {
    hide Next, ExpandToken, Drop, ValidTables;
  }

  class Inflater {
    const w: Window
    const t: Tables
    const input: seq<byte>
    const output: array<byte>
    var mode: Mode
    var hold: nat
    var bits: nat
    var nextIn: nat
    var availIn: nat
    var nextOut: nat
    var availOut: nat

    constructor (w: Window, t: Tables, input: seq<byte>, output: array<byte>, hold: nat, bits: nat, nextIn: nat, availIn: nat, nextOut: nat, availOut: nat)
      ensures this.w == w && this.t == t && this.input == input && this.output == output
      ensures this.hold == hold && this.bits == bits && this.nextIn == nextIn && this.availIn == availIn
      ensures this.nextOut == nextOut && this.availOut == availOut && mode == LEN
    {
      this.w, this.t, this.input, this.output := w, t, input, output;
      this.hold, this.bits, this.nextIn, this.availIn := hold, bits, nextIn, availIn;
      this.nextOut, this.availOut, mode := nextOut, availOut, LEN;
    }

    ghost predicate Valid()
      reads this, w
    {
      && w.Valid() && ValidTables(t) && output != w.window
      && hold < Pow2(bits) && bits < 8
      && nextIn + availIn <= |input| && nextOut + availOut <= output.Length
    }

    /** The bits that are not yet used, as a number. */
    ghost function Unread(): nat
      reads this
      requires nextIn <= |input|
    {
      hold + Pow2(bits) * Number(input[nextIn..])
    }

    /** What a match can reach: the ring, and the output of this call from beg on. */
    ghost function History(beg: nat, out: nat): seq<byte>
      reads w, w.window, output
      requires w.Valid() && beg <= out <= output.Length
    {
      w.History() + output[beg..out]
    }

    /** One item is read and carried out. */
    method Step(ghost u: nat, hold0: nat, bits0: nat, in0: nat, beg: nat, out0: nat)
      returns (mode_: Mode, hold_: nat, bits_: nat, in_: nat, out: nat)
      requires w.Valid() && ValidTables(t) && output != w.window
      requires Holds(u, hold0, bits0, input, in0) && in0 + 6 <= |input| && beg <= out0 && out0 + 258 <= output.Length
      modifies output
      ensures in0 <= in_ <= in0 + 6 && out0 <= out <= out0 + 258 && (bits0 <= 30 ==> bits_ <= 30)
      ensures var (item, k) := Next(t, u);
              && Holds(Drop(u, k), hold_, bits_, input, in_) && k + bits_ + 8 * in0 == bits0 + 8 * in_
              && (mode_ == if item.EndOfBlock? then TYPE else if Reaches(item, old(History(beg, out0))) then LEN else BAD)
              && (Reaches(item, old(History(beg, out0))) ==> History(beg, out) == ExpandToken(old(History(beg, out0)), item.token))
      ensures mode_ != LEN ==> out == out0 && output[..] == old(output[..]) && History(beg, out) == old(History(beg, out0))
      ensures mode_ == LEN ==> out > out0
      ensures output[..out0] == old(output[..out0]) && output[out..] == old(output[out..])
    {
      hide Holds, Drop, ValidTables, Window.Valid, Window.History, Copy;
      ReachOfRing(w);
      var item;
      ghost var k;
      item, hold_, bits_, in_, k := ReadItem(t, input, u, hold0, bits0, in0);
      out := out0;
      match item
      case EndOfBlock => mode_ := TYPE;
      case BadLength => mode_ := BAD;
      case BadDistance => mode_ := BAD;
      case Symbol(token) =>
        mode_ := LEN;
        match token
        case Literal(c) =>
          output[out] := c;
          assert output[beg..out + 1] == old(output[beg..out0]) + [c];
          Associate(w.History(), old(output[beg..out0]), [c]);
          out := out + 1;
        case Match(len, dist) =>
          if dist > out - beg && dist - (out - beg) > w.whave {
            mode_ := BAD;
          } else {
            out := CopyMatch(w, output, beg, out, len, dist);
          }
    }

    /** Iterations while input and output last. */
    method Iterate(last: int, end: int, beg: nat, ghost inEnd: nat, ghost outEnd: nat)
      returns (in_: nat, out: nat, hold_: nat, bits_: nat, mode_: Mode, ghost n: nat, ghost taken: nat)
      requires w.Valid() && ValidTables(t) && output != w.window && mode == LEN
      requires hold < Pow2(bits) && bits < 8 && beg <= nextOut
      requires inEnd <= |input| && outEnd <= output.Length && last == inEnd - 5 && end == outEnd - 257 && nextIn < last && nextOut < end
      modifies output
      ensures nextIn <= in_ <= inEnd && nextOut <= out <= outEnd && bits_ <= 30
      ensures mode_ == LEN ==> n > 0 && (in_ >= last || out >= end)
      ensures Holds(Unread(), hold, bits, input, nextIn)
      ensures Decoded(t, Unread(), old(History(beg, nextOut)), n, mode_, History(beg, out), taken)
      ensures output[..nextOut] == old(output[..nextOut]) && output[out..] == old(output[out..])
      ensures Holds(Drop(Unread(), taken), hold_, bits_, input, in_) && taken + bits_ + 8 * nextIn == bits + 8 * in_
    {
      hide Holds, Drop, ValidTables, Window.Valid, History, Next, Decoded, Number, Pow2;
      ghost var u := Unread();
      ghost var h := History(beg, nextOut);
      in_, out, hold_, bits_, mode_ := nextIn, nextOut, hold, bits, mode;
      n, taken := 0, 0;
      Beginning(t, u, h, hold, bits, input, nextIn);
      var more := true;
      while more
        invariant nextIn <= in_ <= inEnd && nextOut <= out <= outEnd && bits_ <= 30
        invariant more ==> mode_ == LEN && in_ < last && out < end
        invariant !more && mode_ == LEN ==> n > 0 && (in_ >= last || out >= end)
        invariant Decoded(t, u, h, n, mode_, History(beg, out), taken)
        invariant output[..nextOut] == old(output[..nextOut]) && output[out..] == old(output[out..])
        invariant Holds(Drop(u, taken), hold_, bits_, input, in_) && taken + bits_ + 8 * nextIn == bits + 8 * in_
        modifies output
        decreases more, outEnd - out
      {
        ghost var before, o, out1 := History(beg, out), output[..], out;
        ghost var k := Next(t, Drop(u, taken)).1;
        DropTwice(u, taken, k);
        mode_, hold_, bits_, in_, out := Step(Drop(u, taken), hold_, bits_, in_, beg, out);
        Kept(output[..], o, nextOut, out1);
        assert o[out..] == o[out1..][out - out1..];
        OneMore(t, u, h, n, before, History(beg, out), taken, mode_);
        taken := taken + k;
        if mode_ == LEN { n := n + 1; }
        more := mode_ == LEN && in_ < last && out < end;
      }
    }

    /**
     * Decodes items until the block ends, the stream is invalid, or fewer than 6 bytes of input or 258 of output are left.
     * start is the room for output when inflate was called.
     */
    method InflateFast(start: nat) returns (ghost n: nat, ghost taken: nat)
      requires Valid() && mode == LEN && availIn >= 6 && availOut >= 258
      requires availOut <= start <= availOut + nextOut
      modifies this, output
      ensures Valid() && nextIn + availIn == old(nextIn + availIn) && nextOut + availOut == old(nextOut + availOut)
      ensures nextIn >= old(nextIn) && nextOut >= old(nextOut)
      ensures var beg := nextOut + availOut - start;
              Decoded(t, old(Unread()), old(History(nextOut + availOut - start, nextOut)), n, mode, History(beg, nextOut), taken)
      ensures Unread() == Drop(old(Unread()), taken) && taken + bits + 8 * availIn == old(bits + 8 * availIn)
      ensures mode == LEN ==> n > 0 && (availIn <= 8 || availOut < 258)
      ensures output[..old(nextOut)] == old(output[..nextOut]) && output[nextOut..] == old(output[..])[nextOut..]
    {
      hide Holds, Drop, ValidTables, Window.Valid, Number, Pow2, Decoded, Window.History;
      var last, end := nextIn + availIn - 5, nextOut + availOut - 257;
      var beg := nextOut - (start - availOut);
      ghost var u := Unread();
      var in_, out, hold_, bits_, mode_;
      in_, out, hold_, bits_, mode_, n, taken := Iterate(last, end, beg, nextIn + availIn, nextOut + availOut);
      var len := bits_ / 8;
      GiveBack(u, hold, bits, input, nextIn, taken, hold_, bits_, in_, len);
      HoldsUnread(Drop(u, taken), Low(hold_, bits_ - 8 * len), bits_ - 8 * len, input, in_ - len);
      in_ := in_ - len;
      bits_ := bits_ - 8 * len;
      Save(in_, out, Low(hold_, bits_), bits_, mode_, last, end);
    }

    /** The locals go back into the stream and the state. */
    method Save(in_: nat, out: nat, hold_: nat, bits_: nat, mode_: Mode, last: int, end: int)
      requires in_ <= last + 5 && out <= end + 257
      modifies this
      ensures nextIn == in_ && nextOut == out && hold == hold_ && bits == bits_ && mode == mode_
      ensures nextIn + availIn == last + 5 && nextOut + availOut == end + 257
    {
      nextIn, nextOut := in_, out;
      availIn := if in_ < last then 5 + (last - in_) else 5 - (in_ - last);
      availOut := if out < end then 257 + (end - out) else 257 - (out - end);
      hold, bits, mode := hold_, bits_, mode_;
    }
  }
}
