/** The symbols of a block as bits: how they are written, and what reading one comes to. */
module SymbolCoding {
  import opened Powers
  import opened Bits
  import opened CanonicalHuffman
  import opened HuffmanTables

  const G_SIZE := 50

  // ---------- Writing ----------

  /** The code of the k-th symbol of a block, which is in the table selected for its group of fifty. */
  ghost function SymbolCode(lens: seq<seq<int>>, selector: seq<nat>, k: nat, sym: nat): seq<bool> {
    if Selects(lens, selector, k) && sym < |lens[selector[k / G_SIZE]]| then CodeBits(lens[selector[k / G_SIZE]], sym) else []
  }

  ghost predicate Selects(lens: seq<seq<int>>, selector: seq<nat>, k: nat) {
    k / G_SIZE < |selector| && selector[k / G_SIZE] < |lens| && Lengths(lens[selector[k / G_SIZE]])
  }

  /** Symbols from the k-th on, one code after another. */
  ghost function SymbolBits(lens: seq<seq<int>>, selector: seq<nat>, k: nat, syms: seq<nat>): seq<bool>
    decreases |syms|
  {
    if syms == [] then [] else SymbolCode(lens, selector, k, syms[0]) + SymbolBits(lens, selector, k + 1, syms[1..])
  }

  /** Every symbol has a code in a decodable table. */
  ghost predicate Sendable(lens: seq<seq<int>>, selector: seq<nat>, k: nat, syms: seq<nat>) {
    forall j :: 0 <= j < |syms| ==> SendableAt(lens, selector, k + j, syms[j])
  }

  ghost predicate SendableAt(lens: seq<seq<int>>, selector: seq<nat>, k: nat, sym: nat) {
    Selects(lens, selector, k) && sym < |lens[selector[k / G_SIZE]]| && Decodable(lens[selector[k / G_SIZE]])
  }

  lemma SendableTail(lens: seq<seq<int>>, selector: seq<nat>, k: nat, syms: seq<nat>)
    requires Sendable(lens, selector, k, syms) && syms != []
    ensures SendableAt(lens, selector, k, syms[0]) && Sendable(lens, selector, k + 1, syms[1..])
  {
    hide SendableAt;
    assert SendableAt(lens, selector, k + 0, syms[0]);
    forall j | 0 <= j < |syms| - 1 ensures SendableAt(lens, selector, k + 1 + j, syms[1..][j]) {
      assert SendableAt(lens, selector, k + (j + 1), syms[j + 1]);
    }
  }

  // ---------- Reading ----------

  /** What a read comes to: more bits are needed, no value fits, or a value and the bits after it. */
  datatype Arrival = Missing | Invalid | Arrived(v: nat, rest: seq<bool>) {
    /** The same read with more bits behind it. */
    ghost function With(later: seq<bool>): Arrival {
      if Arrived? then Arrived(v, rest + later) else this
    }
  }

  /** The k-th symbol with a code of n bits, among the first m. */
  ghost function Nth(len: seq<int>, n: nat, k: int, m: nat): (i: nat)
    requires m <= |len|
    ensures m > 0 ==> i < m
  {
    if m == 0 then 0 else if len[m - 1] == n && OfLength(len, n, m - 1) == k then m - 1 else Nth(len, n, k, m - 1)
  }

  /** Reads one symbol: the shortest length, from n bits on, at which the number read is below the codes in use. */
  ghost function Scan(len: seq<int>, n: nat, bits: seq<bool>): Arrival
    decreases LONGEST_CODE + 1 - n
  {
    if |bits| < n then Missing
    else if n > LONGEST_CODE then Invalid
    else if Value(bits[..n]) < Used(len, n) then Arrived(Nth(len, n, Value(bits[..n]) - First(len, n), |len|), bits[n..])
    else Scan(len, n + 1, bits)
  }

  /** The k-th symbol of a block. */
  ghost function SymbolAt(lens: seq<seq<int>>, selector: seq<nat>, k: nat, bits: seq<bool>): Arrival {
    if Selects(lens, selector, k) then Scan(lens[selector[k / G_SIZE]], 1, bits) else Invalid
  }

  lemma {:induction false} NthIs(len: seq<int>, n: nat, i: nat, m: nat)
    requires i < m <= |len| && len[i] == n
    ensures Nth(len, n, OfLength(len, n, i), m) == i
  {
    hide OfLength;
    if m - 1 > i {
      if len[m - 1] == n { OfLengthMonotone(len, n, i, m - 1); }
      NthIs(len, n, i, m - 1);
    }
  }

  /** A number of n bits that is not below the codes of n - 1 bits is beyond all shorter codes too. */
  lemma {:induction false} ScanFrom(len: seq<int>, m: nat, n: nat, v: nat, p: seq<bool>)
    requires m <= n <= LONGEST_CODE + 1 && v < Pow2(n) && ToBits(v, n) <= p && v >= First(len, n)
    ensures Scan(len, m, p) == Scan(len, n, p)
    decreases n - m
  {
    hide Pow2, ToBits, Value, Used, First;
    if m < n {
      LevelsApart(len, m, n);
      QuotientBound(v, Used(len, m), Pow2(n - m));
      ValueOfPrefix(v, n, m);
      assert p[..m] == ToBits(v, n)[..m];
      ScanFrom(len, m + 1, n, v, p);
    }
  }

  /** Fewer bits than the shortest code. */
  lemma {:induction false} TooFewBits(len: seq<int>, n: nat, bits: seq<bool>)
    requires forall i :: 0 <= i < |len| ==> len[i] > |bits|
    requires |bits| < LONGEST_CODE + 1
    ensures Scan(len, n, bits) == Missing
    decreases LONGEST_CODE + 1 - n
  {
    hide Used, First, Value;
    if n <= |bits| {
      NoneUsedBelow(len, n);
      TooFewBits(len, n + 1, bits);
    }
  }

  /** What has been read stays read when more bits follow. */
  lemma {:induction false} ScanMore(len: seq<int>, n: nat, bits: seq<bool>, later: seq<bool>)
    requires !Scan(len, n, bits).Missing?
    ensures Scan(len, n, bits + later) == Scan(len, n, bits).With(later)
    decreases LONGEST_CODE + 1 - n
  {
    hide Used, First, Value;
    if |bits| >= n {
      assert (bits + later)[..n] == bits[..n] && (bits + later)[n..] == bits[n..] + later;
      if n <= LONGEST_CODE && Value(bits[..n]) >= Used(len, n) { ScanMore(len, n + 1, bits, later); }
    }
  }

  /** A symbol that is read takes at least one bit, and is one of the table's. */
  lemma {:induction false} ScanTakes(len: seq<int>, n: nat, bits: seq<bool>)
    requires n >= 1 && Scan(len, n, bits).Arrived?
    ensures |Scan(len, n, bits).rest| < |bits| && Scan(len, n, bits).v < |len|
    decreases LONGEST_CODE + 1 - n
  {
    hide OfLength, Value, Used, First;
    if Value(bits[..n]) < Used(len, n) {
      if len == [] { NoneUsedBelow(len, n); }
    } else {
      ScanTakes(len, n + 1, bits);
    }
  }

  /** The symbol read is the one whose code stands there. */
  lemma {:induction false} ScanIsCode(len: seq<int>, n: nat, bits: seq<bool>)
    requires n >= 1 && Lengths(len) && Scan(len, n, bits).Arrived? && Value(bits[..n]) >= First(len, n)
    ensures var a := Scan(len, n, bits); a.v < |len| && bits == CodeBits(len, a.v) + a.rest
    decreases LONGEST_CODE + 1 - n
  {
    hide OfLength, Value, Used, First, Pow2, ToBits;
    var v := Value(bits[..n]);
    NextLevel(len, n);
    if v < Used(len, n) {
      var i := NthOfLength(len, n, v - First(len, n), |len|);
      NthIs(len, n, i, |len|);
      ToBitsOfValue(bits[..n]);
      assert bits == bits[..n] + bits[n..];
    } else {
      assert bits[..n + 1][..n] == bits[..n];
      ValueAppend(bits[..n], bits[n]);
      assert bits[..n + 1] == bits[..n] + [bits[n]];
      ScanIsCode(len, n + 1, bits);
    }
  }

  /** In a decodable table, a symbol whose code comes next is the one read. */
  lemma ScanFinds(len: seq<int>, i: nat, bits: seq<bool>)
    requires Decodable(len) && i < |len| && CodeBits(len, i) <= bits
    ensures Scan(len, 1, bits) == Arrived(i, bits[len[i]..])
  {
    hide OfLength, Value, Used, First, Pow2, ToBits, Kraft;
    var n, v := len[i], Code(len, i);
    CodeFits(len, i);
    ScanFrom(len, 1, n, v, bits);
    ValueOfToBits(v, n);
    assert bits[..n] == CodeBits(len, i);
    NthIs(len, n, i, |len|);
  }

  /** For a decodable table, reading gives symbol i exactly if the code of symbol i comes next. */
  lemma ReadIffCode(len: seq<int>, i: nat, bits: seq<bool>)
    requires Decodable(len) && i < |len|
    ensures Scan(len, 1, bits).Arrived? && Scan(len, 1, bits).v == i <==> CodeBits(len, i) <= bits
  {
    hide OfLength, Kraft;
    if Scan(len, 1, bits).Arrived? {
      NoneUsedBelow(len, 0);
      ScanIsCode(len, 1, bits);
    }
    if CodeBits(len, i) <= bits { ScanFinds(len, i, bits); }
  }

  /** A symbol that was sent is read as it was sent. */
  lemma SymbolComes(lens: seq<seq<int>>, selector: seq<nat>, k: nat, sym: nat, tail: seq<bool>)
    requires SendableAt(lens, selector, k, sym)
    ensures SymbolAt(lens, selector, k, SymbolCode(lens, selector, k, sym) + tail) == Arrived(sym, tail)
  {
    hide Code, Kraft;
    var len := lens[selector[k / G_SIZE]];
    var bits := CodeBits(len, sym) + tail;
    ScanFinds(len, sym, bits);
    assert bits[len[sym]..] == tail;
  }
}
