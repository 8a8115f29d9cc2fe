/** The decoding tables of inflate and what the next bits of a stream say by them. */
module InflateCodes {
  import opened Words
  import opened Powers
  import opened Accumulator
  import opened Lz77

  /** An entry of a decoding table. */
  datatype Code = Code(op: byte, bits: byte, val: u16)

  predicate IsLiteral(c: Code) { c.op == 0 }

  /** `op & 16` */
  predicate IsBase(c: Code) { c.op / 16 % 2 == 1 }

  /** `op & 64` */
  predicate IsOther(c: Code) { c.op / 64 % 2 == 1 }

  /** `op & 32` */
  predicate IsEnd(c: Code) { c.op / 32 % 2 == 1 }

  /** The number of extra bits: `op & 15` */
  function Extra(c: Code): nat { c.op % 16 }

  /** The two kinds of tables. */
  datatype Kind = Lengths | Distances

  /** The entry points to a second-level table. */
  predicate IsLink(c: Code, kind: Kind) {
    !IsBase(c) && !IsOther(c) && (kind.Lengths? ==> !IsLiteral(c))
  }

  /** An entry that ends a code of at most limit more bits. */
  predicate ValidLeaf(c: Code, limit: int, kind: Kind) {
    && !IsLink(c, kind) && c.bits <= limit
    && (kind.Lengths? && IsLiteral(c) ==> c.val < 256)
    && (kind.Lengths? && IsBase(c) ==> Extra(c) <= 5 && MIN_MATCH <= c.val && c.val + Pow2(Extra(c)) - 1 <= MAX_MATCH)
    && (kind.Distances? && IsBase(c) ==> Extra(c) <= 13 && 1 <= c.val)
  }

  ghost predicate ValidEntry(t: seq<Code>, c: Code, kind: Kind) {
    if IsLink(c, kind) then
      c.op < 16 && c.bits + c.op <= 15 && c.val + Pow2(c.op) <= |t|
      && forall j :: c.val <= j < c.val + Pow2(c.op) ==> ValidLeaf(t[j], 15 - c.bits, kind)
    else ValidLeaf(c, 15, kind)
  }

  /** Codes have at most 15 bits, lengths at most 5 and distances at most 13 extra bits. */
  ghost predicate ValidTable(t: seq<Code>, root: nat, kind: Kind) {
    root <= 15 && Pow2(root) <= |t| && forall i :: 0 <= i < Pow2(root) ==> ValidEntry(t, t[i], kind)
  }

  datatype Tables = Tables(lencode: seq<Code>, lenbits: nat, distcode: seq<Code>, distbits: nat)

  ghost predicate ValidTables(t: Tables) {
    ValidTable(t.lencode, t.lenbits, Lengths) && ValidTable(t.distcode, t.distbits, Distances)
  }

  /** The code that u starts with, and its number of bits. */
  function Find(t: seq<Code>, root: nat, u: nat, kind: Kind): (r: (Code, nat))
    requires ValidTable(t, root, kind)
    ensures ValidLeaf(r.0, 15, kind) && r.1 <= 15
  {
    var c := t[Low(u, root)];
    assert ValidEntry(t, c, kind);
    if IsLink(c, kind) then
      var e := t[c.val + Low(Drop(u, c.bits), c.op)];
      (e, c.bits + e.bits)
    else (c, c.bits)
  }

  datatype Item = Symbol(token: Token) | EndOfBlock | BadLength | BadDistance

  /** The next item of a stream whose unread bits are u, and the number of bits it takes. */
  function Next(t: Tables, u: nat): (r: (Item, nat))
    requires ValidTables(t)
    ensures r.1 <= 48
    ensures r.0.Symbol? && r.0.token.Match? ==> MIN_MATCH <= r.0.token.length <= MAX_MATCH && 1 <= r.0.token.distance
  {
    var (c, n) := Find(t.lencode, t.lenbits, u, Lengths);
    if IsLiteral(c) then (Symbol(Literal(c.val)), n)
    else if IsBase(c) then
      var length := c.val + Low(Drop(u, n), Extra(c));
      NextDistance(t, u, length, n + Extra(c))
    else if IsEnd(c) then (EndOfBlock, n)
    else (BadLength, n)
  }

  /** The distance that follows a length whose code and extra bits took n bits. */
  function NextDistance(t: Tables, u: nat, length: nat, n: nat): (r: (Item, nat))
    requires ValidTables(t) && n <= 20
    ensures r.1 <= 48
    ensures r.0.Symbol? ==> r.0.token.Match? && r.0.token.length == length && 1 <= r.0.token.distance
    ensures r.0.Symbol? || r.0.BadDistance?
  {
    var (c, k) := Find(t.distcode, t.distbits, Drop(u, n), Distances);
    if IsBase(c) then
      (Symbol(Match(length, c.val + Low(Drop(u, n + k), Extra(c)))), n + k + Extra(c))
    else (BadDistance, n + k)
  }

  /** The number of bits that the first k items take. */
  function Taken(t: Tables, u: nat, k: nat): nat
    requires ValidTables(t)
  {
    if k == 0 then 0 else Taken(t, u, k - 1) + Next(t, Drop(u, Taken(t, u, k - 1))).1
  }

  function ItemAt(t: Tables, u: nat, k: nat): Item
    requires ValidTables(t)
  {
    Next(t, Drop(u, Taken(t, u, k))).0
  }

  /** What the first k items append to the output so far. */
  function Output(t: Tables, u: nat, history: seq<byte>, k: nat): seq<byte>
    requires ValidTables(t)
  {
    if k == 0 then history else
      var before, item := Output(t, u, history, k - 1), ItemAt(t, u, k - 1);
      if item.Symbol? then ExpandToken(before, item.token) else before
  }

  /** The item is a literal, or a match that does not go back further than the history. */
  predicate Reaches(item: Item, history: seq<byte>) {
    item.Symbol? && (item.token.Match? ==> item.token.distance <= |history|)
  }

  /** The first k items can all be carried out. */
  ghost predicate Regular(t: Tables, u: nat, history: seq<byte>, k: nat)
    requires ValidTables(t)
  {
    forall i :: 0 <= i < k ==> Reaches(ItemAt(t, u, i), Output(t, u, history, i))
  }
}
