/** The decoding tables of inflate for given code lengths. */
module InflateTables {
  import opened Words
  import opened Powers
  import opened Bits
  import opened Accumulator
  import opened InflateCodes
  import opened DeflateFormat

  // ---------- Entries ----------

  /** What the library stores for the length symbols from 257 on, and for the distance symbols: bases and 16 + extra bits. */
  function LBase(): (s: seq<u16>)
    ensures |s| == 29
  {
    [3, 4, 5, 6, 7, 8, 9, 10, 11, 13, 15, 17, 19, 23, 27, 31, 35, 43, 51, 59, 67, 83, 99, 115, 131, 163, 195, 227, 258]
  }

  function LExt(): (s: seq<byte>)
    ensures |s| == 29
  {
    [16, 16, 16, 16, 16, 16, 16, 16, 17, 17, 17, 17, 18, 18, 18, 18, 19, 19, 19, 19, 20, 20, 20, 20, 21, 21, 21, 21, 16]
  }

  function DBase(): (s: seq<u16>)
    ensures |s| == 30
  {
    [1, 2, 3, 4, 5, 7, 9, 13, 17, 25, 33, 49, 65, 97, 129, 193, 257, 385, 513, 769, 1025, 1537, 2049, 3073, 4097, 6145, 8193, 12289, 16385, 24577]
  }

  function DExt(): (s: seq<byte>)
    ensures |s| == 30
  {
    [16, 16, 16, 16, 17, 17, 18, 18, 19, 19, 20, 20, 21, 21, 22, 22, 23, 23, 24, 24, 25, 25, 26, 26, 27, 27, 28, 28, 29, 29]
  }

  /** The entry says that something is wrong: one of the marks 01000000, 11000110 and 11001011. */
  predicate IsInvalid(c: Code) { c.op == 64 || c.op == 198 || c.op == 203 }

  /**
   * The entry of symbol s: 00000000 and the byte for a literal, 01100000 for the end of a block, 0001eeee and
   * the base for a length or distance with so many extra bits. Some symbols have codes but no meaning.
   */
  predicate IsEntry(c: Code, kind: Kind, s: nat) {
    match kind
    case Lengths =>
      if s < 256 then c.op == 0 && c.val == s
      else if s == 256 then c.op == 96
      else if s < 286 then c.op == LExt()[s - 257] && c.val == LBase()[s - 257]
      else IsInvalid(c)
    case Distances =>
      if s < 30 then c.op == DExt()[s] && c.val == DBase()[s] else IsInvalid(c)
  }

  // ---------- Tables ----------

  /** The code of symbol s as the number that its bits are in the stream. */
  function Reversed(lens: seq<nat>, s: nat): nat
    requires s < |lens|
  {
    Joined(CodeBits(lens, s), 0)
  }

  /** The code of s is what index i of a table of `root` bits begins with. */
  predicate Begins(lens: seq<nat>, s: nat, root: nat, i: nat) {
    s < |lens| && 1 <= lens[s] <= root && Low(i, lens[s]) == Reversed(lens, s)
  }

  /** The code of s is longer, and begins with index i. */
  predicate GoesOn(lens: seq<nat>, s: nat, root: nat, i: nat) {
    s < |lens| && lens[s] > root && Low(Reversed(lens, s), root) == i
  }

  /** What is left of the code of s is what index j of a second-level table of m bits begins with. */
  predicate Ends(lens: seq<nat>, s: nat, root: nat, m: nat, j: nat) {
    s < |lens| && root < lens[s] <= root + m && Low(j, lens[s] - root) == Drop(Reversed(lens, s), root)
  }

  /** Entry i points to a second-level table: 0000tttt, with tttt index bits. */
  predicate IsLinkTo(t: seq<Code>, root: nat, i: nat) {
    i < |t| && 1 <= t[i].op <= 15 && t[i].bits == root && root + t[i].op <= 15 && t[i].val + Pow2(t[i].op) <= |t|
  }

  /** Entry j of the second-level table behind entry i. */
  ghost predicate SubEntry(t: seq<Code>, root: nat, kind: Kind, lens: seq<nat>, i: nat, j: nat)
    requires IsLinkTo(t, root, i) && j < Pow2(t[i].op)
  {
    var e := t[t[i].val + j];
    && (forall s: nat :: GoesOn(lens, s, root, i) && Ends(lens, s, root, t[i].op, j) ==> IsEntry(e, kind, s) && e.bits == lens[s] - root)
    && ((forall s: nat :: GoesOn(lens, s, root, i) ==> !Ends(lens, s, root, t[i].op, j)) ==> e.op == 64 && e.bits <= t[i].op)
  }

  /**
   * Entry i of the first-level table: that of the symbol whose code the index begins with, or a link to a second-level
   * table for the codes that go on, or a mark that no code begins like this.
   */
  ghost predicate RootEntry(t: seq<Code>, root: nat, kind: Kind, lens: seq<nat>, i: nat)
    requires i < |t|
  {
    && (forall s: nat :: Begins(lens, s, root, i) ==> IsEntry(t[i], kind, s) && t[i].bits == lens[s])
    && ((exists s: nat :: GoesOn(lens, s, root, i)) ==>
          && IsLinkTo(t, root, i)
          && (forall s: nat :: GoesOn(lens, s, root, i) ==> lens[s] <= root + t[i].op)
          && forall j :: 0 <= j < Pow2(t[i].op) ==> SubEntry(t, root, kind, lens, i, j))
    && ((forall s: nat :: !Begins(lens, s, root, i) && !GoesOn(lens, s, root, i)) ==> t[i].op == 64 && t[i].bits <= 15)
  }

  /** A table of `root` bits for these code lengths. */
  ghost predicate IsTable(t: seq<Code>, root: nat, kind: Kind, lens: seq<nat>) {
    && 1 <= root <= 15 && Pow2(root) <= |t| && CodeLengths(lens)
    && forall i :: 0 <= i < Pow2(root) ==> RootEntry(t, root, kind, lens, i)
  }

  // ---------- Such tables are valid ----------

  /** The library's bases and extra bits are those of section 3.2.5 of RFC 1951. */
  lemma LengthTables(i: nat)
    requires i < 29
    ensures LBase()[i] == LengthBase(i) && LExt()[i] == 16 + LengthExtra(i) && LengthExtra(i) <= 5
  {
    hide Pow2;
    SmallPowers();
  }

  lemma DistanceTables(j: nat)
    requires j < 30
    ensures DBase()[j] == DistanceBase(j) && DExt()[j] == 16 + DistanceExtra(j) && DistanceExtra(j) <= 13
  {
    hide Pow2;
    SmallPowers();
    MorePowers();
  }

  lemma MorePowers()
    ensures Pow2(6) == 64 && Pow2(7) == 128 && Pow2(8) == 256 && Pow2(9) == 512 && Pow2(10) == 1024
    ensures Pow2(11) == 2048 && Pow2(12) == 4096 && Pow2(13) == 8192
  {
    assert Pow2(5) == 32;
  }

  lemma EntryIsLeaf(c: Code, kind: Kind, s: nat, limit: int)
    requires IsEntry(c, kind, s) && c.bits <= limit
    ensures ValidLeaf(c, limit, kind)
  {
    hide Pow2, LBase, LExt, DBase, DExt, LengthBase, LengthExtra, DistanceBase, DistanceExtra;
    if kind.Lengths? && 257 <= s < 286 {
      LengthTables(s - 257);
      LengthEnds(s - 257);
    }
    if kind.Distances? && s < 30 {
      DistanceTables(s);
      DistanceStarts(s);
    }
  }

  lemma LengthEnds(i: nat)
    requires i < 29
    ensures 3 <= LengthBase(i) && LengthBase(i) + Pow2(LengthExtra(i)) - 1 <= 258
  {
    hide Pow2;
    SmallPowers();
  }

  lemma DistanceStarts(j: nat)
    ensures 1 <= DistanceBase(j)
  {
    hide Pow2;
  }

  lemma MarkIsLeaf(c: Code, kind: Kind, limit: int)
    requires c.op == 64 && c.bits <= limit
    ensures ValidLeaf(c, limit, kind)
  {
  }

  lemma SubEntryIsLeaf(t: seq<Code>, root: nat, kind: Kind, lens: seq<nat>, i: nat, j: nat)
    requires IsLinkTo(t, root, i) && j < Pow2(t[i].op) && SubEntry(t, root, kind, lens, i, j)
    ensures ValidLeaf(t[t[i].val + j], 15 - root, kind)
  {
    hide IsEntry, ValidLeaf, Reversed, Low, Drop, Pow2;
    var e := t[t[i].val + j];
    if s: nat :| GoesOn(lens, s, root, i) && Ends(lens, s, root, t[i].op, j) {
      EntryIsLeaf(e, kind, s, 15 - root);
    } else {
      MarkIsLeaf(e, kind, 15 - root);
    }
  }

  lemma LinkIsLink(t: seq<Code>, root: nat, i: nat, kind: Kind)
    requires IsLinkTo(t, root, i)
    ensures IsLink(t[i], kind) && t[i].op < 16
  {
  }

  lemma LeafIsNoLink(c: Code, limit: int, kind: Kind)
    requires ValidLeaf(c, limit, kind)
    ensures !IsLink(c, kind) && (limit <= 15 ==> ValidLeaf(c, 15, kind))
  {
  }

  lemma RootEntryIsValid(t: seq<Code>, root: nat, kind: Kind, lens: seq<nat>, i: nat)
    requires IsTable(t, root, kind, lens) && i < Pow2(root)
    ensures ValidEntry(t, t[i], kind)
  {
    hide IsEntry, ValidLeaf, Reversed, Low, Drop, Pow2, SubEntry, IsLink, IsTable, CodeLengths;
    RootOf(t, root, kind, lens, i);
    if s: nat :| Begins(lens, s, root, i) {
      EntryIsLeaf(t[i], kind, s, 15);
      LeafIsNoLink(t[i], 15, kind);
    } else if s: nat :| GoesOn(lens, s, root, i) {
      LinkIsLink(t, root, i, kind);
      forall k | t[i].val <= k < t[i].val + Pow2(t[i].op) ensures ValidLeaf(t[k], 15 - t[i].bits, kind) {
        assert SubEntry(t, root, kind, lens, i, k - t[i].val);
        SubEntryIsLeaf(t, root, kind, lens, i, k - t[i].val);
      }
    } else {
      MarkIsLeaf(t[i], kind, 15);
      LeafIsNoLink(t[i], 15, kind);
    }
  }

  lemma RootOf(t: seq<Code>, root: nat, kind: Kind, lens: seq<nat>, i: nat)
    requires IsTable(t, root, kind, lens) && i < Pow2(root)
    ensures 1 <= root <= 15 && i < |t| && RootEntry(t, root, kind, lens, i)
    ensures forall s :: 0 <= s < |lens| ==> lens[s] <= 15
  {
    hide RootEntry;
  }

  lemma IsTableIsValid(t: seq<Code>, root: nat, kind: Kind, lens: seq<nat>)
    requires IsTable(t, root, kind, lens)
    ensures ValidTable(t, root, kind)
  {
    hide RootEntry, ValidEntry;
    forall i | 0 <= i < Pow2(root) ensures ValidEntry(t, t[i], kind) { RootEntryIsValid(t, root, kind, lens, i); }
  }

  // ---------- Looking up ----------

  /** The bits u begin with the code of s. */
  predicate StartsWith(lens: seq<nat>, s: nat, u: nat) {
    s < |lens| && lens[s] > 0 && Low(u, lens[s]) == Reversed(lens, s)
  }

  lemma LowOfLow(u: nat, m: nat, n: nat)
    requires m <= n
    ensures Low(Low(u, n), m) == Low(u, m)
  {
    hide Pow2;
    Pow2Sum(n - m, m);
    ModOfMod(u, Pow2(n - m), Pow2(m));
  }

  /** A field in the middle can be cut out from either end. */
  lemma DropOfLow(u: nat, m: nat, n: nat)
    requires m <= n
    ensures Drop(Low(u, n), m) == Low(Drop(u, m), n - m)
  {
    hide Pow2, Drop, Low;
    var h, l := Drop(Drop(u, m), n - m), Low(Drop(u, m), n - m);
    Split(u, m);
    Split(Drop(u, m), n - m);
    Pow2Sum(n - m, m);
    Regroup(h, Pow2(n - m), l, Pow2(m));
    Room(l, Pow2(n - m), Low(u, m), Pow2(m));
    Unsplit(h, l * Pow2(m) + Low(u, m), n);
    Unsplit(l, Low(u, m), m);
  }

  /** A short code is found at once. */
  lemma FindShort(t: seq<Code>, root: nat, u: nat, kind: Kind, lens: seq<nat>, s: nat)
    requires IsTable(t, root, kind, lens) && StartsWith(lens, s, u) && lens[s] <= root
    ensures ValidTable(t, root, kind) && Find(t, root, u, kind).1 == lens[s] && IsEntry(Find(t, root, u, kind).0, kind, s)
  {
    hide IsEntry, ValidLeaf, Reversed, Low, Drop, Pow2, SubEntry, IsLink, IsTable, ValidTable, ValidEntry;
    IsTableIsValid(t, root, kind, lens);
    var i := Low(u, root);
    RootOf(t, root, kind, lens, i);
    LowOfLow(u, lens[s], root);
    assert Begins(lens, s, root, i);
    EntryIsLeaf(t[i], kind, s, 15);
    LeafIsNoLink(t[i], 15, kind);
    TableInRange(t, root, kind);
  }

  lemma TableInRange(t: seq<Code>, root: nat, kind: Kind)
    requires ValidTable(t, root, kind)
    ensures Pow2(root) <= |t|
  {
  }

  /** A long one on the second level. */
  lemma FindLong(t: seq<Code>, root: nat, u: nat, kind: Kind, lens: seq<nat>, s: nat)
    requires IsTable(t, root, kind, lens) && StartsWith(lens, s, u) && lens[s] > root
    ensures ValidTable(t, root, kind) && Find(t, root, u, kind).1 == lens[s] && IsEntry(Find(t, root, u, kind).0, kind, s)
  {
    hide IsEntry, ValidLeaf, Reversed, Low, Drop, Pow2, SubEntry, IsLink, IsTable, ValidTable, ValidEntry;
    IsTableIsValid(t, root, kind, lens);
    var i := Low(u, root);
    RootOf(t, root, kind, lens, i);
    LowOfLow(u, root, lens[s]);
    assert GoesOn(lens, s, root, i);
    LinkIsLink(t, root, i, kind);
    var j := Low(Drop(u, root), t[i].op);
    DropOfLow(u, root, lens[s]);
    LowOfLow(Drop(u, root), lens[s] - root, t[i].op);
    assert Ends(lens, s, root, t[i].op, j);
    assert SubEntry(t, root, kind, lens, i, j);
    SubEntrySays(t, root, kind, lens, i, j, s);
    TableInRange(t, root, kind);
  }

  lemma SubEntrySays(t: seq<Code>, root: nat, kind: Kind, lens: seq<nat>, i: nat, j: nat, s: nat)
    requires IsLinkTo(t, root, i) && j < Pow2(t[i].op) && SubEntry(t, root, kind, lens, i, j)
    requires GoesOn(lens, s, root, i) && Ends(lens, s, root, t[i].op, j)
    ensures IsEntry(t[t[i].val + j], kind, s) && t[t[i].val + j].bits == lens[s] - root
  {
    hide IsEntry, Reversed, Low, Drop, Pow2, GoesOn, IsLinkTo;
  }

  /** Whatever its length, the code that the bits begin with is found, and takes its own length. */
  lemma FindsCode(t: seq<Code>, root: nat, u: nat, kind: Kind, lens: seq<nat>, s: nat)
    requires IsTable(t, root, kind, lens) && StartsWith(lens, s, u)
    ensures ValidTable(t, root, kind) && Find(t, root, u, kind).1 == lens[s] && IsEntry(Find(t, root, u, kind).0, kind, s)
  {
    hide IsTable, Reversed, Low;
    if lens[s] <= root { FindShort(t, root, u, kind, lens, s); } else { FindLong(t, root, u, kind, lens, s); }
  }

  /** Bits that begin with no code lead to the mark. */
  lemma FindsMark(t: seq<Code>, root: nat, u: nat, kind: Kind, lens: seq<nat>)
    requires IsTable(t, root, kind, lens) && forall s: nat :: !StartsWith(lens, s, u)
    ensures ValidTable(t, root, kind) && Find(t, root, u, kind).0.op == 64
  {
    hide IsEntry, ValidLeaf, Reversed, Low, Drop, Pow2, SubEntry, IsLink, IsTable, ValidTable, ValidEntry, IsLinkTo;
    IsTableIsValid(t, root, kind, lens);
    TableInRange(t, root, kind);
    var i := Low(u, root);
    RootOf(t, root, kind, lens, i);
    forall s: nat ensures !Begins(lens, s, root, i) {
      if Begins(lens, s, root, i) { ShortCodeStarts(lens, s, root, u); }
    }
    if s: nat :| GoesOn(lens, s, root, i) {
      LinkIsLink(t, root, i, kind);
      var j := Low(Drop(u, root), t[i].op);
      forall s: nat | GoesOn(lens, s, root, i) ensures !Ends(lens, s, root, t[i].op, j) {
        if Ends(lens, s, root, t[i].op, j) { LongCodeStarts(lens, s, root, t[i].op, u); }
      }
      assert SubEntry(t, root, kind, lens, i, j);
      SubEntryMarks(t, root, kind, lens, i, j);
      LinkBits(t, root, i);
    } else {
      MarkIsLeaf(t[i], kind, 15);
      LeafIsNoLink(t[i], 15, kind);
    }
  }

  lemma LinkBits(t: seq<Code>, root: nat, i: nat)
    requires IsLinkTo(t, root, i)
    ensures i < |t| && t[i].bits == root
  {
  }

  lemma SubEntryMarks(t: seq<Code>, root: nat, kind: Kind, lens: seq<nat>, i: nat, j: nat)
    requires IsLinkTo(t, root, i) && j < Pow2(t[i].op) && SubEntry(t, root, kind, lens, i, j)
    requires forall s: nat :: GoesOn(lens, s, root, i) ==> !Ends(lens, s, root, t[i].op, j)
    ensures t[t[i].val + j].op == 64
  {
    hide IsEntry, Reversed, Low, Drop, Pow2, GoesOn, IsLinkTo, Ends;
  }

  lemma ShortCodeStarts(lens: seq<nat>, s: nat, root: nat, u: nat)
    requires Begins(lens, s, root, Low(u, root))
    ensures StartsWith(lens, s, u)
  {
    hide Reversed, Low;
    LowOfLow(u, lens[s], root);
  }

  lemma LongCodeStarts(lens: seq<nat>, s: nat, root: nat, m: nat, u: nat)
    requires GoesOn(lens, s, root, Low(u, root)) && Ends(lens, s, root, m, Low(Drop(u, root), m))
    ensures StartsWith(lens, s, u)
  {
    hide Reversed, Low, Drop, Pow2;
    var n, r := lens[s], Reversed(lens, s);
    LowOfLow(u, root, n);
    DropOfLow(u, root, n);
    LowOfLow(Drop(u, root), n - root, m);
    Split(Low(u, n), root);
    Split(r, root);
  }
}
