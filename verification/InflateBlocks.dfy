/** What inflate makes of the bits of a compressed block, and of bits that are none. */
module InflateBlocks {
  import opened Words
  import opened Powers
  import opened Accumulator
  import opened Lz77
  import opened InflateCodes
  import opened DeflateFormat
  import opened InflateTables
  import opened InflateHistory
  import InflateFast
  import CanonicalHuffman
  import opened Bits

  /** Tables for these code lengths of literals and lengths, and of distances. */
  ghost predicate AreFor(t: Tables, lens: seq<nat>, dists: seq<nat>) {
    IsTable(t.lencode, t.lenbits, Lengths, lens) && IsTable(t.distcode, t.distbits, Distances, dists)
  }

  lemma AreValid(t: Tables, lens: seq<nat>, dists: seq<nat>)
    requires AreFor(t, lens, dists)
    ensures ValidTables(t)
  {
    hide IsTable, ValidTable;
    IsTableIsValid(t.lencode, t.lenbits, Lengths, lens);
    IsTableIsValid(t.distcode, t.distbits, Distances, dists);
  }

  // ---------- What an entry says ----------

  lemma LengthEntry(c: Code, s: nat)
    requires IsEntry(c, Lengths, s)
    ensures s < 256 ==> IsLiteral(c) && c.val == s
    ensures s >= 256 ==> !IsLiteral(c) && (IsBase(c) <==> 257 <= s < 286) && (!IsBase(c) ==> (IsEnd(c) <==> s == 256))
    ensures 257 <= s < 286 ==> Extra(c) == LengthExtra(s - 257) && c.val == LengthBase(s - 257)
  {
    hide LengthExtra, LengthBase, LExt, LBase;
    if 257 <= s < 286 { LengthTables(s - 257); }
  }

  lemma DistanceEntry(c: Code, s: nat)
    requires IsEntry(c, Distances, s)
    ensures IsBase(c) <==> s < 30
    ensures s < 30 ==> Extra(c) == DistanceExtra(s) && c.val == DistanceBase(s)
  {
    hide DistanceExtra, DistanceBase, DExt, DBase;
    if s < 30 { DistanceTables(s); }
  }

  lemma MarkSays(c: Code)
    requires c.op == 64
    ensures !IsLiteral(c) && !IsBase(c) && !IsEnd(c)
  {
  }

  // ---------- The next item ----------

  lemma NextLiteral(t: Tables, lens: seq<nat>, dists: seq<nat>, u: nat, s: nat)
    requires AreFor(t, lens, dists) && StartsWith(lens, s, u) && s < 256
    ensures ValidTables(t) && Next(t, u) == (Symbol(Literal(s)), lens[s])
  {
    hide IsTable, ValidTables, StartsWith, Find, IsLiteral, IsBase, IsEnd, Extra, IsEntry;
    AreValid(t, lens, dists);
    FindsCode(t.lencode, t.lenbits, u, Lengths, lens, s);
    LengthEntry(Find(t.lencode, t.lenbits, u, Lengths).0, s);
  }

  /** The end of the block is found exactly when its code comes next. */
  lemma NextEnd(t: Tables, lens: seq<nat>, dists: seq<nat>, u: nat)
    requires AreFor(t, lens, dists) && StartsWith(lens, 256, u)
    ensures ValidTables(t) && Next(t, u) == (EndOfBlock, lens[256])
  {
    hide IsTable, ValidTables, StartsWith, Find, IsLiteral, IsBase, IsEnd, Extra, IsEntry;
    AreValid(t, lens, dists);
    FindsCode(t.lencode, t.lenbits, u, Lengths, lens, 256);
    LengthEntry(Find(t.lencode, t.lenbits, u, Lengths).0, 256);
  }

  /** No code, or one without a meaning. */
  lemma NextBadLength(t: Tables, lens: seq<nat>, dists: seq<nat>, u: nat)
    requires AreFor(t, lens, dists) && forall s: nat :: StartsWith(lens, s, u) ==> s >= 286
    ensures ValidTables(t) && Next(t, u).0 == BadLength
  {
    hide IsTable, ValidTables, StartsWith, Find, IsLiteral, IsBase, IsEnd, Extra, IsEntry;
    AreValid(t, lens, dists);
    if s: nat :| StartsWith(lens, s, u) {
      FindsCode(t.lencode, t.lenbits, u, Lengths, lens, s);
      LengthEntry(Find(t.lencode, t.lenbits, u, Lengths).0, s);
    } else {
      FindsMark(t.lencode, t.lenbits, u, Lengths, lens);
      MarkSays(Find(t.lencode, t.lenbits, u, Lengths).0);
    }
  }

  lemma LengthFound(t: Tables, lens: seq<nat>, dists: seq<nat>, u: nat, i: nat)
    requires AreFor(t, lens, dists) && i < 29 && 257 + i < |lens| && StartsWith(lens, 257 + i, u)
    ensures ValidTable(t.lencode, t.lenbits, Lengths)
    ensures var c := Find(t.lencode, t.lenbits, u, Lengths).0; !IsLiteral(c) && IsBase(c) && Extra(c) == LengthExtra(i) && c.val == LengthBase(i)
    ensures Find(t.lencode, t.lenbits, u, Lengths).1 == lens[257 + i]
  {
    hide IsTable, ValidTable, StartsWith, Find, IsLiteral, IsBase, IsEnd, Extra, IsEntry, LengthBase, LengthExtra;
    FindsCode(t.lencode, t.lenbits, u, Lengths, lens, 257 + i);
    LengthEntry(Find(t.lencode, t.lenbits, u, Lengths).0, 257 + i);
  }

  /** A length goes on with a distance. */
  lemma NextLength(t: Tables, lens: seq<nat>, dists: seq<nat>, u: nat, i: nat)
    requires AreFor(t, lens, dists) && i < 29 && 257 + i < |lens| && StartsWith(lens, 257 + i, u)
    ensures ValidTables(t) && lens[257 + i] <= 15 && LengthExtra(i) <= 5
    ensures Next(t, u) == NextDistance(t, u, LengthBase(i) + Low(Drop(u, lens[257 + i]), LengthExtra(i)), lens[257 + i] + LengthExtra(i))
  {
    hide IsTable, ValidTables, StartsWith, Find, IsLiteral, IsBase, IsEnd, Extra, IsEntry, NextDistance, LengthBase, LengthExtra, Low, Drop, Pow2;
    AreValid(t, lens, dists);
    LengthTables(i);
    LengthFound(t, lens, dists, u, i);
  }

  lemma DistanceFound(t: Tables, lens: seq<nat>, dists: seq<nat>, u: nat, length: nat, n: nat, j: nat)
    requires AreFor(t, lens, dists) && n <= 20 && StartsWith(dists, j, Drop(u, n)) && j < 30
    ensures ValidTables(t)
    ensures NextDistance(t, u, length, n) ==
            (Symbol(Match(length, DistanceBase(j) + Low(Drop(u, n + dists[j]), DistanceExtra(j)))), n + dists[j] + DistanceExtra(j))
  {
    hide IsTable, ValidTables, StartsWith, Find, IsLiteral, IsBase, IsEnd, Extra, IsEntry, DistanceBase, DistanceExtra, Low, Drop;
    AreValid(t, lens, dists);
    FindsCode(t.distcode, t.distbits, Drop(u, n), Distances, dists, j);
    DistanceEntry(Find(t.distcode, t.distbits, Drop(u, n), Distances).0, j);
  }

  /** No distance symbol with a meaning comes next. */
  ghost predicate NoDistance(dists: seq<nat>, u: nat) {
    forall j: nat :: StartsWith(dists, j, u) ==> j >= 30
  }

  lemma DistanceNotFound(t: Tables, lens: seq<nat>, dists: seq<nat>, u: nat, length: nat, n: nat)
    requires AreFor(t, lens, dists) && n <= 20 && NoDistance(dists, Drop(u, n))
    ensures ValidTables(t) && NextDistance(t, u, length, n).0 == BadDistance
  {
    hide IsTable, ValidTables, StartsWith, Find, IsLiteral, IsBase, IsEnd, Extra, IsEntry, DistanceBase, DistanceExtra, Low, Drop;
    AreValid(t, lens, dists);
    if j: nat :| StartsWith(dists, j, Drop(u, n)) {
      FindsCode(t.distcode, t.distbits, Drop(u, n), Distances, dists, j);
      DistanceEntry(Find(t.distcode, t.distbits, Drop(u, n), Distances).0, j);
    } else {
      FindsMark(t.distcode, t.distbits, Drop(u, n), Distances, dists);
      MarkSays(Find(t.distcode, t.distbits, Drop(u, n), Distances).0);
    }
  }

  /** Bits whose distance has no code, or one without a meaning. */
  lemma NextBadDistance(t: Tables, lens: seq<nat>, dists: seq<nat>, u: nat, i: nat)
    requires AreFor(t, lens, dists) && i < 29 && 257 + i < |lens| && StartsWith(lens, 257 + i, u)
    requires NoDistance(dists, Drop(u, lens[257 + i] + LengthExtra(i)))
    ensures ValidTables(t) && Next(t, u).0 == BadDistance
  {
    hide AreFor, ValidTables, StartsWith, Next, NextDistance, LengthBase, LengthExtra, Low, Drop, NoDistance;
    var n := lens[257 + i] + LengthExtra(i);
    NextLength(t, lens, dists, u, i);
    DistanceNotFound(t, lens, dists, u, LengthBase(i) + Low(Drop(u, lens[257 + i]), LengthExtra(i)), n);
  }

  // ---------- Bits that have been written ----------

  lemma CodeComes(lens: seq<nat>, s: nat, x: nat)
    requires s < |lens| && lens[s] > 0
    ensures StartsWith(lens, s, Joined(CodeBits(lens, s), x)) && Drop(Joined(CodeBits(lens, s), x), lens[s]) == x
  {
    hide Pow2, CodeBits, Joined, Low, Drop;
    JoinedSplit(CodeBits(lens, s), x);
    Unsplit(x, Joined(CodeBits(lens, s), 0), lens[s]);
  }

  lemma ExtraComes(v: nat, n: nat, x: nat)
    requires v < Pow2(n)
    ensures Low(Joined(LowestFirst(v, n), x), n) == v && Drop(Joined(LowestFirst(v, n), x), n) == x
  {
    hide Pow2, Joined, LowestFirst, Low, Drop;
    JoinedLowest(v, n);
    JoinedSplit(LowestFirst(v, n), x);
    Unsplit(x, v, n);
  }

  /** A length and a distance that have been written are read as the match they are. */
  lemma PairIsNext(t: Tables, lens: seq<nat>, dists: seq<nat>, i: nat, e: nat, j: nat, f: nat, x: nat)
    requires AreFor(t, lens, dists) && i < 29 && 257 + i < |lens| && lens[257 + i] > 0 && e < Pow2(LengthExtra(i))
    requires j < 30 && j < |dists| && dists[j] > 0 && f < Pow2(DistanceExtra(j))
    ensures var u := Joined(CodeBits(lens, 257 + i), Joined(LowestFirst(e, LengthExtra(i)), Joined(CodeBits(dists, j), Joined(LowestFirst(f, DistanceExtra(j)), x))));
            var n := lens[257 + i] + LengthExtra(i) + dists[j] + DistanceExtra(j);
            ValidTables(t) && Next(t, u) == (Symbol(Match(LengthBase(i) + e, DistanceBase(j) + f)), n) && Drop(u, n) == x
  {
    hide AreFor, ValidTables, StartsWith, Next, NextDistance, Low, Drop, Joined, LowestFirst, CodeBits, Pow2;
    hide LengthBase, LengthExtra, DistanceBase, DistanceExtra;
    var u3 := Joined(LowestFirst(f, DistanceExtra(j)), x);
    var u2 := Joined(CodeBits(dists, j), u3);
    var u1 := Joined(LowestFirst(e, LengthExtra(i)), u2);
    var u := Joined(CodeBits(lens, 257 + i), u1);
    var n1 := lens[257 + i];
    var n2 := n1 + LengthExtra(i);
    CodeComes(lens, 257 + i, u1);
    ExtraComes(e, LengthExtra(i), u2);
    CodeComes(dists, j, u3);
    ExtraComes(f, DistanceExtra(j), x);
    DropTwice(u, n1, LengthExtra(i));
    DropTwice(u, n2, dists[j]);
    DropTwice(u, n2 + dists[j], DistanceExtra(j));
    NextLength(t, lens, dists, u, i);
    DistanceFound(t, lens, dists, u, LengthBase(i) + e, n2, j);
  }

  /** A token that has been written is the next item, whatever comes after it. */
  lemma TokenIsNext(t: Tables, lens: seq<nat>, dists: seq<nat>, token: Token, x: nat)
    requires AreFor(t, lens, dists) && HasCode(lens, dists, token)
    ensures var s := TokenBits(lens, dists, token); var u := Joined(s, x);
            ValidTables(t) && Next(t, u) == (Symbol(token), |s|) && Drop(u, |s|) == x
  {
    hide AreFor, ValidTables, StartsWith, Next, Drop, Joined, LowestFirst, CodeBits, Pow2;
    hide LengthBase, LengthExtra, DistanceBase, DistanceExtra, LengthIndex, DistanceIndex;
    match token
    case Literal(c) =>
      CodeComes(lens, c, x);
      NextLiteral(t, lens, dists, Joined(CodeBits(lens, c), x), c);
    case Match(length, distance) =>
      IndexInRange(length, distance);
      var i, j := LengthIndex(length, 28), DistanceIndex(distance, 29);
      var a, b := CodeBits(lens, 257 + i), LowestFirst(length - LengthBase(i), LengthExtra(i));
      var c, d := CodeBits(dists, j), LowestFirst(distance - DistanceBase(j), DistanceExtra(j));
      PairIsNext(t, lens, dists, i, length - LengthBase(i), j, distance - DistanceBase(j), x);
      JoinedConcat(a + b + c, d, x);
      JoinedConcat(a + b, c, Joined(d, x));
      JoinedConcat(a, b, Joined(c, Joined(d, x)));
  }

  // ---------- Blocks ----------

  ghost predicate AllHaveCodes(lens: seq<nat>, dists: seq<nat>, tokens: seq<Token>) {
    |lens| > 256 && lens[256] > 0 && forall i :: 0 <= i < |tokens| ==> HasCode(lens, dists, tokens[i])
  }

  /** The item after k more items of the rest of a stream. */
  lemma AfterFirst(t: Tables, u: nat, k: nat)
    requires ValidTables(t)
    ensures var n := Next(t, u).1; Taken(t, u, k + 1) == n + Taken(t, Drop(u, n), k) && ItemAt(t, u, k + 1) == ItemAt(t, Drop(u, n), k)
  {
    hide ValidTables, Next, Drop, Output;
    FirstTaken(t, u);
    OutputGoesOn(t, u, [], 1, k);
  }

  lemma FirstTaken(t: Tables, u: nat)
    requires ValidTables(t)
    ensures Taken(t, u, 0) == 0 && Taken(t, u, 1) == Next(t, u).1 && ItemAt(t, u, 0) == Next(t, u).0
  {
    hide ValidTables, Next;
    DropNone(u);
  }

  /**
   * The bits of a block are read as its tokens one by one and then its end, and take as many bits as were written,
   * whatever comes after them.
   */
  lemma {:induction false} BlockIsRead(t: Tables, lens: seq<nat>, dists: seq<nat>, tokens: seq<Token>, x: nat)
    requires AreFor(t, lens, dists) && AllHaveCodes(lens, dists, tokens)
    ensures var s := BlockBits(lens, dists, tokens); var u := Joined(s, x);
            && ValidTables(t)
            && (forall i :: 0 <= i < |tokens| ==> ItemAt(t, u, i) == Symbol(tokens[i]))
            && ItemAt(t, u, |tokens|) == EndOfBlock && Taken(t, u, |tokens| + 1) == |s|
    decreases |tokens|
  {
    hide AreFor, ValidTables, StartsWith, Next, Drop, Joined, CodeBits, TokenBits, HasCode, ItemAt, Taken;
    var s := BlockBits(lens, dists, tokens);
    var u := Joined(s, x);
    if tokens == [] {
      CodeComes(lens, 256, x);
      NextEnd(t, lens, dists, u);
      FirstTaken(t, u);
    } else {
      var first, rest := TokenBits(lens, dists, tokens[0]), BlockBits(lens, dists, tokens[1..]);
      BlockIsRead(t, lens, dists, tokens[1..], x);
      JoinedConcat(first, rest, x);
      TokenIsNext(t, lens, dists, tokens[0], Joined(rest, x));
      FirstTaken(t, u);
      forall i | 0 <= i < |tokens| ensures ItemAt(t, u, i) == Symbol(tokens[i]) {
        if i > 0 { AfterFirst(t, u, i - 1); }
      }
      AfterFirst(t, u, |tokens| - 1);
      AfterFirst(t, u, |tokens|);
    }
  }

  // ---------- What the blocks stand for ----------

  /** After tokens whose expansion is the history, the items of a block append what its tokens expand to. */
  lemma {:induction false} BlockExpands(t: Tables, lens: seq<nat>, dists: seq<nat>, before: seq<Token>, tokens: seq<Token>, x: nat, n: nat)
    requires AreFor(t, lens, dists) && AllHaveCodes(lens, dists, tokens) && n <= |tokens|
    ensures ValidTables(t) && Output(t, Joined(BlockBits(lens, dists, tokens), x), Expand(before), n) == Expand(before + tokens[..n])
  {
    hide AreFor, ValidTables, AllHaveCodes, BlockBits, Joined, ItemAt, ExpandToken;
    BlockIsRead(t, lens, dists, tokens, x);
    if n == 0 {
      assert before + tokens[..0] == before;
    } else {
      BlockExpands(t, lens, dists, before, tokens, x, n - 1);
      var all := before + tokens[..n];
      assert all[..|all| - 1] == before + tokens[..n - 1];
    }
  }

  /** And when the tokens are allowed, every item can be carried out, with no distance beyond the limit. */
  lemma BlockIsRegular(t: Tables, lens: seq<nat>, dists: seq<nat>, before: seq<Token>, tokens: seq<Token>, x: nat, maxDist: nat)
    requires AreFor(t, lens, dists) && AllHaveCodes(lens, dists, tokens) && AllAllowed(before + tokens, maxDist)
    ensures ValidTables(t) && Regular(t, Joined(BlockBits(lens, dists, tokens), x), Expand(before), |tokens|)
    ensures Near(t, Joined(BlockBits(lens, dists, tokens), x), |tokens|, maxDist)
  {
    hide AreFor, ValidTables, HasCode, BlockBits, Joined, ItemAt, Reaches, Allowed, Output, Expand, AllAllowed;
    BlockIsRead(t, lens, dists, tokens, x);
    var u := Joined(BlockBits(lens, dists, tokens), x);
    forall i | 0 <= i < |tokens| ensures Reaches(ItemAt(t, u, i), Output(t, u, Expand(before), i)) && NearItem(ItemAt(t, u, i), maxDist) {
      BlockExpands(t, lens, dists, before, tokens, x, i);
      TokenAllowed(before, tokens, i, maxDist);
      AllowedReaches(tokens[i], Expand(before + tokens[..i]), maxDist);
    }
  }

  predicate NearItem(item: Item, maxDist: nat) { item.Symbol? && item.token.Match? ==> item.token.distance <= maxDist }

  lemma AllowedReaches(token: Token, h: seq<byte>, maxDist: nat)
    requires Allowed(token, |h|, maxDist)
    ensures Reaches(Symbol(token), h) && NearItem(Symbol(token), maxDist)
  {
  }

  lemma TokenAllowed(before: seq<Token>, tokens: seq<Token>, i: nat, maxDist: nat)
    requires i < |tokens| && AllAllowed(before + tokens, maxDist)
    ensures Allowed(tokens[i], |Expand(before + tokens[..i])|, maxDist)
  {
    hide Expand, Allowed;
    var all := before + tokens;
    assert all[|before| + i] == tokens[i] && all[..|before| + i] == before + tokens[..i];
    assert Allowed(all[|before| + i], |Expand(all[..|before| + i])|, maxDist);
  }

  lemma RegularAt(t: Tables, u: nat, h: seq<byte>, n: nat, i: nat)
    requires ValidTables(t) && i < n && Regular(t, u, h, n)
    ensures Reaches(ItemAt(t, u, i), Output(t, u, h, i))
  {
    hide ValidTables, ItemAt, Output, Reaches;
  }

  /**
   * A call of inflate_fast on the bits of a block: it never finds an error, it appends the expansion of the tokens it has
   * taken, and it stops with mode TYPE exactly at the end of the block, all of whose bits have then been used.
   */
  lemma BlockIsDecoded(t: Tables, lens: seq<nat>, dists: seq<nat>, before: seq<Token>, tokens: seq<Token>, x: nat, maxDist: nat,
                       n: nat, mode: InflateFast.Mode, h: seq<byte>, taken: nat)
    requires AreFor(t, lens, dists) && AllHaveCodes(lens, dists, tokens) && AllAllowed(before + tokens, maxDist)
    requires ValidTables(t) && InflateFast.Decoded(t, Joined(BlockBits(lens, dists, tokens), x), Expand(before), n, mode, h, taken)
    ensures n <= |tokens| && h == Expand(before + tokens[..n]) && mode != InflateFast.BAD
    ensures mode == InflateFast.TYPE ==> n == |tokens| && taken == |BlockBits(lens, dists, tokens)|
  {
    hide AreFor, ValidTables, HasCode, BlockBits, Joined, ItemAt, ExpandToken, Output, Expand, Taken, AllAllowed;
    var u := Joined(BlockBits(lens, dists, tokens), x);
    BlockIsRead(t, lens, dists, tokens, x);
    BlockIsRegular(t, lens, dists, before, tokens, x, maxDist);
    if n > |tokens| {
      RegularAt(t, u, Expand(before), n, |tokens|);
    }
    BlockExpands(t, lens, dists, before, tokens, x, n);
    if n < |tokens| { assert Reaches(ItemAt(t, u, n), Output(t, u, Expand(before), n)); }
  }

  // ---------- Such tables exist ----------

  /** No code is the beginning of another. */
  ghost predicate PrefixFree(lens: seq<nat>) {
    forall s: nat, s': nat ::
      s < |lens| && s' < |lens| && lens[s] > 0 && lens[s'] > 0 && CodeBits(lens, s) <= CodeBits(lens, s') ==> s == s'
  }

  function EntryFor(kind: Kind, s: nat, bits: byte): (c: Code)
    ensures IsEntry(c, kind, s) && c.bits == bits
  {
    match kind
    case Lengths =>
      if s < 256 then Code(0, bits, s)
      else if s == 256 then Code(96, bits, 0)
      else if s < 286 then Code(LExt()[s - 257], bits, LBase()[s - 257])
      else Code(64, bits, 0)
    case Distances =>
      if s < 30 then Code(DExt()[s], bits, DBase()[s]) else Code(64, bits, 0)
  }

  /** The entry for an index of fifteen bits. */
  ghost function EntryAt(lens: seq<nat>, kind: Kind, i: nat): (c: Code)
    ensures (exists s: nat :: Begins(lens, s, 15, i)) ==> exists s: nat :: Begins(lens, s, 15, i) && IsEntry(c, kind, s) && c.bits == lens[s]
    ensures !(exists s: nat :: Begins(lens, s, 15, i)) ==> c == Code(64, 1, 0)
  {
    if s: nat :| Begins(lens, s, 15, i) then EntryFor(kind, s, lens[s]) else Code(64, 1, 0)
  }

  lemma {:induction false} SameLowBits(a: seq<bool>, b: seq<bool>, x: nat, y: nat)
    requires |a| <= |b| && Joined(a, x) == Joined(b, y)
    ensures a <= b
    decreases |a|
  {
    if a != [] {
      SameLowBits(a[1..], b[1..], x, y);
      assert a == [a[0]] + a[1..] && b == [b[0]] + b[1..];
    }
  }

  /** Two codes that the same index begins with are the same. */
  lemma OneBegins(lens: seq<nat>, s: nat, s': nat, i: nat)
    requires PrefixFree(lens) && Begins(lens, s, 15, i) && Begins(lens, s', 15, i)
    ensures s == s'
  {
    hide Joined, Low, CodeBits, Pow2;
    BeginsJoined(lens, s, i);
    BeginsJoined(lens, s', i);
    if lens[s] <= lens[s'] {
      SameLowBits(CodeBits(lens, s), CodeBits(lens, s'), Drop(i, lens[s]), Drop(i, lens[s']));
    } else {
      SameLowBits(CodeBits(lens, s'), CodeBits(lens, s), Drop(i, lens[s']), Drop(i, lens[s]));
    }
  }

  lemma BeginsJoined(lens: seq<nat>, s: nat, i: nat)
    requires Begins(lens, s, 15, i)
    ensures i == Joined(CodeBits(lens, s), Drop(i, lens[s]))
  {
    hide Joined, Low, CodeBits, Pow2, Drop;
    Split(i, lens[s]);
    JoinedSplit(CodeBits(lens, s), Drop(i, lens[s]));
    Commute(Drop(i, lens[s]), Pow2(lens[s]));
  }

  /** For every prefix-free code there is a table, of one level if need be. */
  lemma TableExists(lens: seq<nat>, kind: Kind)
    requires CodeLengths(lens) && PrefixFree(lens)
    ensures exists t :: IsTable(t, 15, kind, lens)
  {
    hide PrefixFree, Begins, IsEntry;
    ghost var t := seq<Code>(Pow2(15), i requires 0 <= i < Pow2(15) => EntryAt(lens, kind, i));
    forall i: nat | i < Pow2(15) ensures RootEntry(t, 15, kind, lens, i) { OneLevel(t, lens, kind, i); }
    assert IsTable(t, 15, kind, lens);
  }

  lemma OneLevel(t: seq<Code>, lens: seq<nat>, kind: Kind, i: nat)
    requires CodeLengths(lens) && PrefixFree(lens) && i < |t| && t[i] == EntryAt(lens, kind, i)
    ensures RootEntry(t, 15, kind, lens, i)
  {
    hide PrefixFree, Reversed, Low, IsEntry, EntryAt;
    forall s: nat | Begins(lens, s, 15, i) ensures IsEntry(t[i], kind, s) && t[i].bits == lens[s] {
      var s': nat :| Begins(lens, s', 15, i) && IsEntry(t[i], kind, s') && t[i].bits == lens[s'];
      OneBegins(lens, s, s', i);
    }
  }

  /** One literal, the end of the block and one distance, each with a code of one bit. */
  function SmallLengths(): (s: seq<nat>)
    ensures |s| == 257
  {
    seq<nat>(257, s => if s == 0 || s == 256 then 1 else 0)
  }

  lemma {:induction false} OneBefore(m: nat)
    requires 1 <= m <= 256
    ensures CanonicalHuffman.OfLength(SmallLengths(), 1, m) == 1
  {
    if m > 1 { OneBefore(m - 1); }
  }

  lemma SmallCodes()
    ensures CodeBits(SmallLengths(), 0) == [false] && CodeBits(SmallLengths(), 256) == [true] && CodeBits([1], 0) == [false]
  {
    OneBefore(256);
    assert ToBits(0, 1) == [false] && ToBits(1, 1) == [true];
  }

  lemma NotPrefixes()
    ensures !([false] <= [true]) && !([true] <= [false])
  {
    assert [false][0] != [true][0];
  }

  lemma TablesExist()
    ensures exists t: Tables :: AreFor(t, SmallLengths(), [1])
    ensures AllHaveCodes(SmallLengths(), [1], [Literal(0)])
  {
    hide CodeBits, IsTable;
    SmallCodes();
    NotPrefixes();
    TableExists(SmallLengths(), Lengths);
    TableExists([1], Distances);
    var t :| IsTable(t, 15, Lengths, SmallLengths());
    var d :| IsTable(d, 15, Distances, [1]);
    assert AreFor(Tables(t, 15, d, 15), SmallLengths(), [1]);
  }
}
