/** Deflate's fast and lazy match selection; the tokens always expand to the input. */
module Deflate {
  import opened Words
  import opened RollingHash
  import opened HashChains
  import opened Lz77
  import opened SymbolBuffer
  import opened DeflateWindow
  import opened MatchChoice
  import opened SearchMeaning

  const TOO_FAR := 4096

  datatype Flush = NoFlush | BlockFlush | Finish
  datatype BlockState = NeedMore | BlockDone | FinishStarted | FinishDone

  /** Equal stretches of the window are equal stretches of the input. */
  lemma OccursInInput(window: seq<byte>, all: seq<byte>, base: nat, n: nat, start: int, strstart: nat, length: nat)
    requires Holds(window, all, base, n) && Agree(window, start, strstart, length) && 0 <= start < strstart && strstart + length <= n
    ensures base + strstart + length <= |all|
    ensures forall i {:trigger all[i]} :: base + strstart <= i < base + strstart + length ==> all[i] == all[i - (strstart - start)]
  {
    forall i {:trigger all[i]} | base + strstart <= i < base + strstart + length ensures all[i] == all[i - (strstart - start)] {
      var k := i - base - strstart;
      assert window[start + k] == window[strstart + k];
      assert window[strstart + k] == all[base + (strstart + k)] && window[start + k] == all[base + (start + k)];
    }
  }

  class Deflater {
    const win: Window
    const syms: Symbols
    const config: Config
    const filtered: bool        // strategy is Z_FILTERED
    var matchLength: nat
    var prevLength: nat
    var prevMatch: int
    var matchAvailable: bool
    ghost var log: Log          // the searches behind the tokens

    constructor (wSize: nat, hash: HashSpec, litBufsize: nat, config: Config, filtered: bool)
      requires 512 <= wSize <= 32768 && hash.Good() && litBufsize >= 2 && config.maxChain >= 4
      ensures Valid() && fresh(win) && fresh(win.window) && fresh(win.dict) && fresh(win.dict.head) && fresh(win.dict.prev) && fresh(syms) && fresh(syms.symBuf)
      ensures !matchAvailable && matchLength == prevLength == MIN_MATCH - 1 && Greedily() && Lazily()
      ensures this.config == config && this.filtered == filtered && win.wSize == wSize && win.dict.hash == hash
      ensures win.all == [] && win.nextIn == [] && syms.tokens == []
    {
      win := new Window(wSize, hash);
      syms := new Symbols(litBufsize);
      this.config, this.filtered := config, filtered;
      matchLength, prevLength, prevMatch, matchAvailable := MIN_MATCH - 1, MIN_MATCH - 1, 0, false;
      log := Log([], [], Look(0, 0, 0, {}, 0, [], 0, 0));
    }

    ghost function Repr(): set<object> {
      win.Repr() + {syms, syms.symBuf}
    }

    ghost predicate Apart() {
      syms.symBuf !in {win.window} && config.maxChain >= 4
    }

    /** The tokens tallied stand for the input up to position n. */
    ghost predicate Coded(n: int)
      reads win`all, syms`tokens
    {
      && 0 <= n <= |win.all| && Expand(syms.tokens) == win.all[..n]
      && win.MaxDist() >= 0 && AllAllowed(syms.tokens, win.MaxDist())
    }

    /** The input position of the next byte that no token stands for yet. */
    ghost function Done(): int
      reads this`matchAvailable, win`base, win`strstart
    {
      win.base + win.strstart - if matchAvailable then 1 else 0
    }

    /** A match found for the string at input position q, with its start as a window position. */
    ghost predicate Found(q: int, start: int, length: nat)
      reads win`all, win`base
    {
      && length <= MAX_MATCH && 0 <= win.base + start < q <= q + length <= |win.all| && q - (win.base + start) <= win.MaxDist()
      && forall i {:trigger win.all[i]} :: q <= i < q + length ==> win.all[i] == win.all[i - (q - (win.base + start))]
    }

    ghost function SetUp(lazy: bool): Setup {
      Setup(win.dict.hash, win.wSize, config, filtered, lazy)
    }

    /** Without lazy evaluation, the tokens are the choices of the searches logged. */
    ghost predicate Greedily()
      reads this`log, win`all, win.dict`inserted, syms`tokens
    {
      GreedyLog(SetUp(false), win.all, syms.tokens, log.looks, win.dict.inserted)
    }

    /** And with lazy evaluation. */
    ghost predicate Lazily()
      reads this`log, this`matchAvailable, this`matchLength, win`all, win`base, win`matchStart, win.dict`inserted, syms`tokens
    {
      LazyLog(SetUp(true), win.all, syms.tokens, log, win.dict.inserted, matchAvailable, if matchAvailable then matchLength else 2,
              if matchAvailable then win.base + win.matchStart else 0)
    }

    ghost predicate Valid()
      reads this`matchAvailable, win`base, win`strstart, win`all, win`lookahead, win`insert, win.window, win.dict, win.dict.head, win.dict.prev, syms, syms.symBuf
    {
      Apart() && win.Kept() && syms.Valid() && Coded(Done())
    }

    /** The application supplies further input. */
    method Supply(bytes: seq<byte>)
      requires Valid()
      modifies win`nextIn
      ensures Valid() && win.nextIn == old(win.nextIn) + bytes
    {
      win.nextIn := win.nextIn + bytes;
    }

    /** FLUSH_BLOCK: the block's tokens go to the encoder; false when the output has no more room. */
    method FlushBlock() returns (room: bool)
      requires syms.Held() && syms.symEnd > 0 && syms.symEnd + 3 <= syms.symBuf.Length && syms.symEnd % 3 == 0
      modifies syms`symNext, syms`flushed
      ensures syms.Valid() && syms.tokens == old(syms.tokens) && syms.flushed == |syms.tokens|
    {
      ghost var block := syms.Drain();
      room := *;
    }

    /** One token after position n. */
    lemma CodedOne(before: seq<Token>, t: Token, n: nat, n': nat)
      requires n <= |win.all| && Expand(before) == win.all[..n] && win.MaxDist() >= 0 && AllAllowed(before, win.MaxDist())
      requires Describes(win.all, n, t, n') && Allowed(t, n, win.MaxDist()) && syms.tokens == before + [t]
      ensures Coded(n')
    {
      hide Expand, AllAllowed, Describes, Allowed;
      assert Describes(win.all, n, t, n') ==> 0 <= n' <= |win.all| by { DescribesInside(win.all, n, t, n'); }
      ExpandOneMore(win.all, before, t, n, n');
      AllowedOneMore(win.all, before, t, n, win.MaxDist());
    }

    lemma DescribesInside(all: seq<byte>, n: nat, t: Token, n': nat)
      ensures Describes(all, n, t, n') ==> 0 <= n' <= |all|
    {
    }

    /** Tallies the byte at window position pos as a literal. */
    method Literally(pos: nat) returns (bflush: bool)
      requires Apart() && win.Filled() && syms.Valid() && Coded(win.base + pos) && pos < win.strstart + win.lookahead
      modifies syms`symNext, syms`tokens, syms.symBuf
      ensures Coded(win.base + pos + 1) && syms.Held() && bflush == (syms.symNext == syms.symEnd) && (!bflush ==> syms.Valid())
      ensures syms.tokens == old(syms.tokens) + [Literal(win.all[win.base + pos])]
    {
      hide Expand, AllAllowed;
      ghost var before := syms.tokens;
      bflush := syms.TallyLit(win.window[pos]);
      CodedOne(before, Literal(win.window[pos]), win.base + pos, win.base + pos + 1);
    }

    /** Tallies a match for the string at window position pos. */
    method Matched(pos: nat, start: int, length: nat) returns (bflush: bool)
      requires Apart() && win.wSize <= 32768 && syms.Valid() && Coded(win.base + pos) && MIN_MATCH <= length && Found(win.base + pos, start, length)
      modifies syms`symNext, syms`tokens, syms.symBuf
      ensures Coded(win.base + pos + length) && syms.Held() && bflush == (syms.symNext == syms.symEnd) && (!bflush ==> syms.Valid())
      ensures pos >= start && syms.tokens == old(syms.tokens) + [Match(length, pos - start)]
    {
      hide Expand, AllAllowed;
      ghost var before := syms.tokens;
      bflush := syms.TallyDist(pos - start, length - MIN_MATCH);
      CodedOne(before, Match(length, pos - start), win.base + pos, win.base + pos + length);
    }

    /** An occurrence in the window is one in the input. */
    lemma OccursFound(start: int, length: nat)
      requires win.Filled() && win.Occurs(start, length) && length <= win.lookahead && length <= MAX_MATCH
      ensures Found(win.base + win.strstart, start, length)
    {
      hide Agree, Holds;
      OccursInInput(win.window[..], win.all, win.base, win.strstart + win.lookahead, start, win.strstart, length);
    }

    /** Enough lookahead, or all there is. */
    method Refill()
      requires Valid()
      modifies win`strstart, win`lookahead, win`insert, win`matchStart, win`nextIn, win`all, win`base, win.window, win.dict, win.dict.head, win.dict.prev
      ensures Valid() && Done() == old(Done()) && win.strstart <= 2 * win.wSize - MIN_LOOKAHEAD && (old(win.strstart) >= 1 ==> win.strstart >= 1)
      ensures win.all + win.nextIn == old(win.all + win.nextIn) && win.lookahead + |win.nextIn| == old(win.lookahead + |win.nextIn|)
      ensures win.base + win.strstart == old(win.base + win.strstart) && win.base + win.matchStart == old(win.base + win.matchStart) && old(win.all) <= win.all
      ensures win.lookahead >= MIN_LOOKAHEAD || win.nextIn == []
      ensures old(Greedily()) ==> Greedily()
      ensures old(Lazily()) ==> Lazily()
    {
      hide Expand, AllAllowed, Chained, Holds, Window.Indexed, GreedyLog, LazyLog;
      assert win.strstart + win.lookahead <= 2 * win.wSize by { Inside(); }
      if win.lookahead < MIN_LOOKAHEAD { win.FillWindow(); }
      LogsReadOn();
    }

    /** More input and more strings in the dictionary leave the choices as they are. */
    twostate lemma LogsReadOn()
      requires old(win.all) <= win.all && old(win.dict.inserted) <= win.dict.inserted && win.base + win.matchStart == old(win.base + win.matchStart)
      requires unchanged(this) && unchanged(syms)
      ensures old(Greedily()) ==> Greedily()
      ensures old(Lazily()) ==> Lazily()
    {
      hide GreedyLog, LazyLog;
      if old(Greedily()) { GreedyLogReadOn(SetUp(false), old(win.all), win.all, syms.tokens, log.looks, old(win.dict.inserted), win.dict.inserted); }
      if old(Lazily()) {
        LazyLogReadOn(SetUp(true), old(win.all), win.all, syms.tokens, log, old(win.dict.inserted), win.dict.inserted, matchAvailable,
                      if matchAvailable then matchLength else 2, if matchAvailable then win.base + win.matchStart else 0);
      }
    }

    lemma Inside()
      requires win.Kept()
      ensures win.strstart + win.lookahead <= 2 * win.wSize && win.base + win.strstart + win.lookahead == |win.all|
    {
    }

    /** The search for the present string, which has just come into the dictionary `had`, with nothing said of what it found. */
    ghost predicate IsLook(look: Look, had: set<nat>, lazy: bool)
      reads this`prevLength, win`strstart, win`base, win`all
    {
      && look.at == win.base + win.strstart && look.input == |win.all| && look.inserted == had && look.prevLength == prevLength
      && Sound(SetUp(lazy), win.all, look)
    }

    /** Searches the chain, whose head is within reach. */
    method Search(hashHead: nat, ghost had: set<nat>, ghost lazy: bool) returns (ghost look: Look)
      requires win.Entered() && win.lookahead <= |win.all| && win.strstart <= 2 * win.wSize - MIN_LOOKAHEAD && Apart()
      requires hashHead != 0 && win.lookahead >= MIN_MATCH && win.Candidate(hashHead) && MIN_MATCH - 1 <= prevLength <= MAX_MATCH
      requires JustIn(win, had) && win.Before(hashHead, win.strstart) && !(lazy && prevLength >= config.maxLazy)
      modifies this`matchLength, win`matchStart
      ensures matchLength <= win.lookahead && MIN_MATCH - 1 <= matchLength <= MAX_MATCH
      ensures matchLength > prevLength ==> Found(win.base + win.strstart, win.matchStart, matchLength)
      ensures IsLook(look, had, lazy) && look.best == (if matchLength > prevLength then matchLength else prevLength)
      ensures matchLength > prevLength ==> look.start == win.base + win.matchStart
    {
      hide Chained, Holds, Agree, Window.Before, Window.FromChain, Window.Enough, Window.AllAtMost, Window.NearerAtMost, Window.Candidate, Window.Indexed, Found, JustIn, Sound;
      ghost var visited;
      matchLength, visited := win.LongestMatch(hashHead, prevLength, config.goodMatch, config.niceMatch, config.maxChain);
      look := LookOf(win, had, prevLength, visited, matchLength);
      SearchIsSound(SetUp(lazy), win, had, prevLength, visited, hashHead, matchLength);
      if matchLength > prevLength { OccursFound(win.matchStart, matchLength); }
    }

    /** There is nothing to search, or no reason to. */
    ghost method NoSearch(hashHead: nat, had: set<nat>, lazy: bool) returns (look: Look)
      requires JustIn(win, had) && (win.lookahead >= MIN_MATCH ==> win.Before(hashHead, win.strstart))
      requires hashHead == 0 || win.strstart - hashHead > win.MaxDist() || (lazy && prevLength >= config.maxLazy)
      ensures IsLook(look, had, lazy) && look.best == prevLength
    {
      hide Window.Before, JustIn, Sound;
      look := LookOf(win, had, prevLength, [], 0);
      NoSearchIsSound(SetUp(lazy), win, had, prevLength, hashHead);
    }

    /** The present string is inserted; had is the dictionary before. */
    method InsertHere() returns (hashHead: nat, ghost had: set<nat>)
      requires win.Kept()
      modifies win.dict, win.dict.head, win.dict.prev
      ensures win.Entered() && (hashHead != 0 && win.strstart - hashHead <= win.MaxDist() ==> win.lookahead >= MIN_MATCH && win.Candidate(hashHead))
      ensures had == old(win.dict.inserted) && JustIn(win, had) && (win.lookahead >= MIN_MATCH ==> win.Before(hashHead, win.strstart))
      ensures win.lookahead < MIN_MATCH ==> hashHead == 0
    {
      hide Chained, Holds, Window.Before, Window.Candidate;
      win.dict.InsertedBelow(win.all, win.base);
      had := win.dict.inserted;
      hashHead := win.InsertHere();
    }

    /** Adopts the match at the present string. */
    method TakeMatch() returns (bflush: bool)
      requires Apart() && win.Entered() && win.strstart <= 2 * win.wSize - MIN_LOOKAHEAD && syms.Valid() && !matchAvailable && Coded(Done())
      requires MIN_MATCH <= matchLength <= win.lookahead && Found(win.base + win.strstart, win.matchStart, matchLength)
      modifies this`matchLength, win`strstart, win`lookahead, win.dict, win.dict.head, win.dict.prev, syms`symNext, syms`tokens, syms.symBuf
      ensures win.Kept() && Coded(Done()) && syms.Held() && bflush == (syms.symNext == syms.symEnd) && (!bflush ==> syms.Valid())
      ensures win.lookahead < old(win.lookahead) && matchLength == 0
      ensures win.strstart >= win.matchStart && syms.tokens == old(syms.tokens) + [Match(old(matchLength), old(win.strstart) - win.matchStart)]
      ensures old(win.dict.inserted) <= win.dict.inserted
      ensures old(matchLength <= config.maxLazy && win.lookahead - matchLength >= MIN_MATCH) ==>
                forall p: nat :: old(win.base + win.strstart) < p < old(win.base + win.strstart + matchLength) ==> p in win.dict.inserted
    {
      hide Expand, AllAllowed, Chained, Holds, Window.Indexed, Coded, Found;
      bflush := Matched(win.strstart, win.matchStart, matchLength);
      if matchLength <= config.maxLazy && win.lookahead - matchLength >= MIN_MATCH {
        win.AdvanceInserting(matchLength);
        Inside();
      } else {
        FoundShort();
        win.AdvanceSkipping(matchLength);
      }
      matchLength := 0;
    }

    lemma FoundShort()
      requires Found(win.base + win.strstart, win.matchStart, matchLength)
      ensures matchLength <= MAX_MATCH
    {
    }

    lemma CodedLength(n: int)
      requires Coded(n)
      ensures n >= 0 && |Expand(syms.tokens)| == n
    {
      hide Expand, AllAllowed;
    }

    /** The token of one step is the choice after the search, and the dictionary has grown by its strings. */
    lemma FastChosen(before: seq<Token>, looks: seq<Look>, look: Look, had: set<nat>, token: Token, inserted: set<nat>)
      requires GreedyLog(SetUp(false), win.all, before, looks, had) && look.at == |Expand(before)| && look.inserted == had
      requires look.prevLength == MIN_MATCH - 1 && look.at < look.input == |win.all| && Sound(SetUp(false), win.all, look)
      requires token == if look.best >= 3 then Match(look.best, look.at - look.start) else Literal(win.all[look.at])
      requires had <= inserted && (look.input - look.at >= 3 ==> look.at in inserted)
      requires look.best >= 3 && look.best <= config.maxLazy && look.input - look.at - look.best >= 3 ==>
                 forall p: nat :: look.at < p < look.at + look.best ==> p in inserted
      ensures GreedyLog(SetUp(false), win.all, before + [token], looks + [look], inserted)
    {
      hide Expand, Sound, GreedyLog;
      GreedyOneMore(SetUp(false), win.all, before, looks, token, look, inserted);
    }

    /** Finds the match at the present string. */
    method FastSearch(hashHead: nat, ghost had: set<nat>) returns (ghost look: Look)
      requires win.Entered() && win.lookahead <= |win.all| && win.strstart <= 2 * win.wSize - MIN_LOOKAHEAD && Apart()
      requires hashHead != 0 && win.strstart - hashHead <= win.MaxDist() ==> win.lookahead >= MIN_MATCH && win.Candidate(hashHead)
      requires JustIn(win, had) && (win.lookahead >= MIN_MATCH ==> win.Before(hashHead, win.strstart))
      requires matchLength < MIN_MATCH && prevLength == MIN_MATCH - 1
      modifies this`matchLength, win`matchStart
      ensures matchLength >= MIN_MATCH ==> matchLength <= win.lookahead && Found(win.base + win.strstart, win.matchStart, matchLength)
      ensures IsLook(look, had, false) && look.best == (if matchLength >= MIN_MATCH then matchLength else MIN_MATCH - 1)
      ensures matchLength >= MIN_MATCH ==> look.start == win.base + win.matchStart
    {
      hide Chained, Holds, Window.Indexed, Window.Candidate, Found, Window.Before, JustIn, Sound;
      if hashHead != 0 && win.strstart - hashHead <= win.MaxDist() {
        look := Search(hashHead, had, false);
      } else {
        look := NoSearch(hashHead, had, false);
      }
    }

    /** The match that was found, or a literal. */
    method FastToken(ghost look: Look, ghost had: set<nat>) returns (bflush: bool)
      requires Apart() && win.Entered() && syms.Valid() && !matchAvailable && Coded(Done()) && prevLength == MIN_MATCH - 1
      requires win.lookahead > 0 && win.strstart <= 2 * win.wSize - MIN_LOOKAHEAD && win.base + win.strstart + win.lookahead == |win.all|
      requires matchLength >= MIN_MATCH ==> matchLength <= win.lookahead && Found(win.base + win.strstart, win.matchStart, matchLength)
      requires IsLook(look, had, false) && look.best == (if matchLength >= MIN_MATCH then matchLength else MIN_MATCH - 1)
      requires matchLength >= MIN_MATCH ==> look.start == win.base + win.matchStart
      requires win.dict.inserted == had + (if win.lookahead >= MIN_MATCH then {win.base + win.strstart} else {})
      requires GreedyLog(SetUp(false), win.all, syms.tokens, log.looks, had)
      modifies this`matchLength, this`log, win`strstart, win`lookahead, win.dict, win.dict.head, win.dict.prev, syms`symNext, syms`tokens, syms.symBuf
      ensures win.Kept() && Coded(Done()) && syms.Held() && (!bflush ==> syms.Valid()) && matchLength < MIN_MATCH && Greedily()
      ensures win.lookahead < old(win.lookahead)
    {
      hide Expand, AllAllowed, Chained, Holds, Window.Indexed, Coded, Found, GreedyLog, Sound;
      CodedLength(Done());
      ghost var before, looks := syms.tokens, log.looks;
      if matchLength >= MIN_MATCH {
        bflush := TakeMatch();
      } else {
        bflush := Literally(win.strstart);
        win.Advance();
      }
      FastChosen(before, looks, look, had, syms.tokens[|before|], win.dict.inserted);
      log := Log(looks + [look], log.nexts, log.pending);
    }

    /** One step of deflate_fast, after there is enough lookahead. */
    method FastStep() returns (bflush: bool)
      requires Valid() && !matchAvailable && matchLength < MIN_MATCH && prevLength == MIN_MATCH - 1 && Greedily()
      requires win.lookahead > 0 && win.strstart <= 2 * win.wSize - MIN_LOOKAHEAD
      modifies this`matchLength, this`log, win`strstart, win`lookahead, win`matchStart, win.dict, win.dict.head, win.dict.prev, syms`symNext, syms`tokens, syms.symBuf
      ensures win.Kept() && Coded(Done()) && syms.Held() && (!bflush ==> syms.Valid()) && matchLength < MIN_MATCH && Greedily()
      ensures win.lookahead < old(win.lookahead)
    {
      hide Expand, AllAllowed, Chained, Holds, Window.Indexed, Coded, Found, Window.Candidate, GreedyLog, IsLook, Window.Before;
      Inside();
      var hashHead;
      ghost var had, look;
      hashHead, had := InsertHere();
      look := FastSearch(hashHead, had);
      bflush := FastToken(look, had);
    }

    /**
     * Compresses as much as possible without lazy evaluation. Whatever the calls and refills, the
     * tokens tallied stand for the input up to the present string.
     */
    method DeflateFast(flush: Flush) returns (state: BlockState, full: bool)
      requires Valid() && !matchAvailable && matchLength < MIN_MATCH && prevLength == MIN_MATCH - 1 && Greedily()
      modifies this, win, win.window, win.dict, win.dict.head, win.dict.prev, syms, syms.symBuf
      ensures Valid() && !matchAvailable && matchLength < MIN_MATCH && prevLength == MIN_MATCH - 1 && Greedily()
      ensures win.all + win.nextIn == old(win.all + win.nextIn)
      ensures Ended(flush, state, full)
    {
      hide Expand, AllAllowed, Chained, Holds, Window.Indexed, Coded, GreedyLog;
      full := false;
      while true
        invariant Valid() && !full && !matchAvailable && matchLength < MIN_MATCH && prevLength == MIN_MATCH - 1 && Greedily()
        invariant win.all + win.nextIn == old(win.all + win.nextIn)
        decreases win.lookahead + |win.nextIn|
      {
        Refill();
        if win.lookahead < MIN_LOOKAHEAD {
          if flush == NoFlush { return NeedMore, false; }
          if win.lookahead == 0 { break; }
        }
        var bflush := FastStep();
        if bflush {
          var room := FlushBlock();
          if !room { return NeedMore, true; }
        }
      }
      state, full := EndBlock(flush);
    }

    /** The last two strings will be inserted when more input follows. */
    method EndBlock(flush: Flush) returns (state: BlockState, full: bool)
      requires Apart() && win.Kept() && Coded(Done()) && !matchAvailable && win.lookahead == 0 && win.nextIn == [] && flush != NoFlush
      requires syms.Held() && syms.symEnd > 0 && syms.symEnd + 3 <= syms.symBuf.Length && syms.symEnd % 3 == 0
      modifies win`insert, syms`symNext, syms`flushed
      ensures Valid() && Ended(flush, state, full)
    {
      hide Expand, AllAllowed;
      win.LeaveLast();
      assert win.all[..|win.all|] == win.all;
      if flush == Finish {
        var room := FlushBlock();
        return if room then FinishDone else FinishStarted, !room;
      }
      if syms.symNext > 0 {
        var room := FlushBlock();
        if !room { return NeedMore, true; }
      }
      return BlockDone, false;
    }

    ghost predicate AllSent()
      reads win`all, win`nextIn, syms`tokens, syms`flushed
    {
      win.nextIn == [] && Expand(syms.tokens) == win.all && syms.flushed == |syms.tokens|
    }

    /**
     * What a call says by its state; full means that it has found the output full. It stops early only for want
     * of input or of room; otherwise it has taken all input, the tokens stand for all of it, and all are flushed.
     */
    ghost predicate Ended(flush: Flush, state: BlockState, full: bool)
      reads win`all, win`nextIn, win`lookahead, syms`tokens, syms`flushed
    {
      match state
      case NeedMore => full || (flush == NoFlush && win.nextIn == [] && win.lookahead < MIN_LOOKAHEAD)
      case BlockDone => flush == BlockFlush && !full && AllSent()
      case FinishStarted => flush == Finish && full && AllSent()
      case FinishDone => flush == Finish && !full && AllSent()
    }

    // ---------- Lazy evaluation ----------

    /** A match kept from the previous string is a real one; its start may have left the window. */
    ghost predicate LazyOk()
      reads this`matchLength, this`matchAvailable, win`matchStart, win`strstart, win`base, win`all
    {
      && MIN_MATCH - 1 <= matchLength <= MAX_MATCH
      && (matchAvailable ==> win.strstart >= 1)
      && (matchLength >= MIN_MATCH ==> matchAvailable && Found(win.base + win.strstart - 1, win.matchStart, matchLength))
    }

    /** Finds the match at the present string, remembering the previous one. */
    method SlowSearch(hashHead: nat, ghost had: set<nat>) returns (ghost look: Look)
      requires win.Entered() && win.lookahead <= |win.all| && win.strstart <= 2 * win.wSize - MIN_LOOKAHEAD && Apart()
      requires hashHead != 0 && win.strstart - hashHead <= win.MaxDist() ==> win.lookahead >= MIN_MATCH && win.Candidate(hashHead)
      requires JustIn(win, had) && (win.lookahead >= MIN_MATCH ==> win.Before(hashHead, win.strstart))
      requires MIN_MATCH - 1 <= matchLength <= MAX_MATCH
      modifies this`matchLength, this`prevLength, this`prevMatch, win`matchStart
      ensures prevLength == old(matchLength) && prevMatch == old(win.matchStart) && MIN_MATCH - 1 <= matchLength <= MAX_MATCH
      ensures matchLength >= MIN_MATCH && matchLength > prevLength ==> Found(win.base + win.strstart, win.matchStart, matchLength)
      ensures IsLook(look, had, true) && MatchLength(SetUp(true), look) == (if matchLength > prevLength then matchLength else 2)
      ensures matchLength > prevLength ==> look.start == win.base + win.matchStart
    {
      hide Chained, Holds, Window.Indexed, Window.Candidate, Found, Window.Before, JustIn, Sound;
      prevLength, prevMatch := matchLength, win.matchStart;
      matchLength := MIN_MATCH - 1;
      if hashHead != 0 && prevLength < config.maxLazy && win.strstart - hashHead <= win.MaxDist() {
        look := Search(hashHead, had, true);
        if matchLength <= 5 && (filtered || (matchLength == MIN_MATCH && win.strstart - win.matchStart > TOO_FAR)) {
          matchLength := MIN_MATCH - 1;
        }
      } else {
        look := NoSearch(hashHead, had, true);
      }
    }

    /** Adopts the match found at the previous string. */
    method TakePrevious() returns (bflush: bool)
      requires Apart() && win.Entered() && win.strstart >= 1 && syms.Valid() && matchAvailable && Coded(Done())
      requires MIN_MATCH <= prevLength && Found(win.base + win.strstart - 1, prevMatch, prevLength)
      modifies this`matchLength, this`matchAvailable, this`prevLength, win`strstart, win`lookahead, win.dict, win.dict.head, win.dict.prev, syms`symNext, syms`tokens, syms.symBuf
      ensures win.Kept() && Coded(Done()) && syms.Held() && (!bflush ==> syms.Valid()) && LazyOk() && !matchAvailable
      ensures win.lookahead < old(win.lookahead) && old(win.strstart) - 1 >= prevMatch
      ensures syms.tokens == old(syms.tokens) + [Match(old(prevLength), old(win.strstart) - 1 - prevMatch)]
      ensures forall p: nat :: p in old(win.dict.inserted) || (old(win.base + win.strstart) < p < old(win.base + win.strstart) - 1 + old(prevLength) && p + 2 < |win.all|)
                ==> p in win.dict.inserted
    {
      hide Expand, AllAllowed, Chained, Holds, Window.Indexed, Coded;
      PreviousInside();
      bflush := Matched(win.strstart - 1, prevMatch, prevLength);
      win.AdvanceInserting(prevLength - 1);
      prevLength := 0;
      matchAvailable := false;
      matchLength := MIN_MATCH - 1;
    }

    lemma PreviousInside()
      requires win.Filled() && Found(win.base + win.strstart - 1, prevMatch, prevLength) && win.strstart >= 1
      ensures prevLength - 1 <= win.lookahead && win.wSize <= 32768
    {
    }

    /** The search for the present string and what is remembered of the one before. */
    ghost predicate Compared(look: Look, had: set<nat>, before: seq<Token>, previous: Log)
      reads this`prevLength, this`prevMatch, this`matchLength, win`strstart, win`base, win`matchStart, win`all, win`lookahead, win.dict`inserted
    {
      && 2 <= prevLength && 2 <= matchLength && IsLook(look, had, true) && LazyLog(SetUp(true), win.all, before, previous, had, true, prevLength, win.base + prevMatch)
      && MatchLength(SetUp(true), look) == (if matchLength > prevLength then matchLength else 2)
      && (matchLength > prevLength ==> look.start == win.base + win.matchStart)
      && |Expand(before)| == win.base + win.strstart - 1 && win.base + win.strstart + win.lookahead == |win.all|
      && (forall p: nat :: p in had || (p == look.at && look.input - look.at >= 3) ==> p in win.dict.inserted)
    }

    lemma PendingAt(setup: Setup, all: seq<byte>, tokens: seq<Token>, log: Log, inserted: set<nat>, length: nat, start: int)
      requires LazyLog(setup, all, tokens, log, inserted, true, length, start)
      ensures log.pending.at == |Expand(tokens)| < |all| && (length >= 3 ==> log.pending.start == start) && Sound(setup, all, log.pending)
    {
      hide Expand, Lazy, MatchLength;
    }

    /** Adopts the match found at the previous string, and flushes if the buffer is full. */
    method TakePreviousMatch(ghost look: Look, ghost had: set<nat>) returns (stop: bool)
      requires Apart() && win.Entered() && win.strstart >= 1 && syms.Valid() && matchAvailable && Coded(Done())
      requires MIN_MATCH <= prevLength && Found(win.base + win.strstart - 1, prevMatch, prevLength)
      requires matchLength <= prevLength && Compared(look, had, syms.tokens, log)
      modifies this`matchLength, this`matchAvailable, this`prevLength, this`log, win`strstart, win`lookahead, win.dict, win.dict.head, win.dict.prev
      modifies syms`symNext, syms`tokens, syms`flushed, syms.symBuf
      ensures Valid() && LazyOk() && win.lookahead < old(win.lookahead) && Lazily()
    {
      hide Expand, AllAllowed, Chained, Holds, Window.Indexed, Coded, Found, Window.Candidate, LazyLog, Sound, MatchLength;
      stop := false;
      ghost var before, length := syms.tokens, prevLength;
      PendingAt(SetUp(true), win.all, before, log, had, prevLength, win.base + prevMatch);
      var bflush := TakePrevious();
      MatchTaken(SetUp(true), win.all, before, log, length, win.base + prevMatch, look, win.dict.inserted);
      log := Log(log.looks + [log.pending], log.nexts + [look], look);
      if bflush {
        var room := FlushBlock();
        stop := !room;
      }
    }

    /** The search for the present string, with nothing to compare it with. */
    ghost predicate First(look: Look, had: set<nat>)
      reads this`prevLength, this`matchLength, this`log, win`strstart, win`base, win`matchStart, win`all, win`lookahead, win.dict`inserted, syms`tokens
    {
      && 2 == prevLength <= matchLength && IsLook(look, had, true) && LazyLog(SetUp(true), win.all, syms.tokens, log, had, false, 2, 0)
      && MatchLength(SetUp(true), look) == (if matchLength > prevLength then matchLength else 2)
      && (matchLength > prevLength ==> look.start == win.base + win.matchStart)
      && |Expand(syms.tokens)| == win.base + win.strstart && win.base + win.strstart + win.lookahead == |win.all|
      && (forall p: nat :: p in had || (p == look.at && look.input - look.at >= 3) ==> p in win.dict.inserted)
    }

    /** Inserts the present string and finds its match, to be compared with that of the previous string if there is one. */
    method LookHere() returns (ghost look: Look, ghost had: set<nat>)
      requires Valid() && LazyOk() && Lazily() && win.lookahead > 0 && win.strstart <= 2 * win.wSize - MIN_LOOKAHEAD
      modifies this`matchLength, this`prevLength, this`prevMatch, win`matchStart, win.dict, win.dict.head, win.dict.prev
      ensures Apart() && win.Entered() && syms.Valid() && Coded(Done()) && (matchAvailable ==> win.strstart >= 1)
      ensures MIN_MATCH - 1 <= matchLength <= MAX_MATCH
      ensures matchLength >= MIN_MATCH && matchLength > prevLength ==> Found(win.base + win.strstart, win.matchStart, matchLength)
      ensures prevLength >= MIN_MATCH ==> matchAvailable && Found(win.base + win.strstart - 1, prevMatch, prevLength)
      ensures if matchAvailable then Compared(look, had, syms.tokens, log) else First(look, had)
    {
      hide Expand, AllAllowed, Chained, Holds, Window.Indexed, Coded, Found, Window.Candidate, LazyLog, Sound, MatchLength, Window.Before;
      Inside();
      CodedLength(Done());
      var hashHead;
      hashHead, had := InsertHere();
      look := SlowSearch(hashHead, had);
    }

    /** One step of deflate_slow, after there is enough lookahead; true when it has to return for output space. */
    method SlowStep() returns (stop: bool)
      requires Valid() && LazyOk() && Lazily() && win.lookahead > 0 && win.strstart <= 2 * win.wSize - MIN_LOOKAHEAD
      modifies this`matchLength, this`matchAvailable, this`prevLength, this`prevMatch, this`log, win`strstart, win`lookahead, win`matchStart
      modifies win.dict, win.dict.head, win.dict.prev, syms`symNext, syms`tokens, syms`flushed, syms.symBuf
      ensures Valid() && LazyOk() && Lazily() && win.lookahead < old(win.lookahead)
    {
      hide Expand, AllAllowed, Chained, Holds, Window.Indexed, Coded, Found, LazyLog, Compared, First;
      ghost var look, had;
      look, had := LookHere();
      stop := false;
      if prevLength >= MIN_MATCH && matchLength <= prevLength {
        stop := TakePreviousMatch(look, had);
      } else if matchAvailable {
        stop := TakeLiteral(look, had);
      } else {
        Wait(look, had);
      }
    }

    /** There is no previous string to compare with; the present one becomes the previous. */
    method Wait(ghost look: Look, ghost had: set<nat>)
      requires Apart() && win.Entered() && win.lookahead > 0 && syms.Valid() && !matchAvailable && Coded(Done()) && First(look, had)
      modifies this`matchAvailable, this`log, win`strstart, win`lookahead
      ensures win.Kept() && Coded(Done()) && matchAvailable && win.strstart == old(win.strstart) + 1 && win.lookahead == old(win.lookahead) - 1
      ensures Lazily()
    {
      hide Expand, AllAllowed, Chained, Holds, Window.Indexed, Coded, LazyLog, Sound, MatchLength;
      FirstPending(SetUp(true), win.all, syms.tokens, log, look, win.dict.inserted, win.base + win.matchStart);
      log := Log(log.looks, log.nexts, look);
      matchAvailable := true;
      win.Advance();
    }

    /** The previous string becomes a literal, and the present one the previous. */
    method TakeLiteral(ghost look: Look, ghost had: set<nat>) returns (stop: bool)
      requires Apart() && win.Entered() && win.strstart >= 1 && win.lookahead > 0 && syms.Valid() && matchAvailable && Coded(Done())
      requires (prevLength < MIN_MATCH || matchLength > prevLength) && Compared(look, had, syms.tokens, log)
      modifies this`log, win`strstart, win`lookahead, syms`symNext, syms`tokens, syms`flushed, syms.symBuf
      ensures win.Kept() && syms.Valid() && Coded(Done()) && win.strstart == old(win.strstart) + 1 && win.lookahead == old(win.lookahead) - 1
      ensures Lazily()
    {
      hide Expand, AllAllowed, Chained, Holds, Window.Indexed, Coded, LazyLog, Sound, MatchLength;
      ghost var before := syms.tokens;
      PendingAt(SetUp(true), win.all, before, log, had, prevLength, win.base + prevMatch);
      var bflush := Literally(win.strstart - 1);
      CodedLength(win.base + win.strstart);
      LiteralTaken(SetUp(true), win.all, before, log, prevLength, win.base + prevMatch, look, win.dict.inserted, win.base + win.matchStart);
      log := Log(log.looks + [log.pending], log.nexts + [look], look);
      if bflush { var _ := FlushBlock(); }
      win.Advance();
      stop := *;
    }

    /** At the end of the input a byte that is still pending is a literal. */
    method TakeLast()
      requires Apart() && win.Kept() && win.lookahead == 0 && win.strstart >= 1 && syms.Valid() && matchAvailable && Coded(Done())
      requires matchLength == 2 && Lazily()
      modifies this`matchAvailable, this`log, syms`symNext, syms`tokens, syms.symBuf
      ensures syms.Held() && Coded(Done()) && !matchAvailable && Lazily()
    {
      hide Expand, AllAllowed, Chained, Holds, Window.Indexed, Coded, LazyLog, Sound, MatchLength;
      ghost var before, had := syms.tokens, win.dict.inserted;
      Inside();
      CodedLength(Done());
      win.dict.InsertedBelow(win.all, win.base) by { IndexedHere(); }
      PendingAt(SetUp(true), win.all, before, log, had, 2, win.base + win.matchStart);
      ghost var look := LookOf(win, had, 2, [], 0);
      NoSearchIsSound(SetUp(true), win, had, 2, 0);
      var bflush := Literally(win.strstart - 1);
      LastTaken(SetUp(true), win.all, before, log, win.base + win.matchStart, look);
      log := Log(log.looks + [log.pending], log.nexts + [look], look);
      matchAvailable := false;
    }

    lemma IndexedHere()
      requires win.Kept()
      ensures win.dict.Valid(win.all, win.base)
    {
    }

    /** Compresses as much as possible, adopting a match only if there is no better one at the next string. */
    method DeflateSlow(flush: Flush) returns (state: BlockState, full: bool)
      requires Valid() && LazyOk() && Lazily()
      modifies this, win, win.window, win.dict, win.dict.head, win.dict.prev, syms, syms.symBuf
      ensures Valid() && LazyOk() && Lazily()
      ensures win.all + win.nextIn == old(win.all + win.nextIn)
      ensures Ended(flush, state, full)
    {
      hide Expand, AllAllowed, Chained, Holds, Window.Indexed, Coded, Found, LazyLog;
      while true
        invariant Valid() && LazyOk() && Lazily()
        invariant win.all + win.nextIn == old(win.all + win.nextIn)
        decreases win.lookahead + |win.nextIn|
      {
        label Before:
        Refill();
        StillFound@Before();
        if win.lookahead < MIN_LOOKAHEAD {
          if flush == NoFlush { return NeedMore, false; }
          if win.lookahead == 0 { break; }
        }
        var stop := SlowStep();
        if stop { return NeedMore, true; }
      }
      LastIsLiteral();
      if matchAvailable { TakeLast(); }
      state, full := EndBlock(flush);
    }

    /** A match kept from before is still one after the window has been filled again. */
    twostate lemma StillFound()
      requires old(LazyOk()) && matchLength == old(matchLength) && matchAvailable == old(matchAvailable)
      requires win.base + win.strstart == old(win.base + win.strstart) && win.base + win.matchStart == old(win.base + win.matchStart) && old(win.all) <= win.all
      requires matchAvailable ==> win.strstart >= 1
      ensures LazyOk()
    {
    }

    /** With nothing ahead there cannot be a match at the previous byte. */
    lemma LastIsLiteral()
      requires LazyOk() && win.Filled() && win.lookahead == 0
      ensures matchLength < MIN_MATCH && (matchAvailable ==> win.strstart >= 1)
    {
    }
  }

  /** One call of the compressor: further input, and how to flush. */
  datatype Call = Call(input: seq<byte>, flush: Flush)

  /** The input of the first n calls. */
  function Given(calls: seq<Call>, n: nat): seq<byte>
    requires n <= |calls|
  {
    if n == 0 then [] else Given(calls, n - 1) + calls[n - 1].input
  }

  /** Ready for a call: with lazy evaluation, or without. */
  ghost predicate Ready(d: Deflater, lazy: bool)
    reads d, d.Repr()
  {
    && d.Valid()
    && if lazy then d.LazyOk() && d.Lazily() else !d.matchAvailable && d.matchLength < MIN_MATCH && d.prevLength == MIN_MATCH - 1 && d.Greedily()
  }

  /** One call, with its further input. */
  method MakeCall(d: Deflater, call: Call, lazy: bool) returns (finished: bool, full: bool)
    requires Ready(d, lazy)
    modifies d, d.Repr()
    ensures Ready(d, lazy) && d.win.all + d.win.nextIn == old(d.win.all + d.win.nextIn) + call.input
    ensures finished ==> Expand(d.syms.tokens) == d.win.all + d.win.nextIn
    ensures finished <==> call.flush == Finish && !full
  {
    hide Expand, AllAllowed, Window.Kept, Symbols.Valid, GreedyLog, LazyLog;
    assert d.win.all + (d.win.nextIn + call.input) == (d.win.all + d.win.nextIn) + call.input;
    d.Supply(call.input);
    var state;
    if lazy { state, full := d.DeflateSlow(call.flush); } else { state, full := d.DeflateFast(call.flush); }
    finished := state == FinishDone;
    if finished { assert d.win.all + [] == d.win.all; }
  }

  /**
   * For every window size, level and sequence of calls: once the compressor says that it has
   * finished, expanding what it tallied gives back all the input, with lengths from 3 to 258 and
   * distances from 1 to the greatest allowed. It does finish in the first call that asks it to and
   * does not find the output full; until then all calls are made.
   */
  method MakeCalls(wSize: nat, hash: HashSpec, litBufsize: nat, config: Config, filtered: bool, lazy: bool, calls: seq<Call>)
    returns (finished: bool, made: nat, full: bool, d: Deflater)
    requires 512 <= wSize <= 32768 && hash.Good() && litBufsize >= 2 && config.maxChain >= 4
    ensures made <= |calls| && d.Valid()
    ensures AllAllowed(d.syms.tokens, d.win.MaxDist()) && Expand(d.syms.tokens) <= Given(calls, made)
    ensures finished ==> Expand(d.syms.tokens) == Given(calls, made)
    ensures finished <==> made > 0 && calls[made - 1].flush == Finish && !full
    ensures !finished ==> made == |calls|
    ensures d.win.all <= Given(calls, made)
    ensures !lazy ==> Greedy(Setup(hash, wSize, config, filtered, false), d.win.all, d.syms.tokens, d.log.looks)
    ensures lazy ==> Lazy(Setup(hash, wSize, config, filtered, true), d.win.all, d.syms.tokens, d.log.looks, d.log.nexts)
  {
    hide Expand, AllAllowed, Window.Kept, Symbols.Valid, Greedy, Lazy;
    d := new Deflater(wSize, hash, litBufsize, config, filtered);
    finished, made, full := false, 0, false;
    while made < |calls| && !finished
      invariant made <= |calls| && Ready(d, lazy) && fresh(d.Repr()) && fresh(d)
      invariant d.win.all + d.win.nextIn == Given(calls, made)
      invariant finished ==> Expand(d.syms.tokens) == Given(calls, made)
      invariant finished <==> made > 0 && calls[made - 1].flush == Finish && !full
    {
      finished, full := MakeCall(d, calls[made], lazy);
      made := made + 1;
    }
  }
}
