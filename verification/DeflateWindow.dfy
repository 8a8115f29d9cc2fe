/** Deflate's sliding window and the search for earlier occurrences. */
module DeflateWindow {
  import opened Words
  import opened RollingHash
  import opened HashChains
  import opened Lz77

  const MIN_LOOKAHEAD := MAX_MATCH + MIN_MATCH + 1

  /** The window holds the input from position base on, up to its end. */
  ghost predicate Holds(window: seq<byte>, all: seq<byte>, base: nat, n: nat) {
    base + n == |all| && n <= |window| && forall i :: 0 <= i < n ==> window[i] == all[base + i]
  }

  /** The strings at window positions p and s agree for n bytes. */
  ghost predicate Agree(window: seq<byte>, p: int, s: int, n: int) {
    0 <= p <= s && s + n <= |window| && forall q {:trigger window[q]} :: s <= q < s + n ==> window[q] == window[q - s + p]
  }

  lemma AgreeMore(window: seq<byte>, p: int, s: int, n: nat)
    requires Agree(window, p, s, n) && s + n < |window| && window[s + n] == window[p + n]
    ensures Agree(window, p, s, n + 1)
  {
  }

  lemma AgreeLess(window: seq<byte>, p: int, s: int, n: int, m: int)
    requires Agree(window, p, s, n) && m <= n
    ensures Agree(window, p, s, m)
  {
  }

  lemma HoldsMore(before: seq<byte>, window: seq<byte>, all: seq<byte>, base: nat, at: nat, more: seq<byte>)
    requires Holds(before, all, base, at) && at + |more| <= |window| && |before| == |window|
    requires window[..at] == before[..at] && window[at..at + |more|] == more
    ensures Holds(window, all + more, base, at + |more|)
  {
    forall i | 0 <= i < at + |more| ensures window[i] == (all + more)[base + i] {
      if i < at { assert window[i] == window[..at][i] == before[i]; } else { assert window[i] == window[at..at + |more|][i - at]; }
    }
  }

  /** The dictionary has what it had, and the strings at input positions from..to. */
  ghost predicate CaughtUp(had: set<nat>, inserted: set<nat>, from: int, to: int) {
    had <= inserted && from <= to && forall p: nat :: from <= p < to ==> p in inserted
  }

  lemma CaughtUpMore(a: set<nat>, b: set<nat>, c: set<nat>, x: int, y: int, z: int)
    requires CaughtUp(a, b, x, y) && CaughtUp(b, c, y, z)
    ensures CaughtUp(a, c, x, z)
  {
  }

  lemma NotYet(had: set<nat>, x: int)
    ensures CaughtUp(had, had, x, x)
  {
  }

  class Window {
    const wSize: nat
    const window: array<byte>
    const dict: Dictionary
    var strstart: nat
    var lookahead: nat
    var insert: nat
    var matchStart: int        // -1 when the match has just left the window
    var nextIn: seq<byte>      // the avail_in bytes at next_in
    ghost var all: seq<byte>   // all input read so far
    ghost var base: nat        // the input position of the start of the window

    constructor (wSize: nat, hash: HashSpec)
      requires 512 <= wSize <= 32768 && hash.Good()
      ensures Kept() && fresh(window) && fresh(dict) && fresh(dict.head) && fresh(dict.prev)
      ensures all == [] && base == 0 && strstart == 0 && nextIn == [] && lookahead == 0 && matchStart == 0 && this.wSize == wSize && dict.hash == hash
    {
      this.wSize := wSize;
      window := new byte[2 * wSize];
      dict := new Dictionary(hash, wSize);
      strstart, lookahead, insert, matchStart, nextIn, all, base := 0, 0, 0, 0, [], [], 0;
    }

    /** The greatest distance of a match. */
    function MaxDist(): int {
      wSize - MIN_LOOKAHEAD
    }

    ghost predicate Filled()
      reads this`strstart, this`lookahead, this`all, this`base, window
    {
      && 512 <= wSize <= 32768 && window.Length == 2 * wSize && Holds(window[..], all, base, strstart + lookahead)
      && (base == 0 || strstart >= MaxDist())
    }

    ghost predicate Indexed()
      reads this`all, this`base, dict, dict.head, dict.prev
    {
      dict.wSize == wSize && dict.Valid(all, base)
    }

    /** Strings up to the present one are, or will still be, inserted in order. */
    ghost predicate InOrder()
      reads this`strstart, this`lookahead, this`insert, this`all, this`base, dict`top, dict`insH
    {
      && insert <= strstart && insert < MIN_MATCH && dict.top <= base + strstart - insert
      && (insert > 0 ==> lookahead + insert < MIN_MATCH)
      && (lookahead >= MIN_MATCH ==> dict.Primed(all, base + strstart))
    }

    ghost predicate Kept()
      reads this`strstart, this`lookahead, this`insert, this`all, this`base, window, dict, dict.head, dict.prev
    {
      Filled() && Indexed() && InOrder()
    }

    ghost function Repr(): set<object> {
      {this, window, dict, dict.head, dict.prev}
    }

    /** Moves the upper half of the window to the lower half. */
    method Slide(more: nat)
      requires Filled() && Indexed() && strstart >= wSize + MaxDist() && more == 2 * wSize - lookahead - strstart
      requires insert <= strstart && dict.top <= base + strstart - insert
      modifies this`strstart, this`matchStart, this`insert, this`base, window, dict.head, dict.prev
      ensures Filled() && Indexed() && strstart == old(strstart) - wSize && base == old(base) + wSize
      ensures base + matchStart == old(base + matchStart) && insert == (if old(insert) > strstart then strstart else old(insert))
    {
      hide Chained;
      MoveDown(wSize - more);
      matchStart := matchStart - wSize;
      strstart := strstart - wSize;
      if insert > strstart { insert := strstart; }
      dict.SlideHash(all, base);
      base := base + wSize;
    }

    /** memcpy(window, window + wSize, n) */
    method MoveDown(n: nat)
      requires n <= wSize && window.Length == 2 * wSize
      modifies window
      ensures forall i :: 0 <= i < n ==> window[i] == old(window[wSize + i])
    {
      for i := 0 to n
        invariant forall k :: 0 <= k < i ==> window[k] == old(window[wSize + k])
        invariant forall k :: wSize <= k < 2 * wSize ==> window[k] == old(window[k])
      {
        window[i] := window[wSize + i];
      }
    }

    /** Reads input into the free end of the window. */
    method ReadBuf(size: nat) returns (len: nat)
      requires Filled() && Indexed() && strstart + lookahead + size <= 2 * wSize
      modifies this`nextIn, this`all, this`lookahead, window
      ensures Filled() && Indexed() && all + nextIn == old(all + nextIn) && old(all) <= all
      ensures len == |old(nextIn)| - |nextIn| && lookahead == old(lookahead) + len && (old(nextIn) != [] && size > 0 ==> len > 0)
      ensures len == size || nextIn == []
    {
      hide Chained, Holds;
      len := if |nextIn| > size then size else |nextIn|;
      ghost var taken, before := nextIn[..len], window[..];
      var at := strstart + lookahead;
      PutAt(at, nextIn[..len]);
      HoldsMore(before, window[..], all, base, at, taken);
      dict.MoreInput(all, taken, base);
      assert nextIn == taken + nextIn[len..];
      assert (all + taken) + nextIn[len..] == all + nextIn;
      all := all + taken;
      nextIn := nextIn[len..];
      lookahead := lookahead + len;
    }

    /** memcpy(buf, strm->next_in, len) */
    method PutAt(at: nat, s: seq<byte>)
      requires at + |s| <= window.Length
      modifies window
      ensures window[..at] == old(window[..at]) && window[at..at + |s|] == s
    {
      for i := 0 to |s|
        invariant window[..at] == old(window[..at]) && window[at..at + i] == s[..i]
      {
        window[at + i] := s[i];
      }
    }

    /** Inserts one of the strings that had to wait. */
    method InsertWaiting(str: nat)
      requires Filled() && Indexed() && dict.top <= base + str && str + 2 < strstart + lookahead && dict.Primed(all, base + str)
      modifies dict, dict.head, dict.prev
      ensures Indexed() && dict.top == base + str + 1 && dict.Primed(all, base + str + 1) && dict.inserted == old(dict.inserted) + {base + str}
    {
      hide Chained, HashSpec.Update, HashSpec.Primes;
      var _ := dict.Insert(str, window[str + 2], all, base);
    }

    /** Starts the hash again, and inserts the strings that had to wait for their third byte. */
    method CatchUp()
      requires Filled() && Indexed() && insert <= strstart && insert < MIN_MATCH
      requires dict.top <= base + strstart - insert && lookahead + insert >= MIN_MATCH
      modifies this`insert, dict, dict.head, dict.prev
      ensures Kept() && insert == (if lookahead >= 2 then 0 else 2 - lookahead)
      ensures forall p: nat :: p in dict.inserted <==> p in old(dict.inserted) || base + strstart - old(insert) <= p < base + strstart - insert
    {
      hide Chained, HashSpec.Update, Holds, Dictionary.Primed, Dictionary.Valid;
      var str := strstart - insert;
      RestartAt(str);
      while insert > 0
        invariant Filled() && Indexed() && insert <= strstart && str == strstart - insert && dict.top <= base + str
        invariant str + 1 < strstart + lookahead && dict.Primed(all, base + str)
        invariant insert < MIN_MATCH && (insert == 0 ==> lookahead >= 2)
        invariant insert > 0 ==> lookahead + insert >= MIN_MATCH
        invariant forall p: nat :: p in dict.inserted <==> p in old(dict.inserted) || base + strstart - old(insert) <= p < base + str
      {
        InsertWaiting(str);
        str := str + 1;
        insert := insert - 1;
        if lookahead + insert < MIN_MATCH { break; }
      }
    }

    /** The hash starts anew at the string at window position str. */
    method RestartAt(str: nat)
      requires Filled() && Indexed() && str + 1 < strstart + lookahead
      modifies dict`insH
      ensures Indexed() && dict.Primed(all, base + str)
    {
      hide Chained, HashSpec.Update, HashSpec.Primes;
      dict.Restart(window[str], window[str + 1], all, base + str);
    }

    /** Makes room if there is none, reads input, and catches up with the dictionary, until there is enough lookahead or no input. */
    method FillWindow()
      requires Kept() && lookahead < MIN_LOOKAHEAD
      modifies this`strstart, this`lookahead, this`insert, this`matchStart, this`nextIn, this`all, this`base, window, dict, dict.head, dict.prev
      ensures Kept() && strstart < wSize + MaxDist() && (old(strstart) >= 1 ==> strstart >= 1)
      ensures base + strstart == old(base + strstart) && base + matchStart == old(base + matchStart) && old(base) <= base
      ensures all + nextIn == old(all + nextIn) && old(all) <= all && lookahead + |nextIn| == old(lookahead + |nextIn|)
      ensures lookahead >= MIN_LOOKAHEAD || nextIn == []
      ensures CaughtUp(old(dict.inserted), dict.inserted, old(base + strstart - insert), base + strstart - insert)
    {
      hide Chained, Holds, CaughtUp;
      NotYet(dict.inserted, base + strstart - insert);
      while true
        invariant Kept() && lookahead < MIN_LOOKAHEAD && (old(strstart) >= 1 ==> strstart >= 1)
        invariant CaughtUp(old(dict.inserted), dict.inserted, old(base + strstart - insert), base + strstart - insert)
        invariant base + strstart == old(base + strstart) && base + matchStart == old(base + matchStart) && old(base) <= base
        invariant all + nextIn == old(all + nextIn) && old(all) <= all && lookahead + |nextIn| == old(lookahead + |nextIn|)
        decreases |nextIn|
      {
        ghost var had, from := dict.inserted, base + strstart - insert;
        FillOnce();
        CaughtUpMore(old(dict.inserted), had, dict.inserted, old(base + strstart - insert), from, base + strstart - insert);
        if !(lookahead < MIN_LOOKAHEAD && nextIn != []) { break; }
      }
    }

    /** How much room there is at the end of the window, after it has slid if it had to. */
    method MakeRoom() returns (more: nat)
      requires Kept() && lookahead < MIN_LOOKAHEAD
      modifies this`strstart, this`insert, this`matchStart, this`base, window, dict.head, dict.prev
      ensures Kept() && strstart < wSize + MaxDist() && (old(strstart) >= 1 ==> strstart >= 1) && more == 2 * wSize - lookahead - strstart
      ensures base + strstart == old(base + strstart) && base + matchStart == old(base + matchStart) && old(base) <= base && insert == old(insert)
    {
      assert strstart + lookahead <= 2 * wSize;
      hide Chained, Holds;
      more := 2 * wSize - lookahead - strstart;
      if strstart >= wSize + MaxDist() {
        Slide(more);
        more := more + wSize;
      }
    }

    method FillOnce()
      requires Kept() && lookahead < MIN_LOOKAHEAD
      modifies this`strstart, this`lookahead, this`insert, this`matchStart, this`nextIn, this`all, this`base, window, dict, dict.head, dict.prev
      ensures Kept() && strstart < wSize + MaxDist() && (old(strstart) >= 1 ==> strstart >= 1)
      ensures base + strstart == old(base + strstart) && base + matchStart == old(base + matchStart) && old(base) <= base
      ensures all + nextIn == old(all + nextIn) && old(all) <= all && lookahead + |nextIn| == old(lookahead + |nextIn|)
      ensures old(nextIn) != [] ==> |nextIn| < |old(nextIn)|
      ensures CaughtUp(old(dict.inserted), dict.inserted, old(base + strstart - insert), base + strstart - insert)
    {
      hide Chained, Holds;
      var more := MakeRoom();
      if nextIn == [] { return; }
      assert more >= 2;
      var n := ReadBuf(more);
      if lookahead + insert >= MIN_MATCH { CatchUp(); }
    }

    // ---------- Longest match ----------

    /** A string in the dictionary within reach, with the hash of the present string. */
    ghost predicate Candidate(cur: nat)
      reads this`strstart, this`all, this`base, dict`inserted
    {
      && 0 < cur < strstart && strstart - cur <= MaxDist() && base + cur in dict.inserted
      && base + strstart + 2 < |all| && Key(dict.hash, all, base + cur) == Key(dict.hash, all, base + strstart)
    }

    /** An earlier occurrence of the first n bytes of the present string. */
    ghost predicate Occurs(start: int, n: int)
      reads this`strstart, window
    {
      0 < start < strstart && strstart - start <= MaxDist() && Agree(window[..], start, strstart, n)
    }

    /** With equal hashes, two equal bytes are enough for three. */
    lemma ThirdByteEqual(cur: nat)
      requires Filled() && Indexed() && lookahead >= MIN_MATCH && Candidate(cur)
      requires window[cur] == window[strstart] && window[cur + 1] == window[strstart + 1]
      ensures window[cur + 2] == window[strstart + 2]
    {
      hide Chained, HashSpec.Update;
      assert dict.hash.Good() by { GoodHash(); }
      assert window[cur] == all[base + cur] && window[cur + 1] == all[base + cur + 1] && window[cur + 2] == all[base + cur + 2];
      assert window[strstart + 2] == all[base + strstart + 2];
      dict.hash.ThirdByte(all[base + cur], all[base + cur + 1], all[base + cur + 2], all[base + strstart + 2]);
    }

    lemma GoodHash()
      requires Indexed()
      ensures dict.hash.Good()
    {
    }

    /** Compares from the fourth byte on, checking for the end only after every eight bytes. */
    method CommonLength(cur: nat) returns (scan: nat)
      requires window.Length == 2 * wSize && cur < strstart <= 2 * wSize - MIN_LOOKAHEAD && Agree(window[..], cur, strstart, 3)
      ensures 3 <= scan <= MAX_MATCH && Agree(window[..], cur, strstart, scan)
      ensures scan == MAX_MATCH || window[cur + scan] != window[strstart + scan]
    {
      hide Agree;
      scan := 2;
      while true
        invariant 2 <= scan <= MAX_MATCH - 8 && scan % 8 == 2 && Agree(window[..], cur, strstart, scan + 1)
        decreases MAX_MATCH - scan
      {
        ghost var from := scan;
        for k := 0 to 8
          invariant scan == from + k && Agree(window[..], cur, strstart, scan + 1)
        {
          scan := scan + 1;
          if window[strstart + scan] != window[cur + scan] { return; }
          AgreeMore(window[..], cur, strstart, scan);
        }
        if scan >= MAX_MATCH {
          AgreeLess(window[..], cur, strstart, scan + 1, scan);
          return;
        }
      }
    }

    /** The string at p agrees with the present one for at most n bytes, as far as matches go. */
    ghost predicate AtMost(p: nat, n: nat)
      reads this`strstart, window
    {
      n >= MAX_MATCH || !Agree(window[..], p, strstart, n + 1)
    }

    lemma Mismatch(p: nat, k: nat, n: nat)
      requires p < strstart && k <= n && strstart + k < window.Length && window[p + k] != window[strstart + k]
      ensures AtMost(p, n)
    {
      var w := window[..];
      assert w[strstart + k] != w[p + k];
    }

    lemma AtMostMore(p: nat, n: nat, m: nat)
      requires AtMost(p, n) && n <= m
      ensures AtMost(p, m)
    {
      if Agree(window[..], p, strstart, m + 1) { AgreeLess(window[..], p, strstart, m + 1, n + 1); }
    }

    /** How far a candidate agrees; 0 when it cannot be better than bestLen. */
    method Try(cur: nat, bestLen: nat) returns (l: nat)
      requires Filled() && Indexed() && lookahead >= MIN_MATCH && strstart <= 2 * wSize - MIN_LOOKAHEAD && Candidate(cur) && 1 <= bestLen <= MAX_MATCH
      ensures l > 0 ==> MIN_MATCH <= l <= MAX_MATCH && Agree(window[..], cur, strstart, l)
      ensures AtMost(cur, if l > bestLen then l else bestLen)
    {
      hide Chained, Holds, Key, AtMost, Agree;
      l := 0;
      if window[cur + bestLen] != window[strstart + bestLen] {
        Mismatch(cur, bestLen, bestLen);
      } else if window[cur + bestLen - 1] != window[strstart + bestLen - 1] {
        Mismatch(cur, bestLen - 1, bestLen);
      } else if window[cur] != window[strstart] {
        Mismatch(cur, 0, bestLen);
      } else if window[cur + 1] != window[strstart + 1] {
        Mismatch(cur, 1, bestLen);
      } else {
        ThirdByteEqual(cur);
        FirstThree(cur);
        l := CommonLength(cur);
        if l == MAX_MATCH { LongEnough(cur, l); } else { Mismatch(cur, l, l); }
        if l <= bestLen { AtMostMore(cur, l, bestLen); }
      }
    }

    lemma FirstThree(p: nat)
      requires p < strstart && strstart + 3 <= window.Length
      requires window[p] == window[strstart] && window[p + 1] == window[strstart + 1] && window[p + 2] == window[strstart + 2]
      ensures Agree(window[..], p, strstart, 3)
    {
    }

    lemma LongEnough(p: nat, n: nat)
      requires n >= MAX_MATCH
      ensures AtMost(p, n)
    {
    }

    /** Where the search stops: links to strings out of reach, or to none. */
    function Limit(): nat
      reads this`strstart
    {
      if strstart > MaxDist() then strstart - MaxDist() else 0
    }

    /** v is the latest string before cur with the hash of the present one, or 0. */
    ghost predicate Before(v: nat, cur: nat)
      reads this`strstart, this`all, this`base, dict`inserted
    {
      base + strstart + 2 < |all| && IsLatest(dict.hash, all, base, dict.inserted, v, Key(dict.hash, all, base + strstart), base + cur)
    }

    /** The beginning of the chain from cur. */
    ghost predicate FromChain(visited: seq<nat>, cur: nat)
      reads this`strstart, this`all, this`base, dict`inserted
    {
      visited != [] && visited[0] == cur && forall i :: 0 < i < |visited| ==> Before(visited[i], visited[i - 1]) && visited[i] > Limit()
    }

    /** No string before cur with the hash of the present one is nearer than the limit. */
    ghost predicate NoneLeft(cur: nat)
      reads this`strstart, this`all, this`base, dict`inserted
    {
      && base + strstart + 2 < |all|
      && var h := Key(dict.hash, all, base + strstart);
         forall p :: base + Limit() < p < base + cur ==> !IsOne(dict.hash, all, dict.inserted, p, h)
    }

    /** The search may end here: a long enough match, the end of the chain, or enough of it seen. */
    ghost predicate Enough(visited: seq<nat>, len: nat, prevLength: nat, nice: nat, chainLength: nat)
      reads this`strstart, this`lookahead, this`all, this`base, dict`inserted
    {
      (len > prevLength && len >= nice) || len >= lookahead || |visited| >= chainLength || (visited != [] && NoneLeft(visited[|visited| - 1]))
    }

    /** One more string of the chain. */
    lemma ChainGoesOn(visited: seq<nat>, first: nat, next: nat)
      requires FromChain(visited, first) && Before(next, visited[|visited| - 1]) && next > Limit()
      ensures FromChain(visited + [next], first)
    {
      hide Before, Limit;
      var more := visited + [next];
      forall i | 0 < i < |more| ensures Before(more[i], more[i - 1]) && more[i] > Limit() {
        if i < |visited| { assert Before(visited[i], visited[i - 1]); }
      }
    }

    lemma ChainEnds(cur: nat, next: nat)
      requires Before(next, cur) && next <= Limit()
      ensures NoneLeft(cur)
    {
      hide IsOne, Key, Limit;
    }

    /** The next string of the chain, which is a candidate unless it is too far away. */
    method FollowChain(cur: nat) returns (next: nat)
      requires Kept0() && Candidate(cur) && strstart < 2 * wSize
      ensures Before(next, cur) && (next > Limit() ==> Candidate(next))
    {
      hide Chained, Holds, Key;
      next := dict.Next(cur, all, base);
    }

    /** No string visited agrees with the present one for more than n bytes. */
    ghost predicate AllAtMost(visited: seq<nat>, n: nat)
      reads this`strstart, window
    {
      forall i :: 0 <= i < |visited| ==> AtMost(visited[i], n)
    }

    /** No string visited that is nearer than the match agrees with the present one for more than n bytes. */
    ghost predicate NearerAtMost(visited: seq<nat>, n: nat)
      reads this`strstart, this`matchStart, window
    {
      forall i :: 0 <= i < |visited| && visited[i] > matchStart ==> AtMost(visited[i], n)
    }

    /** The last string visited is the farthest. */
    ghost predicate Descending(visited: seq<nat>) {
      visited != [] && forall i :: 0 <= i < |visited| - 1 ==> visited[i] > visited[|visited| - 1]
    }

    lemma NearerOnes(visited: seq<nat>, n: nat)
      requires Descending(visited) && matchStart == visited[|visited| - 1] && AllAtMost(visited[..|visited| - 1], n)
      ensures NearerAtMost(visited, n)
    {
      hide AtMost;
      forall i | 0 <= i < |visited| && visited[i] > matchStart ensures AtMost(visited[i], n) {
        assert visited[..|visited| - 1][i] == visited[i];
      }
    }

    /** The next string visited is farther than all before. */
    lemma FartherOne(visited: seq<nat>, next: nat, n: nat)
      requires Descending(visited) && Before(next, visited[|visited| - 1]) && next > 0
      ensures Descending(visited + [next])
      ensures NearerAtMost(visited, n) && matchStart in visited ==> NearerAtMost(visited + [next], n)
    {
      hide AtMost, IsOne, Key;
    }

    lemma NearerLess(visited: seq<nat>, n: nat, m: nat)
      requires NearerAtMost(visited, n) && n <= m
      ensures NearerAtMost(visited, m)
    {
      hide AtMost;
      forall i | 0 <= i < |visited| && visited[i] > matchStart ensures AtMost(visited[i], m) { AtMostMore(visited[i], n, m); }
    }

    /** Looks at one more candidate of the chain. */
    method Visit(cur: nat, bestLen: nat, prevLength: nat, ghost before: seq<nat>) returns (best: nat)
      requires Filled() && Indexed() && lookahead >= MIN_MATCH && strstart <= 2 * wSize - MIN_LOOKAHEAD && Candidate(cur)
      requires 1 <= prevLength <= bestLen <= MAX_MATCH && (bestLen > prevLength ==> Occurs(matchStart, bestLen)) && AllAtMost(before, bestLen)
      modifies this`matchStart
      ensures bestLen <= best <= MAX_MATCH && (best > prevLength ==> Occurs(matchStart, best)) && AllAtMost(before + [cur], best)
      ensures matchStart == old(matchStart) || (Occurs(matchStart, MIN_MATCH) && best > bestLen)
      ensures if best == bestLen then matchStart == old(matchStart) else matchStart == cur
    {
      hide Chained, Holds, Key, Agree, AtMost;
      best := bestLen;
      var l := Try(cur, bestLen);
      if l > bestLen {
        AgreeLess(window[..], cur, strstart, l, MIN_MATCH);
        forall i | 0 <= i < |before| ensures AtMost(before[i], l) { AtMostMore(before[i], bestLen, l); }
        matchStart, best := cur, l;
      }
    }

    /** A length that beats the previous one is that of the match, and the nearer strings agree for at most bar, which is less. */
    ghost predicate Holding(visited: seq<nat>, bestLen: nat, prevLength: nat, bar: nat, nice: nat)
      reads this`strstart, this`matchStart, window
    {
      bestLen > prevLength ==>
        && Occurs(matchStart, bestLen) && matchStart in visited
        && bar < bestLen && (bar == prevLength || bar < nice) && NearerAtMost(visited, bar)
    }

    /** The search after these strings: they agree with the present one for at most the best length. */
    ghost predicate Seen(visited: seq<nat>, bestLen: nat, prevLength: nat, bar: nat, nice: nat)
      reads this`strstart, this`matchStart, window
    {
      && prevLength <= bestLen <= MAX_MATCH && Descending(visited) && AllAtMost(visited, bestLen)
      && Holding(visited, bestLen, prevLength, bar, nice)
    }

    /** The search with the last of these strings, cur, still to look at. */
    ghost predicate Looking(visited: seq<nat>, cur: nat, bestLen: nat, prevLength: nat, bar: nat, nice: nat)
      reads this`strstart, this`matchStart, window
    {
      && prevLength <= bestLen <= MAX_MATCH && Descending(visited) && visited[|visited| - 1] == cur && AllAtMost(visited[..|visited| - 1], bestLen)
      && (bestLen == prevLength || bestLen < nice) && Holding(visited, bestLen, prevLength, bar, nice)
    }

    lemma LookingFirst(cur: nat, prevLength: nat, nice: nat)
      requires prevLength <= MAX_MATCH
      ensures Looking([cur], cur, prevLength, prevLength, 0, nice)
    {
    }

    lemma LookingNext(visited: seq<nat>, next: nat, bestLen: nat, prevLength: nat, bar: nat, nice: nat)
      requires Seen(visited, bestLen, prevLength, bar, nice) && (bestLen == prevLength || bestLen < nice)
      requires Before(next, visited[|visited| - 1]) && next > 0
      ensures Looking(visited + [next], next, bestLen, prevLength, bar, nice)
    {
      hide Before, AllAtMost, NearerAtMost, Occurs, Descending;
      FartherOne(visited, next, bar);
      assert (visited + [next])[..|visited|] == visited;
    }

    /** Looks at the string that is still to look at. */
    method VisitLast(ghost visited: seq<nat>, cur: nat, bestLen: nat, prevLength: nat, ghost bar: nat, ghost nice: nat)
      returns (best: nat, ghost bar': nat)
      requires Filled() && Indexed() && lookahead >= MIN_MATCH && strstart <= 2 * wSize - MIN_LOOKAHEAD && Candidate(cur)
      requires 1 <= prevLength && Looking(visited, cur, bestLen, prevLength, bar, nice)
      modifies this`matchStart
      ensures best >= bestLen && Seen(visited, best, prevLength, bar', nice)
      ensures matchStart == old(matchStart) || Occurs(matchStart, MIN_MATCH)
    {
      hide Filled, Indexed, Candidate, AllAtMost, NearerAtMost, Occurs;
      assert visited == visited[..|visited| - 1] + [cur];
      best := Visit(cur, bestLen, prevLength, visited[..|visited| - 1]);
      bar' := bar;
      if best > bestLen {
        bar' := bestLen;
        NearerOnes(visited, bestLen);
      }
    }

    /** What the search has found, within the input. */
    lemma SeenInInput(visited: seq<nat>, bestLen: nat, prevLength: nat, bar: nat, nice: nat, len: nat)
      requires Seen(visited, bestLen, prevLength, bar, nice) && nice <= lookahead && len == if bestLen <= lookahead then bestLen else lookahead
      ensures len > prevLength ==> Occurs(matchStart, len) && matchStart in visited && NearerAtMost(visited, len - 1)
      ensures len == lookahead || AllAtMost(visited, len)
    {
      hide AllAtMost, NearerAtMost, Occurs, Descending;
      if len > prevLength {
        OccursLess(matchStart, bestLen, len);
        NearerLess(visited, bar, len - 1);
      }
    }

    lemma LookingBounds(visited: seq<nat>, cur: nat, bestLen: nat, prevLength: nat, bar: nat, nice: nat)
      requires Looking(visited, cur, bestLen, prevLength, bar, nice)
      ensures prevLength <= bestLen && (bestLen == prevLength || bestLen < nice)
    {
    }

    lemma SeenBounds(visited: seq<nat>, bestLen: nat, prevLength: nat, bar: nat, nice: nat)
      requires Seen(visited, bestLen, prevLength, bar, nice)
      ensures prevLength <= bestLen <= MAX_MATCH && visited != []
    {
    }

    /**
     * Searches the chain for the longest earlier occurrence of the present string. A result longer
     * than prevLength is the length of a real occurrence at matchStart, the nearest of that length;
     * and none of the strings visited in the chain agrees with the present one for longer, inside the input.
     */
    method LongestMatch(curMatch: nat, prevLength: nat, goodMatch: nat, niceMatch0: nat, maxChain: nat) returns (len: nat, ghost visited: seq<nat>)
      requires Kept0() && lookahead >= MIN_MATCH && strstart <= 2 * wSize - MIN_LOOKAHEAD && Candidate(curMatch)
      requires 1 <= prevLength <= MAX_MATCH && maxChain >= 4
      modifies this`matchStart
      ensures len <= lookahead && len <= MAX_MATCH && (len >= prevLength || len == lookahead)
      ensures len > prevLength ==> Occurs(matchStart, len) && matchStart in visited && NearerAtMost(visited, len - 1)
      ensures matchStart == old(matchStart) || Occurs(matchStart, MIN_MATCH)
      ensures FromChain(visited, curMatch) && Enough(visited, len, prevLength, niceMatch0, if prevLength >= goodMatch then maxChain / 4 else maxChain)
      ensures len == lookahead || AllAtMost(visited, len)
    {
      hide Chained, Holds, Key, Agree, AllAtMost, Slot, FromChain, Before, NoneLeft, Candidate, Occurs, Filled, Indexed, NearerAtMost, Seen, Looking;
      var chainLength := maxChain;
      var bestLen := prevLength;
      var niceMatch := niceMatch0;
      var limit := Limit();
      if prevLength >= goodMatch { chainLength := chainLength / 4; }
      ghost var most, bar := chainLength, 0;
      if niceMatch > lookahead { niceMatch := lookahead; }
      var cur: nat := curMatch;
      visited := [curMatch];
      FirstOfChain(curMatch);
      LookingFirst(curMatch, prevLength, niceMatch);
      while true
        invariant Candidate(cur) && chainLength >= 1 && |visited| == most + 1 - chainLength
        invariant Looking(visited, cur, bestLen, prevLength, bar, niceMatch)
        invariant matchStart == old(matchStart) || Occurs(matchStart, MIN_MATCH)
        invariant FromChain(visited, curMatch) && visited[|visited| - 1] == cur
        decreases chainLength
      {
        var before := bestLen;
        LookingBounds(visited, cur, bestLen, prevLength, bar, niceMatch);
        bestLen, bar := VisitLast(visited, cur, bestLen, prevLength, bar, niceMatch);
        SeenBounds(visited, bestLen, prevLength, bar, niceMatch);
        if bestLen > before && bestLen >= niceMatch { break; }
        var next := FollowChain(cur);
        if next <= limit {
          ChainEnds(cur, next);
          break;
        }
        chainLength := chainLength - 1;
        if chainLength == 0 { break; }
        ChainGoesOn(visited, curMatch, next);
        LookingNext(visited, next, bestLen, prevLength, bar, niceMatch);
        cur := next;
        visited := visited + [cur];
      }
      len := if bestLen <= lookahead then bestLen else lookahead;
      SeenInInput(visited, bestLen, prevLength, bar, niceMatch, len);
    }

    lemma FirstOfChain(cur: nat)
      ensures FromChain([cur], cur)
    {
    }

    lemma OccursLess(start: int, n: nat, m: nat)
      requires Occurs(start, n) && m <= n
      ensures Occurs(start, m)
    {
      hide Agree;
      AgreeLess(window[..], start, strstart, n, m);
    }

    lemma NoneYet(n: nat)
      ensures AllAtMost([], n)
    {
    }

    /** What holds right after the present string was inserted. */
    ghost predicate Kept0()
      reads this`strstart, this`lookahead, this`all, this`base, window, dict, dict.head, dict.prev
    {
      Filled() && Indexed() && dict.top <= base + strstart + 1
    }

    // ---------- Moving on ----------

    /** The present string has been inserted, if it has three bytes. */
    ghost predicate Entered()
      reads this`strstart, this`lookahead, this`insert, this`all, this`base, window, dict, dict.head, dict.prev
    {
      && Kept0() && insert <= strstart
      && (insert > 0 ==> lookahead + insert < MIN_MATCH && dict.top <= base + strstart - insert)
      && (lookahead >= MIN_MATCH ==> dict.Primed(all, base + strstart + 1))
    }

    /** INSERT_STRING for the present string, if it has three bytes. */
    method InsertHere() returns (hashHead: nat)
      requires Kept()
      modifies dict, dict.head, dict.prev
      ensures Entered() && (hashHead != 0 && strstart - hashHead <= MaxDist() ==> Candidate(hashHead))
      ensures lookahead < MIN_MATCH ==> hashHead == 0 && dict.inserted == old(dict.inserted)
      ensures lookahead >= MIN_MATCH ==> dict.inserted == old(dict.inserted) + {base + strstart} && Before(hashHead, strstart)
    {
      hide Chained, Key;
      hashHead := 0;
      if lookahead >= MIN_MATCH {
        ghost var had := dict.inserted;
        hashHead := dict.Insert(strstart, window[strstart + 2], all, base);
        LatestStays(dict.hash, all, base, had, base + strstart, hashHead, Key(dict.hash, all, base + strstart), base + strstart);
      }
    }

    /** The next string, without inserting it. */
    method Advance()
      requires Entered() && lookahead >= 1
      modifies this`strstart, this`lookahead
      ensures Kept() && strstart == old(strstart) + 1 && lookahead == old(lookahead) - 1
    {
      hide Chained, Holds;
      strstart, lookahead := strstart + 1, lookahead - 1;
    }

    /** The next string, which is inserted while it has three bytes. */
    method AdvanceAndInsert()
      requires Entered() && lookahead >= 1
      modifies this`strstart, this`lookahead, dict, dict.head, dict.prev
      ensures Entered() && strstart == old(strstart) + 1 && lookahead == old(lookahead) - 1
      ensures dict.inserted == old(dict.inserted) + if base + strstart + 2 < |all| then {base + strstart} else {}
    {
      hide Chained, Holds;
      Advance();
      Whole();
      var _ := InsertHere();
    }

    /** Past a short match, with all its strings inserted. */
    method AdvanceInserting(length: nat)
      requires Entered() && 1 <= length <= lookahead
      modifies this`strstart, this`lookahead, dict, dict.head, dict.prev
      ensures Kept() && strstart == old(strstart) + length && lookahead == old(lookahead) - length
      ensures forall p: nat :: p in dict.inserted <==> p in old(dict.inserted) || (old(base + strstart) < p < base + strstart && p + 2 < |all|)
    {
      hide Chained, Holds;
      var n := length - 1;
      while n != 0
        invariant forall p: nat :: p in dict.inserted <==> p in old(dict.inserted) || (old(base + strstart) < p <= base + strstart && p + 2 < |all|)
        invariant Entered() && 0 <= n < length && strstart == old(strstart) + length - 1 - n && lookahead == old(lookahead) - (length - 1 - n)
      {
        AdvanceAndInsert();
        n := n - 1;
      }
      Advance();
    }

    /** Past a long match, whose strings are not inserted. */
    method AdvanceSkipping(length: nat)
      requires Entered() && 1 <= length <= lookahead && strstart + length + 1 < 2 * wSize
      modifies this`strstart, this`lookahead, dict`insH
      ensures Kept() && strstart == old(strstart) + length && lookahead == old(lookahead) - length
    {
      hide Chained, HashSpec.Update;
      strstart, lookahead := strstart + length, lookahead - length;
      dict.Restart(window[strstart], window[strstart + 1], all, base + strstart);
    }

    /** At the end of the input so far, the last two strings are left to insert. */
    method LeaveLast()
      requires Kept() && lookahead == 0
      modifies this`insert
      ensures Kept() && insert == (if strstart < MIN_MATCH - 1 then strstart else MIN_MATCH - 1)
    {
      hide Holds;
      insert := if strstart < MIN_MATCH - 1 then strstart else MIN_MATCH - 1;
      Whole();
    }

    lemma Whole()
      requires Filled()
      ensures base + strstart + lookahead == |all|
    {
    }
  }
}
