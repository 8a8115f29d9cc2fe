/** A search in the window is a search in the input. */
module SearchMeaning {
  import opened Words
  import opened HashChains
  import opened Lz77
  import opened DeflateWindow
  import opened MatchChoice

  /** Window positions as input positions. */
  function Moved(base: nat, visited: seq<nat>): (r: seq<nat>)
    ensures |r| == |visited| && forall i :: 0 <= i < |r| ==> r[i] == base + visited[i]
  {
    seq<nat>(|visited|, i requires 0 <= i < |visited| => base + visited[i])
  }

  /** What a search for the present string amounts to, in the dictionary as it was before that string came in. */
  ghost function LookOf(w: Window, had: set<nat>, prevLength: nat, visited: seq<nat>, len: nat): Look
    reads w`strstart, w`all, w`base, w`matchStart
  {
    Look(w.base + w.strstart, |w.all|, w.base, had, prevLength, Moved(w.base, visited),
         if len > prevLength then len else prevLength, if w.base + w.matchStart >= 0 then w.base + w.matchStart else 0)
  }

  ghost predicate IsSetup(setup: Setup, w: Window) {
    setup.wSize == w.wSize && setup.hash == w.dict.hash
  }

  /** The present string has come into the dictionary last, if it has three bytes. */
  ghost predicate JustIn(w: Window, had: set<nat>)
    reads w`strstart, w`all, w`base, w`lookahead, w.dict`inserted, w.window
  {
    && w.Filled() && (forall p :: p in had ==> p < w.base + w.strstart && p + 2 < |w.all|)
    && w.dict.inserted == if w.lookahead >= MIN_MATCH then had + {w.base + w.strstart} else had
  }

  lemma LookIsPlaced(setup: Setup, w: Window, had: set<nat>, look: Look)
    requires IsSetup(setup, w) && JustIn(w, had) && look.at == w.base + w.strstart && look.input == |w.all| && look.base == w.base && look.inserted == had
    ensures Placed(setup, w.all, look) && look.input - look.at == w.lookahead
  {
    w.Whole();
  }

  lemma IsBefore(setup: Setup, w: Window, had: set<nat>, look: Look, v: nat, cur: nat)
    requires IsSetup(setup, w) && JustIn(w, had) && look.at == w.base + w.strstart && look.base == w.base && look.inserted == had
    requires w.lookahead >= MIN_MATCH && w.Before(v, cur) && cur <= w.strstart
    ensures v > 0 ==> Latest(setup, w.all, look, w.base + v, w.base + cur)
    ensures w.base + w.strstart + 2 < |w.all| && IsLatest(setup.hash, w.all, w.base, had, v, Key(setup.hash, w.all, look.at), w.base + cur)
  {
    hide IsLatest, Key;
    LatestStays(setup.hash, w.all, w.base, had, look.at, v, Key(setup.hash, w.all, look.at), w.base + cur);
  }

  lemma NoneIsLeft(setup: Setup, w: Window, had: set<nat>, look: Look, cur: nat)
    requires IsSetup(setup, w) && JustIn(w, had) && look.at == w.base + w.strstart && look.base == w.base && look.inserted == had
    requires w.lookahead >= MIN_MATCH && w.NoneLeft(cur) && cur <= w.strstart
    ensures NoneNearer(setup, w.all, look, w.base + cur, setup.MaxDist())
  {
    hide Key;
    var h := Key(setup.hash, w.all, look.at);
    forall p: nat | look.base < p < w.base + cur && look.at - p < setup.MaxDist() ensures !IsOne(setup.hash, w.all, had, p, h) {
      assert !IsOne(w.dict.hash, w.all, w.dict.inserted, p, h);
    }
  }

  /** Without a head within reach there is nothing to be found within reach. */
  lemma NothingNear(setup: Setup, w: Window, had: set<nat>, look: Look, v: nat)
    requires IsSetup(setup, w) && JustIn(w, had) && look.at == w.base + w.strstart && look.base == w.base && look.inserted == had
    requires w.lookahead >= MIN_MATCH && w.Before(v, w.strstart) && (v == 0 || w.strstart - v > w.MaxDist())
    ensures NoneNearer(setup, w.all, look, look.at, setup.MaxDist() + 1)
  {
    hide Key;
    var h := Key(setup.hash, w.all, look.at);
    IsBefore(setup, w, had, look, v, w.strstart);
    forall p: nat | look.base < p < look.at && look.at - p < setup.MaxDist() + 1 ensures !IsOne(setup.hash, w.all, had, p, h) {
      assert w.base + v < p < look.at;
    }
  }

  lemma DescendingChain(w: Window, visited: seq<nat>, first: nat, i: nat)
    requires w.FromChain(visited, first) && first < w.strstart && i < |visited|
    ensures visited[i] < w.strstart
  {
    hide Key, IsOne;
    if i > 0 {
      DescendingChain(w, visited, first, i - 1);
      assert w.Before(visited[i], visited[i - 1]) && visited[i] > w.Limit();
    }
  }

  lemma LooksInChain(setup: Setup, w: Window, had: set<nat>, look: Look, visited: seq<nat>, first: nat)
    requires IsSetup(setup, w) && JustIn(w, had) && look.at == w.base + w.strstart && look.base == w.base && look.inserted == had
    requires look.visited == Moved(w.base, visited) && w.lookahead >= MIN_MATCH
    requires w.FromChain(visited, first) && w.Before(first, w.strstart) && w.Candidate(first)
    ensures InChain(setup, w.all, look)
  {
    hide IsLatest, Key, Latest, Window.Before;
    forall i | 0 <= i < |look.visited| ensures LinkAt(setup, w.all, look, i) {
      if i == 0 {
        IsBefore(setup, w, had, look, first, w.strstart);
      } else {
        DescendingChain(w, visited, first, i - 1);
        assert w.Before(visited[i], visited[i - 1]) && visited[i] > w.Limit();
        IsBefore(setup, w, had, look, visited[i], visited[i - 1]);
      }
    }
  }

  /** Equal bytes in the window are equal bytes in the input, where there is input. */
  lemma AgreeIsSame(w: Window, p: nat, n: nat)
    requires w.Filled() && p < w.strstart && n <= w.lookahead
    ensures Agree(w.window[..], p, w.strstart, n) <==> Same(w.all, w.base + p, w.base + w.strstart, n)
  {
    var win, all, s := w.window[..], w.all, w.base + w.strstart;
    assert forall i :: 0 <= i < w.strstart + w.lookahead ==> win[i] == all[w.base + i];
    if Agree(win, p, w.strstart, n) {
      forall i {:trigger all[i]} | s <= i < s + n ensures all[i] == all[i - s + (w.base + p)] { assert win[i - w.base] == win[i - w.base - w.strstart + p]; }
    }
    if Same(all, w.base + p, s, n) {
      forall q {:trigger win[q]} | w.strstart <= q < w.strstart + n ensures win[q] == win[q - w.strstart + p] {
        assert all[w.base + q] == all[w.base + q - s + (w.base + p)];
      }
    }
  }

  lemma SameLess(all: seq<byte>, p: nat, q: nat, n: nat, m: nat)
    requires Same(all, p, q, n) && m <= n
    ensures Same(all, p, q, m)
  {
  }

  lemma NoLongerSeen(w: Window, look: Look, visited: seq<nat>, first: nat, len: nat)
    requires w.Filled() && look.at == w.base + w.strstart && look.input == |w.all| && look.visited == Moved(w.base, visited)
    requires w.FromChain(visited, first) && first < w.strstart && len <= w.lookahead && (len == w.lookahead || w.AllAtMost(visited, len)) && look.best >= len
    ensures NoneLonger(w.all, look)
  {
    hide Window.FromChain, Same, Agree;
    w.Whole();
    forall i, n: nat | 0 <= i < |look.visited| && look.best < n <= 258 && look.at + n <= look.input
      ensures !Same(w.all, look.visited[i], look.at, n)
    {
      DescendingChain(w, visited, first, i);
      assert w.AtMost(visited[i], len);
      AgreeIsSame(w, visited[i], len + 1);
      if Same(w.all, look.visited[i], look.at, n) { SameLess(w.all, look.visited[i], look.at, n, len + 1); }
    }
  }

  lemma NoneNearerSeen(w: Window, look: Look, visited: seq<nat>, first: nat, len: nat)
    requires w.Filled() && look.at == w.base + w.strstart && look.visited == Moved(w.base, visited) && look.start == w.base + w.matchStart
    requires w.FromChain(visited, first) && first < w.strstart && 0 < len <= w.lookahead && len <= MAX_MATCH && w.NearerAtMost(visited, len - 1)
    ensures forall i :: 0 <= i < |look.visited| && look.visited[i] > look.start ==> !Same(w.all, look.visited[i], look.at, len)
  {
    hide Window.FromChain, Same, Agree, Window.Filled;
    forall i | 0 <= i < |look.visited| && look.visited[i] > look.start ensures !Same(w.all, look.visited[i], look.at, len) {
      DescendingChain(w, visited, first, i);
      assert w.AtMost(visited[i], len - 1);
      AgreeIsSame(w, visited[i], len);
    }
  }

  /** A search that has looked at strings. */
  lemma SearchIsSound(setup: Setup, w: Window, had: set<nat>, prevLength: nat, visited: seq<nat>, first: nat, len: nat)
    requires IsSetup(setup, w) && JustIn(w, had) && w.lookahead >= MIN_MATCH && 2 <= prevLength && !(setup.lazy && prevLength >= setup.config.maxLazy)
    requires w.FromChain(visited, first) && w.Before(first, w.strstart) && w.Candidate(first)
    requires len <= w.lookahead && len <= MAX_MATCH && (len == w.lookahead || w.AllAtMost(visited, len))
    requires w.Enough(visited, len, prevLength, setup.config.niceMatch, ChainLimit(setup.config, prevLength))
    requires len > prevLength ==> w.Occurs(w.matchStart, len) && w.matchStart in visited && w.NearerAtMost(visited, len - 1)
    ensures Sound(setup, w.all, LookOf(w, had, prevLength, visited, len))
  {
    hide Window.AllAtMost, Window.NearerAtMost, Window.FromChain, Window.Before, Window.NoneLeft, Same, Agree, InChain, NoneLonger, NoneNearer, Placed, Window.Filled, JustIn;
    var look := LookOf(w, had, prevLength, visited, len);
    LookIsPlaced(setup, w, had, look);
    LooksInChain(setup, w, had, look, visited, first);
    InPlace(w, had);
    NoLongerSeen(w, look, visited, first, len);
    NotEmpty(w, visited, first);
    if w.NoneLeft(visited[|visited| - 1]) {
      DescendingChain(w, visited, first, |visited| - 1);
      NoneIsLeft(setup, w, had, look, visited[|visited| - 1]);
    }
    if len > prevLength {
      AgreeIsSame(w, w.matchStart, len);
      NoneNearerSeen(w, look, visited, first, len);
      var i :| 0 <= i < |visited| && visited[i] == w.matchStart;
      assert look.visited[i] == look.start;
    }
  }

  lemma InPlace(w: Window, had: set<nat>)
    requires JustIn(w, had)
    ensures w.Filled()
  {
  }

  lemma NotEmpty(w: Window, visited: seq<nat>, first: nat)
    requires w.FromChain(visited, first)
    ensures visited != []
  {
  }

  /** No search, for one of the three reasons. */
  lemma NoSearchIsSound(setup: Setup, w: Window, had: set<nat>, prevLength: nat, v: nat)
    requires IsSetup(setup, w) && JustIn(w, had)
    requires w.lookahead < MIN_MATCH || (setup.lazy && prevLength >= setup.config.maxLazy)
             || (w.Before(v, w.strstart) && (v == 0 || w.strstart - v > w.MaxDist()))
    ensures Sound(setup, w.all, LookOf(w, had, prevLength, [], 0))
  {
    hide Window.Before, Same, NoneNearer, Placed, JustIn;
    var look := LookOf(w, had, prevLength, [], 0);
    LookIsPlaced(setup, w, had, look);
    if w.lookahead >= MIN_MATCH && !(setup.lazy && prevLength >= setup.config.maxLazy) { NothingNear(setup, w, had, look, v); }
  }
}
