/** What deflate has to choose: which earlier strings a search sees, which match it finds, and which token follows from it. */
module MatchChoice {
  import opened Words
  import opened RollingHash
  import opened HashChains
  import opened Lz77

  /** A row of the configuration table: limits on the search that trade speed for compression. */
  datatype Config = Config(goodMatch: nat, maxLazy: nat, niceMatch: nat, maxChain: nat)

  /** How the compressor is set up. */
  datatype Setup = Setup(hash: HashSpec, wSize: nat, config: Config, filtered: bool, lazy: bool) {
    /** Distances go up to the window size less 262. */
    function MaxDist(): int { wSize - 262 }
  }

  /**
   * One search: the string at input position `at`, the input read by then, the input position of the start of the window,
   * the strings in the dictionary, the length to beat, the strings looked at, and the best length and where it was found.
   */
  datatype Look = Look(at: nat, input: nat, base: nat, inserted: set<nat>, prevLength: nat, visited: seq<nat>, best: nat, start: nat)

  // ---------- Strings ----------

  /** The n bytes from p on are those from q on. */
  ghost predicate Same(all: seq<byte>, p: nat, q: nat, n: nat) {
    p <= q && q + n <= |all| && forall i {:trigger all[i]} :: q <= i < q + n ==> all[i] == all[i - q + p]
  }

  /** p is the latest string before q in the dictionary, of those behind the start of the window, with the hash of the present one. */
  ghost predicate Latest(setup: Setup, all: seq<byte>, look: Look, p: nat, q: nat) {
    look.at + 2 < |all| && look.base < p && IsLatest(setup.hash, all, look.base, look.inserted, p - look.base, Key(setup.hash, all, look.at), q)
  }

  /** There is no string like that before q at a distance below d. */
  ghost predicate NoneNearer(setup: Setup, all: seq<byte>, look: Look, q: nat, d: int) {
    look.at + 2 < |all| && forall p :: look.base < p < q && look.at - p < d ==> !IsOne(setup.hash, all, look.inserted, p, Key(setup.hash, all, look.at))
  }

  // ---------- The search ----------

  /** Everything in the dictionary is an earlier string, all of it read; and the window reaches back far enough. */
  ghost predicate Placed(setup: Setup, all: seq<byte>, look: Look) {
    && look.at <= look.input <= |all| && (look.base == 0 || look.at - look.base >= setup.MaxDist())
    && forall p :: p in look.inserted ==> p < look.at && p + 2 < look.input
  }

  /** String i of those looked at is the latest before the one before it, or before the present one, and near enough. */
  ghost predicate LinkAt(setup: Setup, all: seq<byte>, look: Look, i: nat)
    requires i < |look.visited|
  {
    if i == 0 then Latest(setup, all, look, look.visited[0], look.at) && look.at - look.visited[0] <= setup.MaxDist()
    else Latest(setup, all, look, look.visited[i], look.visited[i - 1]) && look.at - look.visited[i] < setup.MaxDist()
  }

  /** The strings looked at are those of the hash chain, latest first, as far as they are near enough. */
  ghost predicate InChain(setup: Setup, all: seq<byte>, look: Look) {
    forall i :: 0 <= i < |look.visited| ==> LinkAt(setup, all, look, i)
  }

  /** At most this many strings are looked at. */
  function ChainLimit(config: Config, prevLength: nat): nat {
    if prevLength >= config.goodMatch then config.maxChain / 4 else config.maxChain
  }

  /** There is something to search for: three bytes, and no match at the previous string that is good enough. */
  predicate Wanted(setup: Setup, look: Look) {
    look.input - look.at >= 3 && !(setup.lazy && look.prevLength >= setup.config.maxLazy)
  }

  /** Why no string was looked at. */
  ghost predicate NoSearch(setup: Setup, all: seq<byte>, look: Look) {
    !Wanted(setup, look) || NoneNearer(setup, all, look, look.at, setup.MaxDist() + 1)
  }

  /** Why no more strings were looked at: a match that is long enough or as long as the input, enough strings, or no more near enough. */
  ghost predicate Stopped(setup: Setup, all: seq<byte>, look: Look)
    requires look.visited != []
  {
    || (look.best > look.prevLength && look.best >= setup.config.niceMatch) || look.best >= look.input - look.at
    || |look.visited| >= ChainLimit(setup.config, look.prevLength)
    || NoneNearer(setup, all, look, look.visited[|look.visited| - 1], setup.MaxDist())
  }

  /** No string looked at agrees for more than the best length, within the input and up to 258 bytes. */
  ghost predicate NoneLonger(all: seq<byte>, look: Look) {
    forall i, n: nat :: 0 <= i < |look.visited| && look.best < n <= 258 && look.at + n <= look.input ==> !Same(all, look.visited[i], look.at, n)
  }

  /** A length that beats the previous one is that of one of the strings looked at, and of none that is nearer. */
  ghost predicate IsMet(all: seq<byte>, look: Look) {
    && look.best >= look.prevLength
    && (look.best > look.prevLength ==>
          && 3 <= look.best <= 258 && look.at + look.best <= look.input && look.start in look.visited && Same(all, look.start, look.at, look.best)
          && forall i :: 0 <= i < |look.visited| && look.visited[i] > look.start ==> !Same(all, look.visited[i], look.at, look.best))
  }

  /** The search has seen what it had to, and found the best of it. */
  ghost predicate Sound(setup: Setup, all: seq<byte>, look: Look) {
    && Placed(setup, all, look) && InChain(setup, all, look) && NoneLonger(all, look) && IsMet(all, look)
    && (if look.visited == [] then NoSearch(setup, all, look) else Wanted(setup, look) && Stopped(setup, all, look))
  }

  /** The length of the match that comes of a search, 2 for none: with lazy evaluation, some short matches are not worth it. */
  function MatchLength(setup: Setup, look: Look): nat {
    if look.best <= look.prevLength then 2
    else if setup.lazy && look.best <= 5 && (setup.filtered || (look.best == 3 && look.at - look.start > 4096)) then 2
    else look.best
  }

  lemma SameHaveKey(hash: HashSpec, all: seq<byte>, p: nat, q: nat, n: nat)
    requires Same(all, p, q, n) && n >= 3
    ensures p + 2 < |all| && q + 2 < |all| && Key(hash, all, p) == Key(hash, all, q)
  {
    assert all[q] == all[q - q + p] && all[q + 1] == all[q + 1 - q + p] && all[q + 2] == all[q + 2 - q + p];
  }

  /** The strings of the chain that come after the i-th of those looked at. */
  lemma {:induction false} Skipped(setup: Setup, all: seq<byte>, look: Look, p: nat, i: nat)
    requires InChain(setup, all, look) && i < |look.visited| && look.at + 2 < |all| && look.base < p < look.at
    requires IsOne(setup.hash, all, look.inserted, p, Key(setup.hash, all, look.at))
    ensures p < look.visited[i] || exists j :: 0 <= j <= i && look.visited[j] == p
  {
    hide IsOne, Key;
    assert LinkAt(setup, all, look, i);
    if i > 0 { Skipped(setup, all, look, p, i - 1); }
    if p >= look.visited[i] && (i == 0 || p < look.visited[i - 1]) { assert look.visited[i] == p; }
  }

  /**
   * Unless the search was cut short, by the limit on the chain or by a match that is long enough, no string of the
   * dictionary within reach agrees with the present one for longer than the best length.
   */
  lemma NothingMissed(setup: Setup, all: seq<byte>, look: Look, p: nat, n: nat)
    requires Sound(setup, all, look) && Wanted(setup, look)
    requires |look.visited| < ChainLimit(setup.config, look.prevLength) && (look.best == look.prevLength || look.best < setup.config.niceMatch)
    requires p in look.inserted && 0 < p && look.at - p < setup.MaxDist()
    requires look.best < n <= 258 && 3 <= n && look.at + n <= look.input
    ensures !Same(all, p, look.at, n)
  {
    hide Key, Same, InChain;
    if Same(all, p, look.at, n) {
      SameHaveKey(setup.hash, all, p, look.at, n);
      assert IsOne(setup.hash, all, look.inserted, p, Key(setup.hash, all, look.at));
      if look.visited != [] { Skipped(setup, all, look, p, |look.visited| - 1); }
    }
  }

  // ---------- Tokens without lazy evaluation ----------

  /** A match if one was found, and it is the best of them; otherwise a literal. */
  ghost predicate Chosen(setup: Setup, all: seq<byte>, look: Look, token: Token) {
    && Sound(setup, all, look) && look.prevLength == 2 && look.at < look.input
    && token == if look.best >= 3 then Match(look.best, look.at - look.start) else Literal(all[look.at])
  }

  /** The token brings the string at p into the dictionary: the one where it begins, and all of a match that is not too long. */
  ghost predicate Enters(setup: Setup, look: Look, token: Token, p: nat) {
    || (p == look.at && look.input - look.at >= 3)
    || (token.Match? && token.length <= setup.config.maxLazy && look.input - look.at - token.length >= 3 && look.at <= p < look.at + token.length)
  }

  /** After the token the dictionary still has all its strings, and those that the token brought. */
  ghost predicate Grown(setup: Setup, look: Look, token: Token, inserted: set<nat>) {
    forall p: nat :: p in look.inserted || Enters(setup, look, token, p) ==> p in inserted
  }

  /** Token i is the choice after a search for the string where it begins, in a dictionary that has what came before. */
  ghost predicate GreedyAt(setup: Setup, all: seq<byte>, tokens: seq<Token>, looks: seq<Look>, i: nat)
    requires |looks| == |tokens| && i < |tokens|
  {
    && looks[i].at == |Expand(tokens[..i])| && Chosen(setup, all, looks[i], tokens[i])
    && (i > 0 ==> Grown(setup, looks[i - 1], tokens[i - 1], looks[i].inserted))
  }

  ghost predicate Greedy(setup: Setup, all: seq<byte>, tokens: seq<Token>, looks: seq<Look>) {
    |looks| == |tokens| && forall i :: 0 <= i < |tokens| ==> GreedyAt(setup, all, tokens, looks, i)
  }

  // ---------- Tokens with lazy evaluation ----------

  /** The match at a string is kept if it has three bytes and the next string has no longer one; otherwise the string's first byte is a literal. */
  ghost predicate ChosenLazily(setup: Setup, all: seq<byte>, look: Look, next: Look, token: Token) {
    && Sound(setup, all, look) && Sound(setup, all, next) && look.at < look.input && next.at == look.at + 1 && next.prevLength == MatchLength(setup, look)
    && token == if MatchLength(setup, look) >= 3 && MatchLength(setup, next) <= MatchLength(setup, look) then Match(MatchLength(setup, look), look.at - look.start)
                else Literal(all[look.at])
  }

  /** The token brings the string at p into the dictionary: the one where it begins, and all others of a match. */
  ghost predicate EntersLazily(look: Look, next: Look, token: Token, p: nat) {
    (p == look.at && look.input - look.at >= 3) || (token.Match? && look.at < p < look.at + token.length && p + 2 < next.input)
  }

  ghost predicate GrownLazily(look: Look, next: Look, token: Token, inserted: set<nat>) {
    forall p: nat :: p in look.inserted || EntersLazily(look, next, token, p) ==> p in inserted
  }

  /** After a literal the string that was the next one is the present one, unless the input had ended; after a match nothing is left to beat. */
  ghost predicate Connected(next: Look, token: Token, look: Look) {
    if token.Literal? && next.at < next.input then look == next else look.prevLength == 2
  }

  /** Token i is the choice after searches for the string where it begins and for the next one, in a dictionary that has what came before. */
  ghost predicate LazyAt(setup: Setup, all: seq<byte>, tokens: seq<Token>, looks: seq<Look>, nexts: seq<Look>, i: nat)
    requires |looks| == |nexts| == |tokens| && i < |tokens|
  {
    && looks[i].at == |Expand(tokens[..i])| && ChosenLazily(setup, all, looks[i], nexts[i], tokens[i])
    && if i == 0 then looks[0].prevLength == 2
       else Connected(nexts[i - 1], tokens[i - 1], looks[i]) && GrownLazily(looks[i - 1], nexts[i - 1], tokens[i - 1], looks[i].inserted)
  }

  ghost predicate Lazy(setup: Setup, all: seq<byte>, tokens: seq<Token>, looks: seq<Look>, nexts: seq<Look>) {
    |looks| == |nexts| == |tokens| && forall i :: 0 <= i < |tokens| ==> LazyAt(setup, all, tokens, looks, nexts, i)
  }

  // ---------- The searches of a run so far ----------

  /** The searches behind the tokens, and the one whose outcome is still to be compared with the next. */
  datatype Log = Log(looks: seq<Look>, nexts: seq<Look>, pending: Look)

  ghost predicate GreedyLog(setup: Setup, all: seq<byte>, tokens: seq<Token>, looks: seq<Look>, inserted: set<nat>) {
    Greedy(setup, all, tokens, looks) && (|tokens| > 0 ==> Grown(setup, looks[|tokens| - 1], tokens[|tokens| - 1], inserted))
  }

  /** The pending search is for the first string without a token, and has found what the compressor remembers. */
  ghost predicate IsPending(setup: Setup, all: seq<byte>, tokens: seq<Token>, log: Log, inserted: set<nat>, length: nat, start: int)
    requires |log.looks| == |log.nexts| == |tokens|
  {
    var n, look := |tokens|, log.pending;
    && Sound(setup, all, look) && look.at == |Expand(tokens)| && look.at < look.input
    && MatchLength(setup, look) == length && (length >= 3 ==> look.start == start)
    && (if n == 0 then look.prevLength == 2 else Connected(log.nexts[n - 1], tokens[n - 1], look) && GrownLazily(log.looks[n - 1], log.nexts[n - 1], tokens[n - 1], look.inserted))
    && forall p: nat :: p in look.inserted || (p == look.at && look.input - look.at >= 3) ==> p in inserted
  }

  /** Nothing is pending, and the next search has nothing to beat. */
  ghost predicate IsFree(tokens: seq<Token>, log: Log, inserted: set<nat>)
    requires |log.looks| == |log.nexts| == |tokens|
  {
    var n := |tokens|;
    n > 0 ==> (tokens[n - 1].Literal? ==> log.nexts[n - 1].at >= log.nexts[n - 1].input) && GrownLazily(log.looks[n - 1], log.nexts[n - 1], tokens[n - 1], inserted)
  }

  ghost predicate LazyLog(setup: Setup, all: seq<byte>, tokens: seq<Token>, log: Log, inserted: set<nat>, available: bool, length: nat, start: int) {
    && Lazy(setup, all, tokens, log.looks, log.nexts)
    && if available then IsPending(setup, all, tokens, log, inserted, length, start) else IsFree(tokens, log, inserted)
  }

  // ---------- Further input makes no difference ----------

  lemma LatestReadOn(setup: Setup, all: seq<byte>, all': seq<byte>, look: Look, p: nat, q: nat)
    requires all <= all' && Placed(setup, all, look) && Latest(setup, all, look, p, q)
    ensures Latest(setup, all', look, p, q)
  {
    hide IsLatest, Key;
    var more := all'[|all|..];
    assert all' == all + more;
    assert Key(setup.hash, all, look.at) == Key(setup.hash, all', look.at) by { SameKey(setup.hash, all, all', look.at); }
    LatestMore(setup.hash, all, more, look.base, look.inserted, p - look.base, Key(setup.hash, all, look.at), q);
  }

  lemma SameKey(hash: HashSpec, all: seq<byte>, all': seq<byte>, q: nat)
    requires all <= all' && q + 2 < |all|
    ensures Key(hash, all, q) == Key(hash, all', q)
  {
  }

  lemma NoneReadOn(setup: Setup, all: seq<byte>, all': seq<byte>, look: Look, q: nat, d: int)
    requires all <= all' && Placed(setup, all, look) && NoneNearer(setup, all, look, q, d)
    ensures NoneNearer(setup, all', look, q, d)
  {
    hide Key;
    var h := Key(setup.hash, all, look.at);
    SameKey(setup.hash, all, all', look.at);
    forall p: nat | look.base < p < q && look.at - p < d ensures !IsOne(setup.hash, all', look.inserted, p, h) {
      assert !IsOne(setup.hash, all, look.inserted, p, h);
      if p in look.inserted { SameKey(setup.hash, all, all', p); }
    }
  }

  lemma SameReadOn(all: seq<byte>, all': seq<byte>, p: nat, q: nat, n: nat)
    requires all <= all' && q + n <= |all|
    ensures Same(all, p, q, n) == Same(all', p, q, n)
  {
    if p <= q {
      assert forall i :: 0 <= i < |all| ==> all[i] == all'[i];
    }
  }

  lemma InChainReadOn(setup: Setup, all: seq<byte>, all': seq<byte>, look: Look)
    requires all <= all' && Placed(setup, all, look) && InChain(setup, all, look)
    ensures InChain(setup, all', look)
  {
    hide Latest, Placed;
    forall i | 0 <= i < |look.visited| ensures LinkAt(setup, all', look, i) {
      assert LinkAt(setup, all, look, i);
      LatestReadOn(setup, all, all', look, look.visited[i], if i == 0 then look.at else look.visited[i - 1]);
    }
  }

  lemma SoundReadOn(setup: Setup, all: seq<byte>, all': seq<byte>, look: Look)
    requires all <= all' && Sound(setup, all, look)
    ensures Sound(setup, all', look)
  {
    hide Same, NoneNearer, InChain;
    InChainReadOn(setup, all, all', look);
    if look.best > look.prevLength {
      SameReadOn(all, all', look.start, look.at, look.best);
      forall i | 0 <= i < |look.visited| && look.visited[i] > look.start ensures !Same(all', look.visited[i], look.at, look.best) {
        SameReadOn(all, all', look.visited[i], look.at, look.best);
      }
    }
    forall i, n: nat | 0 <= i < |look.visited| && look.best < n <= 258 && look.at + n <= look.input
      ensures !Same(all', look.visited[i], look.at, n)
    {
      SameReadOn(all, all', look.visited[i], look.at, n);
    }
    var q, d := if look.visited == [] then look.at else look.visited[|look.visited| - 1], setup.MaxDist() + if look.visited == [] then 1 else 0;
    if NoneNearer(setup, all, look, q, d) { NoneReadOn(setup, all, all', look, q, d); }
  }

  lemma GreedyReadOn(setup: Setup, all: seq<byte>, all': seq<byte>, tokens: seq<Token>, looks: seq<Look>)
    requires all <= all' && Greedy(setup, all, tokens, looks)
    ensures Greedy(setup, all', tokens, looks)
  {
    hide Sound, Expand, Grown;
    forall i | 0 <= i < |tokens| ensures GreedyAt(setup, all', tokens, looks, i) {
      assert GreedyAt(setup, all, tokens, looks, i);
      ChosenReadOn(setup, all, all', looks[i], tokens[i]);
    }
  }

  lemma ChosenReadOn(setup: Setup, all: seq<byte>, all': seq<byte>, look: Look, token: Token)
    requires all <= all' && Chosen(setup, all, look, token)
    ensures Chosen(setup, all', look, token)
  {
    SoundReadOn(setup, all, all', look);
  }

  lemma LazyReadOn(setup: Setup, all: seq<byte>, all': seq<byte>, tokens: seq<Token>, looks: seq<Look>, nexts: seq<Look>)
    requires all <= all' && Lazy(setup, all, tokens, looks, nexts)
    ensures Lazy(setup, all', tokens, looks, nexts)
  {
    hide Sound, Expand, GrownLazily, Connected, ChosenLazily;
    forall i | 0 <= i < |tokens| ensures LazyAt(setup, all', tokens, looks, nexts, i) {
      assert LazyAt(setup, all, tokens, looks, nexts, i);
      ChosenLazilyReadOn(setup, all, all', looks[i], nexts[i], tokens[i]);
    }
  }

  lemma ChosenLazilyReadOn(setup: Setup, all: seq<byte>, all': seq<byte>, look: Look, next: Look, token: Token)
    requires all <= all' && ChosenLazily(setup, all, look, next, token)
    ensures ChosenLazily(setup, all', look, next, token)
  {
    hide MatchLength;
    SoundReadOn(setup, all, all', look);
    SoundReadOn(setup, all, all', next);
  }

  /** Further input, and further strings in the dictionary. */
  lemma GreedyLogReadOn(setup: Setup, all: seq<byte>, all': seq<byte>, tokens: seq<Token>, looks: seq<Look>, inserted: set<nat>, inserted': set<nat>)
    requires all <= all' && inserted <= inserted' && GreedyLog(setup, all, tokens, looks, inserted)
    ensures GreedyLog(setup, all', tokens, looks, inserted')
  {
    hide Greedy, Enters;
    GreedyReadOn(setup, all, all', tokens, looks);
  }

  lemma LazyLogReadOn(setup: Setup, all: seq<byte>, all': seq<byte>, tokens: seq<Token>, log: Log, inserted: set<nat>, inserted': set<nat>,
                      available: bool, length: nat, start: int)
    requires all <= all' && inserted <= inserted' && LazyLog(setup, all, tokens, log, inserted, available, length, start)
    ensures LazyLog(setup, all', tokens, log, inserted', available, length, start)
  {
    hide Lazy, EntersLazily, Sound, Expand, MatchLength, Connected;
    LazyReadOn(setup, all, all', tokens, log.looks, log.nexts);
    LazyLengths(setup, all, tokens, log.looks, log.nexts);
    if available { SoundReadOn(setup, all, all', log.pending); }
  }

  lemma LazyLengths(setup: Setup, all: seq<byte>, tokens: seq<Token>, looks: seq<Look>, nexts: seq<Look>)
    requires Lazy(setup, all, tokens, looks, nexts)
    ensures |looks| == |nexts| == |tokens|
  {
  }

  // ---------- One more token ----------

  lemma GreedyOneMore(setup: Setup, all: seq<byte>, tokens: seq<Token>, looks: seq<Look>, token: Token, look: Look, inserted: set<nat>)
    requires GreedyLog(setup, all, tokens, looks, look.inserted) && look.at == |Expand(tokens)| && Chosen(setup, all, look, token)
    requires Grown(setup, look, token, inserted)
    ensures GreedyLog(setup, all, tokens + [token], looks + [look], inserted)
  {
    hide Chosen, Expand, Grown;
    var ts, ls := tokens + [token], looks + [look];
    forall i | 0 <= i < |ts| ensures GreedyAt(setup, all, ts, ls, i) {
      if i < |tokens| {
        assert GreedyAt(setup, all, tokens, looks, i) && ts[..i] == tokens[..i];
      } else {
        assert ts[..i] == tokens;
      }
    }
  }

  lemma LazyAppend(setup: Setup, all: seq<byte>, tokens: seq<Token>, looks: seq<Look>, nexts: seq<Look>, token: Token, look: Look, next: Look)
    requires Lazy(setup, all, tokens, looks, nexts) && look.at == |Expand(tokens)| && ChosenLazily(setup, all, look, next, token)
    requires var n := |tokens|;
             if n == 0 then look.prevLength == 2 else Connected(nexts[n - 1], tokens[n - 1], look) && GrownLazily(looks[n - 1], nexts[n - 1], tokens[n - 1], look.inserted)
    ensures Lazy(setup, all, tokens + [token], looks + [look], nexts + [next])
  {
    hide Expand, GrownLazily, Connected, ChosenLazily;
    var ts, ls, ns := tokens + [token], looks + [look], nexts + [next];
    forall i | 0 <= i < |ts| ensures LazyAt(setup, all, ts, ls, ns, i) {
      if i < |tokens| {
        assert LazyAt(setup, all, tokens, looks, nexts, i) && ts[..i] == tokens[..i];
      } else {
        assert ts[..i] == tokens;
      }
    }
  }

  lemma LazyOneMore(setup: Setup, all: seq<byte>, tokens: seq<Token>, log: Log, inserted: set<nat>, length: nat, start: int, next: Look, token: Token)
    requires LazyLog(setup, all, tokens, log, inserted, true, length, start) && ChosenLazily(setup, all, log.pending, next, token)
    ensures Lazy(setup, all, tokens + [token], log.looks + [log.pending], log.nexts + [next])
  {
    hide Lazy, Sound, Expand, GrownLazily, Connected, ChosenLazily, MatchLength;
    LazyLengths(setup, all, tokens, log.looks, log.nexts);
    LazyAppend(setup, all, tokens, log.looks, log.nexts, token, log.pending, next);
  }

  lemma MatchStarts(setup: Setup, all: seq<byte>, look: Look)
    requires Sound(setup, all, look) && MatchLength(setup, look) >= 3
    ensures look.start <= look.at
  {
  }

  /** The match of the pending search is taken: the present string has no longer one. */
  lemma MatchTaken(setup: Setup, all: seq<byte>, tokens: seq<Token>, log: Log, length: nat, start: int, next: Look, inserted: set<nat>)
    requires LazyLog(setup, all, tokens, log, next.inserted, true, length, start) && Sound(setup, all, next)
    requires next.at == log.pending.at + 1 && next.prevLength == length >= 3 && MatchLength(setup, next) <= length
    requires forall p: nat :: p in next.inserted || (log.pending.at < p < log.pending.at + length && p + 2 < next.input) ==> p in inserted
    ensures var token := Match(length, log.pending.at - log.pending.start);
            LazyLog(setup, all, tokens + [token], Log(log.looks + [log.pending], log.nexts + [next], next), inserted, false, 2, 0)
  {
    hide Sound, Expand, Lazy, Connected, MatchLength;
    MatchStarts(setup, all, log.pending);
    var token := Match(length, log.pending.at - log.pending.start);
    LazyOneMore(setup, all, tokens, log, next.inserted, length, start, next, token);
    LazyLengths(setup, all, tokens, log.looks, log.nexts);
    LazyLengths(setup, all, tokens + [token], log.looks + [log.pending], log.nexts + [next]);
  }

  /** The pending search comes to a literal, and the search for the present string is pending. */
  lemma LiteralTaken(setup: Setup, all: seq<byte>, tokens: seq<Token>, log: Log, length: nat, start: int, next: Look, inserted: set<nat>, start': int)
    requires LazyLog(setup, all, tokens, log, next.inserted, true, length, start) && Sound(setup, all, next) && log.pending.at < |all|
    requires next.at == log.pending.at + 1 < next.input && next.prevLength == length && (length < 3 || MatchLength(setup, next) > length)
    requires MatchLength(setup, next) >= 3 ==> next.start == start'
    requires forall p: nat :: p in next.inserted || (p == next.at && next.input - next.at >= 3) ==> p in inserted
    requires |Expand(tokens + [Literal(all[log.pending.at])])| == next.at
    ensures LazyLog(setup, all, tokens + [Literal(all[log.pending.at])], Log(log.looks + [log.pending], log.nexts + [next], next), inserted,
                    true, MatchLength(setup, next), start')
  {
    hide Sound, Expand, Lazy, MatchLength;
    var token := Literal(all[log.pending.at]);
    LazyOneMore(setup, all, tokens, log, next.inserted, length, start, next, token);
    LazyLengths(setup, all, tokens, log.looks, log.nexts);
    LazyLengths(setup, all, tokens + [token], log.looks + [log.pending], log.nexts + [next]);
  }

  /** At the end of the input the last byte is a literal, and nothing is pending. */
  lemma LastTaken(setup: Setup, all: seq<byte>, tokens: seq<Token>, log: Log, start: int, next: Look)
    requires LazyLog(setup, all, tokens, log, next.inserted, true, 2, start) && Sound(setup, all, next) && log.pending.at < |all|
    requires next.at == log.pending.at + 1 == next.input && next.prevLength == 2
    ensures LazyLog(setup, all, tokens + [Literal(all[log.pending.at])], Log(log.looks + [log.pending], log.nexts + [next], next), next.inserted, false, 2, 0)
  {
    hide Sound, Expand, Lazy, MatchLength, Connected;
    var token := Literal(all[log.pending.at]);
    LazyOneMore(setup, all, tokens, log, next.inserted, 2, start, next, token);
    LazyLengths(setup, all, tokens, log.looks, log.nexts);
    LazyLengths(setup, all, tokens + [token], log.looks + [log.pending], log.nexts + [next]);
  }

  /** With nothing pending, the search for the present string becomes the pending one. */
  lemma FirstPending(setup: Setup, all: seq<byte>, tokens: seq<Token>, log: Log, look: Look, inserted: set<nat>, start: int)
    requires LazyLog(setup, all, tokens, log, look.inserted, false, 2, 0) && Sound(setup, all, look)
    requires look.at == |Expand(tokens)| < look.input && look.prevLength == 2 && (MatchLength(setup, look) >= 3 ==> look.start == start)
    requires forall p: nat :: p in look.inserted || (p == look.at && look.input - look.at >= 3) ==> p in inserted
    ensures LazyLog(setup, all, tokens, Log(log.looks, log.nexts, look), inserted, true, MatchLength(setup, look), start)
  {
    hide Sound, Expand, Lazy, MatchLength;
    LazyLengths(setup, all, tokens, log.looks, log.nexts);
  }
}
