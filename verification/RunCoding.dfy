/** The initial run-length code of a block: four equal bytes are followed by a repeat count. */
module RunCoding {
  import opened Sequences
  import opened Words

  function Repeat(c: byte, n: nat): (r: seq<byte>)
    ensures |r| == n && forall i :: 0 <= i < n ==> r[i] == c
  {
    seq<byte>(n, i => c)
  }

  /** What a run of 1..255 equal bytes becomes in the block. */
  function EncodeRun(c: byte, len: nat): seq<byte>
    requires 1 <= len <= 255
  {
    if len < 4 then Repeat(c, len) else Repeat(c, 4) + [len - 4]
  }

  /** The bytes a block stands for, and whether it ends cleanly rather than between a run and its count. */
  datatype Expansion = Expansion(bytes: seq<byte>, complete: bool) {
    function Prepend(s: seq<byte>): Expansion {
      Expansion(s + bytes, complete)
    }
  }

  /** How many block bytes the run at p takes; five when a repeat count follows. */
  function RunWidth(s: seq<byte>, p: nat): (w: nat)
    requires p < |s|
    ensures w > 0
  {
    if p + 1 == |s| || s[p + 1] != s[p] then 1
    else if p + 2 == |s| || s[p + 2] != s[p] then 2
    else if p + 3 == |s| || s[p + 3] != s[p] then 3
    else 5
  }

  /** How many bytes the run at p stands for; `extra` is the byte fetched just past the block. */
  function RunLength(s: seq<byte>, p: nat, extra: byte): nat
    requires p < |s|
  {
    var w := RunWidth(s, p);
    if w < 5 then w else (if p + 4 < |s| then s[p + 4] else extra) as int + 4
  }

  /**
   * Decodes block s from position p. A block that stops right after four equal bytes makes the
   * decoder take `extra` for the count before it notices.
   */
  function ExpandFrom(s: seq<byte>, p: nat, extra: byte): Expansion
    decreases |s| - p
  {
    if p >= |s| then Expansion([], p == |s|)
    else ExpandFrom(s, p + RunWidth(s, p), extra).Prepend(Repeat(s[p], RunLength(s, p, extra)))
  }

  function Expand(s: seq<byte>, extra: byte): Expansion {
    ExpandFrom(s, 0, extra)
  }

  // ---------- Run lists ----------

  datatype Run = Run(c: byte, len: nat)

  /** Runs the encoder can make: 1..255 long, and neighbours differ unless the first is full. */
  ghost predicate Encodable(runs: seq<Run>) {
    && (forall i :: 0 <= i < |runs| ==> 1 <= runs[i].len <= 255)
    && (forall i :: 0 <= i < |runs| - 1 ==> runs[i].len == 255 || runs[i].c != runs[i + 1].c)
  }

  ghost function EncodeRuns(runs: seq<Run>): seq<byte>
    requires Encodable(runs)
  {
    if runs == [] then [] else EncodeRuns(runs[..|runs| - 1]) + EncodeRun(runs[|runs| - 1].c, runs[|runs| - 1].len)
  }

  ghost function Flatten(runs: seq<Run>): seq<byte> {
    if runs == [] then [] else Flatten(runs[..|runs| - 1]) + Repeat(runs[|runs| - 1].c, runs[|runs| - 1].len)
  }

  lemma {:induction false} EncodeRunsFirst(runs: seq<Run>)
    requires Encodable(runs) && runs != []
    ensures EncodeRuns(runs) == EncodeRun(runs[0].c, runs[0].len) + EncodeRuns(runs[1..])
  {
    var n := |runs|;
    var init, rest := runs[..n - 1], runs[1..];
    var first, last := EncodeRun(runs[0].c, runs[0].len), EncodeRun(runs[n - 1].c, runs[n - 1].len);
    if n > 1 {
      EncodeRunsFirst(init);
      assert init[1..] == rest[..n - 2];
      Associate(first, EncodeRuns(init[1..]), last);
    }
  }

  lemma {:induction false} FlattenFirst(runs: seq<Run>)
    requires runs != []
    ensures Flatten(runs) == Repeat(runs[0].c, runs[0].len) + Flatten(runs[1..])
  {
    var n := |runs|;
    var init, rest := runs[..n - 1], runs[1..];
    if n > 1 {
      FlattenFirst(init);
      assert init[1..] == rest[..n - 2];
      Associate(Repeat(runs[0].c, runs[0].len), Flatten(init[1..]), Repeat(runs[n - 1].c, runs[n - 1].len));
    }
  }

  lemma {:induction false} EncodeRunsStart(runs: seq<Run>)
    requires Encodable(runs) && runs != []
    ensures EncodeRuns(runs) != [] && EncodeRuns(runs)[0] == runs[0].c
  {
    EncodeRunsFirst(runs);
  }

  /** Decoding the runs that end block s from where they begin. */
  lemma {:induction false} ExpandRuns(s: seq<byte>, p: nat, runs: seq<Run>, extra: byte)
    requires Encodable(runs) && p <= |s| && s[p..] == EncodeRuns(runs)
    ensures ExpandFrom(s, p, extra) == Expansion(Flatten(runs), true)
    decreases |runs|
  {
    hide EncodeRun, RunWidth, RunLength, Repeat;
    if runs != [] {
      FirstRun(s, p, runs);
      ExpandRuns(s, p + |EncodeRun(runs[0].c, runs[0].len)|, runs[1..], extra);
      ExpandOneRun(s, p, runs[0].c, runs[0].len, extra);
      FlattenFirst(runs);
    }
  }

  lemma FirstRun(s: seq<byte>, p: nat, runs: seq<Run>)
    requires Encodable(runs) && runs != [] && p <= |s| && s[p..] == EncodeRuns(runs)
    ensures var code := EncodeRun(runs[0].c, runs[0].len);
            && p + |code| <= |s| && s[p + |code|..] == EncodeRuns(runs[1..])
            && (forall i :: 0 <= i < |code| ==> s[p + i] == code[i])
            && (runs[0].len < 4 && p + |code| < |s| ==> s[p + |code|] != runs[0].c)
  {
    hide EncodeRun;
    var code := EncodeRun(runs[0].c, runs[0].len);
    EncodeRunsFirst(runs);
    SplitSuffix(s, p, code, EncodeRuns(runs[1..]));
    if runs[1..] != [] {
      EncodeRunsStart(runs[1..]);
      assert s[p + |code|] == s[p + |code|..][0];
    }
  }

  lemma SplitSuffix<T>(s: seq<T>, p: nat, a: seq<T>, b: seq<T>)
    requires p <= |s| && s[p..] == a + b
    ensures p + |a| <= |s| && s[p + |a|..] == b
    ensures forall i :: 0 <= i < |a| ==> s[p + i] == a[i]
  {
    assert forall i :: 0 <= i < |a| ==> s[p + i] == s[p..][i];
    assert s[p + |a|..] == s[p..][|a|..];
  }

  lemma ExpandOneRun(s: seq<byte>, p: nat, c: byte, len: nat, extra: byte)
    requires 1 <= len <= 255 && p + |EncodeRun(c, len)| <= |s|
    requires forall i :: 0 <= i < |EncodeRun(c, len)| ==> s[p + i] == EncodeRun(c, len)[i]
    requires len < 4 && p + |EncodeRun(c, len)| < |s| ==> s[p + |EncodeRun(c, len)|] != c
    ensures ExpandFrom(s, p, extra) == ExpandFrom(s, p + |EncodeRun(c, len)|, extra).Prepend(Repeat(c, len))
  {
    var code := EncodeRun(c, len);
    assert s[p + 0] == code[0];
    if len > 1 { assert s[p + 1] == code[1]; }
    if len > 2 { assert s[p + 2] == code[2]; }
    if len > 3 { assert s[p + 3] == code[3] && s[p + 4] == code[4]; }
  }

  /** The run code is inverted: a block of encoder runs expands to the bytes of those runs. */
  lemma ExpandInvertsEncode(runs: seq<Run>, extra: byte)
    requires Encodable(runs)
    ensures Expand(EncodeRuns(runs), extra) == Expansion(Flatten(runs), true)
  {
    ExpandRuns(EncodeRuns(runs), 0, runs, extra);
  }
}
