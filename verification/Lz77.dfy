/** Literals and matches, and what they expand to. */
module Lz77 {
  import opened Words

  const MIN_MATCH := 3
  const MAX_MATCH := 258

  datatype Token = Literal(c: byte) | Match(length: nat, distance: nat)

  /** Copies length bytes from distance back, one after another; a copy may run into its own output. */
  function Copy(out: seq<byte>, length: nat, distance: nat): seq<byte>
    requires 1 <= distance <= |out|
    decreases length
  {
    if length == 0 then out else Copy(out + [out[|out| - distance]], length - 1, distance)
  }

  function ExpandToken(out: seq<byte>, t: Token): seq<byte> {
    match t
    case Literal(c) => out + [c]
    case Match(length, distance) => if 1 <= distance <= |out| then Copy(out, length, distance) else out
  }

  /** What a token sequence stands for, as section 3.2.3 of RFC 1951 describes it. */
  function Expand(tokens: seq<Token>): seq<byte> {
    if tokens == [] then [] else ExpandToken(Expand(tokens[..|tokens| - 1]), tokens[|tokens| - 1])
  }

  /** A token that the format allows after n bytes, with distances of at most maxDist. */
  ghost predicate Allowed(t: Token, n: nat, maxDist: nat) {
    t.Match? ==> MIN_MATCH <= t.length <= MAX_MATCH && 1 <= t.distance <= maxDist && t.distance <= n
  }

  ghost predicate AllAllowed(tokens: seq<Token>, maxDist: nat) {
    forall i :: 0 <= i < |tokens| ==> Allowed(tokens[i], |Expand(tokens[..i])|, maxDist)
  }

  /** The token describes the bytes of `all` that follow the first n. */
  ghost predicate Describes(all: seq<byte>, n: nat, t: Token, n': nat) {
    && n <= n' <= |all|
    && match t
       case Literal(c) => n' == n + 1 && all[n] == c
       case Match(length, distance) => n' == n + length && 1 <= distance <= n && forall i :: n <= i < n' ==> all[i] == all[i - distance]
  }

  lemma {:induction false} CopyFollows(all: seq<byte>, n: nat, length: nat, distance: nat)
    requires 1 <= distance <= n && n + length <= |all| && forall i {:trigger all[i]} :: n <= i < n + length ==> all[i] == all[i - distance]
    ensures Copy(all[..n], length, distance) == all[..n + length]
    decreases length
  {
    if length > 0 {
      assert all[n] == all[n - distance] == all[..n][n - distance];
      assert all[..n] + [all[n]] == all[..n + 1];
      CopyFollows(all, n + 1, length - 1, distance);
    }
  }

  /** Tokens that describe the input one after another expand to it. */
  lemma ExpandOneMore(all: seq<byte>, tokens: seq<Token>, t: Token, n: nat, n': nat)
    requires n <= |all| && Expand(tokens) == all[..n] && Describes(all, n, t, n')
    ensures Expand(tokens + [t]) == all[..n']
  {
    assert (tokens + [t])[..|tokens|] == tokens;
    if t.Match? {
      CopyFollows(all, n, t.length, t.distance);
    } else {
      assert all[..n] + [all[n]] == all[..n + 1];
    }
  }

  lemma AllowedOneMore(all: seq<byte>, tokens: seq<Token>, t: Token, n: nat, maxDist: nat)
    requires n <= |all| && Expand(tokens) == all[..n] && AllAllowed(tokens, maxDist) && Allowed(t, n, maxDist)
    ensures AllAllowed(tokens + [t], maxDist)
  {
    hide Expand, Allowed;
    var more := tokens + [t];
    forall i | 0 <= i < |more| ensures Allowed(more[i], |Expand(more[..i])|, maxDist) {
      if i < |tokens| {
        assert more[..i] == tokens[..i];
      } else {
        assert more[..i] == tokens;
      }
    }
  }
}
