/** Why a ring of the last bytes is enough, and what whole streams of items give. */
module InflateHistory {
  import opened Words
  import opened Accumulator
  import opened Lz77
  import opened InflateWindow
  import opened InflateCodes

  lemma {:induction false} CopySuffix(p: seq<byte>, s: seq<byte>, length: nat, distance: nat)
    requires 1 <= distance <= |s|
    ensures Copy(p + s, length, distance) == p + Copy(s, length, distance)
    decreases length
  {
    if length > 0 {
      var c := s[|s| - distance];
      assert (p + s) + [c] == p + (s + [c]);
      assert (p + s)[|p + s| - distance] == c;
      CopySuffix(p, s + [c], length - 1, distance);
    }
  }

  lemma TokenSuffix(p: seq<byte>, s: seq<byte>, item: Item)
    requires Reaches(item, s)
    ensures Reaches(item, p + s) && ExpandToken(p + s, item.token) == p + ExpandToken(s, item.token)
  {
    hide Copy;
    match item.token
    case Literal(c) => assert (p + s) + [c] == p + (s + [c]);
    case Match(length, distance) => if distance > 0 { CopySuffix(p, s, length, distance); }
  }

  /** Items that stay within a suffix of the history append to the whole history what they append to the suffix. */
  lemma {:induction false} SuffixSuffices(t: Tables, u: nat, p: seq<byte>, s: seq<byte>, n: nat)
    requires ValidTables(t) && Regular(t, u, s, n)
    ensures Output(t, u, p + s, n) == p + Output(t, u, s, n)
    ensures Regular(t, u, p + s, n)
  {
    hide ValidTables, ItemAt, ExpandToken;
    if n > 0 {
      SuffixSuffices(t, u, p, s, n - 1);
      TokenSuffix(p, Output(t, u, s, n - 1), ItemAt(t, u, n - 1));
    }
  }

  lemma {:induction false} OutputGrows(t: Tables, u: nat, h: seq<byte>, n: nat)
    requires ValidTables(t)
    ensures |Output(t, u, h, n)| >= |h|
  {
    hide ValidTables, Next, ItemAt;
    if n > 0 {
      OutputGrows(t, u, h, n - 1);
      var before, item := Output(t, u, h, n - 1), ItemAt(t, u, n - 1);
      if item.Symbol? && item.token.Match? && 1 <= item.token.distance <= |before| {
        CopyLength(before, item.token.length, item.token.distance);
      }
    }
  }

  lemma {:induction false} CopyLength(s: seq<byte>, length: nat, distance: nat)
    requires 1 <= distance <= |s|
    ensures |Copy(s, length, distance)| == |s| + length
    decreases length
  {
    if length > 0 { CopyLength(s + [s[|s| - distance]], length - 1, distance); }
  }

  /** No match goes back more than wsize. */
  ghost predicate Near(t: Tables, u: nat, n: nat, wsize: nat)
    requires ValidTables(t)
  {
    forall i :: 0 <= i < n ==> var item := ItemAt(t, u, i); item.Symbol? && item.token.Match? ==> item.token.distance <= wsize
  }

  /** With the last wsize bytes of the history instead of all of it, the same streams are accepted, and give the same. */
  lemma {:induction false} RingSuffices(t: Tables, u: nat, full: seq<byte>, wsize: nat, n: nat)
    requires ValidTables(t) && Near(t, u, n, wsize)
    ensures Regular(t, u, Last(full, wsize), n) <==> Regular(t, u, full, n)
    ensures Regular(t, u, full, n) ==> Output(t, u, full, n) == full[..|full| - |Last(full, wsize)|] + Output(t, u, Last(full, wsize), n)
  {
    hide ValidTables, ItemAt, Output, Last;
    var s := Last(full, wsize);
    LastIsSuffix(full, wsize);
    var p := full[..|full| - |s|];
    if n > 0 { RingSuffices(t, u, full, wsize, n - 1); }
    if Regular(t, u, s, n) {
      SuffixSuffices(t, u, p, s, n);
    }
    if Regular(t, u, full, n) {
      forall i | 0 <= i < n ensures Reaches(ItemAt(t, u, i), Output(t, u, s, i)) {
        if i < n - 1 {
          assert Regular(t, u, full, n - 1);
        } else {
          assert Reaches(ItemAt(t, u, i), Output(t, u, full, i));
          OutputGrows(t, u, s, i);
          assert Regular(t, u, full, n - 1);
        }
      }
    }
  }

  lemma LastIsSuffix(full: seq<byte>, n: nat)
    ensures |Last(full, n)| <= |full| && full == full[..|full| - |Last(full, n)|] + Last(full, n)
    ensures |Last(full, n)| == |full| || |Last(full, n)| == n
  {
  }

  /** Decoding goes on in a later call where it stopped in an earlier one. */
  lemma {:induction false} OutputGoesOn(t: Tables, u: nat, h: seq<byte>, n: nat, m: nat)
    requires ValidTables(t)
    ensures Taken(t, u, n + m) == Taken(t, u, n) + Taken(t, Drop(u, Taken(t, u, n)), m)
    ensures ItemAt(t, u, n + m) == ItemAt(t, Drop(u, Taken(t, u, n)), m)
    ensures Output(t, u, h, n + m) == Output(t, Drop(u, Taken(t, u, n)), Output(t, u, h, n), m)
  {
    hide ValidTables, Next, Drop, ExpandToken;
    var v := Drop(u, Taken(t, u, n));
    if m > 0 {
      OutputGoesOn(t, u, h, n, m - 1);
      DropTwice(u, Taken(t, u, n), Taken(t, v, m - 1));
    }
    DropTwice(u, Taken(t, u, n), Taken(t, v, m));
  }
}
