/** Filling in the canonical codes and the decoding tables from code lengths. */
module HuffmanTables {
  import opened CanonicalHuffman

  /** minLen and maxLen are the extreme lengths in use. */
  ghost predicate Extremes(len: seq<int>, minLen: int, maxLen: int) {
    && (forall i :: 0 <= i < |len| ==> minLen <= len[i] <= maxLen)
    && minLen in len && maxLen in len
  }

  /** The least and the greatest length. */
  method FindExtremes(length: seq<int>) returns (minLen: int, maxLen: int)
    requires Lengths(length) && length != []
    ensures Extremes(length, minLen, maxLen) && 1 <= minLen <= maxLen <= LONGEST_CODE
  {
    minLen, maxLen := 32, 0;
    for i := 0 to |length|
      invariant forall k :: 0 <= k < i ==> minLen <= length[k] <= maxLen
      invariant if i == 0 then minLen == 32 && maxLen == 0 else minLen in length && maxLen in length
    {
      if length[i] > maxLen { maxLen := length[i]; }
      if length[i] < minLen { minLen := length[i]; }
    }
  }

  lemma {:induction false} NoneOf(len: seq<int>, n: int, m: nat)
    requires m <= |len| && forall i :: 0 <= i < m ==> len[i] != n
    ensures OfLength(len, n, m) == 0
  {
    if m > 0 { NoneOf(len, n, m - 1); }
  }

  lemma {:induction false} NoneShorter(len: seq<int>, n: int, m: nat)
    requires m <= |len| && forall i :: 0 <= i < m ==> len[i] >= n
    ensures Shorter(len, n, m) == 0
  {
    if m > 0 { NoneShorter(len, n, m - 1); }
  }

  lemma {:induction false} NoneUsedBelow(len: seq<int>, n: nat)
    requires forall i :: 0 <= i < |len| ==> len[i] > n
    ensures Used(len, n) == 0
  {
    NoneOf(len, n, |len|);
    if n > 0 { NoneUsedBelow(len, n - 1); }
  }

  lemma FirstAtLeast(len: seq<int>, minLen: nat)
    requires forall i :: 0 <= i < |len| ==> len[i] >= minLen
    ensures First(len, minLen) == 0
  {
    if minLen > 0 { NoneUsedBelow(len, minLen - 1); }
  }

  method AssignCodes(code: array<int>, length: seq<int>, minLen: nat, maxLen: nat)
    requires Lengths(length) && Extremes(length, minLen, maxLen) && code.Length >= |length|
    modifies code
    ensures forall i :: 0 <= i < |length| ==> code[i] == Code(length, i)
  {
    hide OfLength, First, Used;
    FirstAtLeast(length, minLen);
    var vec: int := 0;
    var n := minLen;
    while n <= maxLen
      invariant minLen <= n <= maxLen + 1 && vec == First(length, n)
      invariant forall i :: 0 <= i < |length| && length[i] < n ==> code[i] == Code(length, i)
    {
      EmptyStart(length, n);
      for i := 0 to |length|
        invariant vec == First(length, n) + OfLength(length, n, i)
        invariant forall j :: 0 <= j < |length| && (length[j] < n || (length[j] == n && j < i)) ==> code[j] == Code(length, j)
      {
        OfLengthStep(length, n, i);
        if length[i] == n {
          code[i] := vec;
          vec := vec + 1;
        }
      }
      NextLevel(length, n);
      vec := 2 * vec;
      n := n + 1;
    }
  }

  lemma EmptyStart(len: seq<int>, n: int)
    ensures OfLength(len, n, 0) == 0
  {
  }

  lemma OfLengthStep(len: seq<int>, n: int, m: nat)
    requires m < |len|
    ensures OfLength(len, n, m + 1) == OfLength(len, n, m) + if len[m] == n then 1 else 0
  {
  }

  lemma NextLevel(len: seq<int>, n: nat)
    ensures First(len, n + 1) == 2 * Used(len, n) && Used(len, n) == First(len, n) + OfLength(len, n, |len|)
  {
  }

  // ---------- Decoding tables ----------

  /** Where symbol i stands when symbols are listed by length, then by number. */
  function Place(len: seq<int>, i: nat): nat
    requires i < |len|
  {
    Shorter(len, len[i], |len|) + OfLength(len, len[i], i)
  }

  /** What the decoder's tables hold for a given list of code lengths. */
  ghost predicate TablesFor(len: seq<int>, minLen: int, maxLen: int, limit: seq<int>, base: seq<int>, perm: seq<int>) {
    && Lengths(len) && Extremes(len, minLen, maxLen)
    && |limit| == |base| == MAX_CODE_LEN && |perm| == MAX_ALPHA_SIZE
    && (forall n :: minLen <= n <= maxLen ==> limit[n] == Used(len, n) - 1 && base[n] == First(len, n) - Shorter(len, n, |len|))
    && (forall n :: maxLen < n < MAX_CODE_LEN ==> limit[n] == 0)
    && Listed(len, perm)
  }

  ghost predicate Listed(len: seq<int>, perm: seq<int>)
    requires |perm| == MAX_ALPHA_SIZE
  {
    forall i :: 0 <= i < |len| ==> Place(len, i) < MAX_ALPHA_SIZE && perm[Place(len, i)] == i
  }

  lemma PlaceBound(len: seq<int>, n: int, m: nat)
    requires m <= |len|
    ensures Shorter(len, n, |len|) + OfLength(len, n, m) <= |len|
    ensures m < |len| && len[m] == n ==> Shorter(len, n, |len|) + OfLength(len, n, m) < |len|
  {
    hide Shorter, OfLength;
    OfLengthMonotone(len, n, m, |len|);
    ShorterStep(len, n, |len|);
  }

  /** Symbols in order of length, then of number. */
  method ListSymbols(perm: array<int>, length: seq<int>, minLen: nat, maxLen: nat)
    requires Lengths(length) && Extremes(length, minLen, maxLen) && perm.Length == MAX_ALPHA_SIZE
    modifies perm
    ensures Listed(length, perm[..])
  {
    hide OfLength, Shorter;
    NoneShorter(length, minLen, |length|);
    var pp := 0;
    var i := minLen;
    while i <= maxLen
      invariant minLen <= i <= maxLen + 1 && pp == Shorter(length, i, |length|)
      invariant forall k :: 0 <= k < |length| && length[k] < i ==> Place(length, k) < pp && perm[Place(length, k)] == k
    {
      EmptyStart(length, i);
      for j := 0 to |length|
        invariant pp == Shorter(length, i, |length|) + OfLength(length, i, j) <= |length|
        invariant forall k :: 0 <= k < |length| && (length[k] < i || (length[k] == i && k < j)) ==>
                    Place(length, k) < pp && perm[Place(length, k)] == k
      {
        OfLengthStep(length, i, j);
        PlaceBound(length, i, j);
        if length[j] == i {
          perm[pp] := j;
          pp := pp + 1;
        }
      }
      ShorterStep(length, i, |length|);
      i := i + 1;
    }
  }

  /** base[n] becomes the number of symbols with codes shorter than n. */
  method CountLengths(base: array<int>, length: seq<int>)
    requires Lengths(length) && base.Length == MAX_CODE_LEN
    modifies base
    ensures forall n :: 0 <= n < MAX_CODE_LEN ==> base[n] == Shorter(length, n, |length|)
  {
    hide OfLength, Shorter;
    for i := 0 to MAX_CODE_LEN
      invariant forall n :: 0 <= n < i ==> base[n] == 0
    {
      base[i] := 0;
    }
    forall n ensures OfLength(length, n, 0) == 0 { EmptyStart(length, n); }
    for i := 0 to |length|
      invariant forall n :: 0 <= n < MAX_CODE_LEN ==> base[n] == OfLength(length, n - 1, i)
    {
      forall n ensures OfLength(length, n, i + 1) == OfLength(length, n, i) + if length[i] == n then 1 else 0 { OfLengthStep(length, n, i); }
      base[length[i] + 1] := base[length[i] + 1] + 1;
    }
    NoneShorter(length, 0, |length|);
    NoneOfLength(length, -1, |length|);
    for i := 1 to MAX_CODE_LEN
      invariant forall n :: 0 <= n < i ==> base[n] == Shorter(length, n, |length|)
      invariant forall n :: i <= n < MAX_CODE_LEN ==> base[n] == OfLength(length, n - 1, |length|)
    {
      ShorterStep(length, i - 1, |length|);
      base[i] := base[i] + base[i - 1];
    }
  }

  method FillLimits(limit: array<int>, base: array<int>, length: seq<int>, minLen: nat, maxLen: nat)
    requires Lengths(length) && Extremes(length, minLen, maxLen)
    requires limit.Length == base.Length == MAX_CODE_LEN && limit != base
    requires forall n :: 0 <= n < MAX_CODE_LEN ==> base[n] == Shorter(length, n, |length|)
    modifies limit
    ensures forall n :: minLen <= n <= maxLen ==> limit[n] == Used(length, n) - 1
    ensures forall n :: maxLen < n < MAX_CODE_LEN ==> limit[n] == 0
  {
    hide OfLength, Shorter, First, Used;
    for i := 0 to MAX_CODE_LEN
      invariant forall n :: 0 <= n < i ==> limit[n] == 0
    {
      limit[i] := 0;
    }
    FirstAtLeast(length, minLen);
    var vec := 0;
    var i := minLen;
    while i <= maxLen
      invariant minLen <= i <= maxLen + 1 && vec == First(length, i)
      invariant forall n :: minLen <= n < i ==> limit[n] == Used(length, n) - 1
      invariant forall n :: maxLen < n < MAX_CODE_LEN ==> limit[n] == 0
    {
      ShorterStep(length, i, |length|);
      NextLevel(length, i);
      vec := vec + (base[i + 1] - base[i]);
      limit[i] := vec - 1;
      vec := 2 * vec;
      i := i + 1;
    }
  }

  method CreateDecodeTables(limit: array<int>, base: array<int>, perm: array<int>, length: seq<int>, minLen: nat, maxLen: nat)
    requires Lengths(length) && Extremes(length, minLen, maxLen)
    requires limit.Length == base.Length == MAX_CODE_LEN && perm.Length == MAX_ALPHA_SIZE
    requires limit != base && limit != perm && base != perm
    modifies limit, base, perm
    ensures TablesFor(length, minLen, maxLen, limit[..], base[..], perm[..])
  {
    hide OfLength, Shorter, First, Used, Listed;
    ListSymbols(perm, length, minLen, maxLen);
    CountLengths(base, length);
    FillLimits(limit, base, length, minLen, maxLen);
    FirstAtLeast(length, minLen);
    NoneShorter(length, minLen, |length|);
    var i := minLen + 1;
    while i <= maxLen
      invariant minLen + 1 <= i && (i <= maxLen + 1)
      invariant forall n :: minLen <= n < i && n <= maxLen ==> base[n] == First(length, n) - Shorter(length, n, |length|)
      invariant forall n :: i <= n <= maxLen ==> base[n] == Shorter(length, n, |length|)
      invariant forall n :: minLen <= n <= maxLen ==> limit[n] == Used(length, n) - 1
      invariant forall n :: maxLen < n < MAX_CODE_LEN ==> limit[n] == 0
      invariant Listed(length, perm[..])
    {
      NextLevel(length, i - 1);
      base[i] := 2 * (limit[i - 1] + 1) - base[i];
      i := i + 1;
    }
  }

  // ---------- What the tables say ----------

  /** The k-th symbol of n bits. */
  lemma {:induction false} NthOfLength(len: seq<int>, n: int, k: nat, m: nat) returns (i: nat)
    requires m <= |len| && k < OfLength(len, n, m)
    ensures i < m && len[i] == n && OfLength(len, n, i) == k
  {
    if len[m - 1] == n && OfLength(len, n, m - 1) == k {
      i := m - 1;
    } else {
      i := NthOfLength(len, n, k, m - 1);
    }
  }

  /** A number of n bits between the first n-bit code and the limit is some symbol's code, and the tables find that symbol. */
  lemma LookUp(len: seq<int>, minLen: int, maxLen: int, limit: seq<int>, base: seq<int>, perm: seq<int>, n: int, v: int) returns (i: nat)
    requires TablesFor(len, minLen, maxLen, limit, base, perm)
    requires minLen <= n <= maxLen && First(len, n) <= v <= limit[n]
    ensures i < |len| && len[i] == n && Code(len, i) == v
    ensures 0 <= v - base[n] < MAX_ALPHA_SIZE && perm[v - base[n]] == i
  {
    hide OfLength, Shorter, First, Used;
    NextLevel(len, n);
    i := NthOfLength(len, n, v - First(len, n), |len|);
    assert Place(len, i) == v - base[n];
  }
}
