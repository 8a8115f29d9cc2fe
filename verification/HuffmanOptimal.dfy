/** The code lengths of a Huffman tree are the best for its weights. */
module HuffmanOptimal {
  import opened Powers
  import opened Bits
  import opened CanonicalHuffman
  import opened HuffmanForest

  // ---------- Sums ----------

  ghost function Sum(s: seq<nat>): nat {
    if s == [] then 0 else Sum(s[..|s| - 1]) + s[|s| - 1]
  }

  lemma {:induction false} SumUpdate(s: seq<nat>, i: nat, v: nat)
    requires i < |s|
    ensures Sum(s[i := v]) + s[i] == Sum(s) + v
  {
    var n := |s| - 1;
    if i < n {
      SumUpdate(s[..n], i, v);
      assert s[i := v][..n] == s[..n][i := v];
    } else {
      assert s[i := v][..n] == s[..n];
    }
  }

  lemma {:induction false} SumDivisible(s: seq<nat>, d: nat)
    requires d > 0 && forall i :: 0 <= i < |s| ==> s[i] % d == 0
    ensures Sum(s) % d == 0
  {
    if s != [] {
      var init := s[..|s| - 1];
      SumDivisible(init, d);
      AddDivisible(Sum(init), s[|s| - 1], d);
    }
  }

  lemma AddDivisible(x: nat, y: nat, d: nat)
    requires d > 0 && x % d == 0 && y % d == 0
    ensures (x + y) % d == 0
  {
    assert x == x / d * d && y == y / d * d;
    MultipleOf(x / d + y / d, d);
    assert x + y == (x / d + y / d) * d;
  }

  lemma MultipleOf(q: nat, d: nat)
    requires d > 0
    ensures q * d % d == 0
  {
    ModOfMultiple(q, 0, d);
  }

  // ---------- Weighted items with code lengths ----------

  ghost function Costs(w: seq<nat>, on: set<nat>, l: seq<nat>): (r: seq<nat>)
    requires |l| == |w|
    ensures |r| == |w|
  {
    seq(|w|, k requires 0 <= k < |w| && |l| == |w| => if k in on then w[k] * l[k] else 0)
  }

  /** What an item takes of the code space of 2^d. */
  ghost function Share(on: set<nat>, l: seq<nat>, d: nat, k: nat): nat
    requires k < |l|
  {
    if k in on && l[k] <= d then Pow2(d - l[k]) else 0
  }

  ghost function Shares(on: set<nat>, l: seq<nat>, d: nat): (r: seq<nat>)
    ensures |r| == |l| && forall k :: 0 <= k < |r| ==> r[k] == Share(on, l, d, k)
  {
    seq(|l|, k requires 0 <= k < |l| => Share(on, l, d, k))
  }

  /** Lengths of at most d bits that a prefix code for the items can have. */
  ghost predicate Fits(on: set<nat>, l: seq<nat>, d: nat) {
    (forall k :: k in on ==> k < |l| && l[k] <= d) && Sum(Shares(on, l, d)) <= Pow2(d)
  }

  lemma SetLength(w: seq<nat>, on: set<nat>, l: seq<nat>, d: nat, x: nat, v: nat)
    requires |l| == |w| && x < |l| && x in on && l[x] <= d && v <= d
    ensures Sum(Costs(w, on, l[x := v])) + w[x] * l[x] == Sum(Costs(w, on, l)) + w[x] * v
    ensures Sum(Shares(on, l[x := v], d)) + Pow2(d - l[x]) == Sum(Shares(on, l, d)) + Pow2(d - v)
  {
    hide Pow2, Sum;
    assert Costs(w, on, l[x := v]) == Costs(w, on, l)[x := w[x] * v];
    assert Shares(on, l[x := v], d) == Shares(on, l, d)[x := Pow2(d - v)];
    SumUpdate(Costs(w, on, l), x, w[x] * v);
    SumUpdate(Shares(on, l, d), x, Pow2(d - v));
  }

  lemma Crossed(a: nat, b: nat, x: nat, y: nat)
    requires a <= b && x <= y
    ensures a * y + b * x <= a * x + b * y
  {
    var e, f := b - a, y - x;
    assert b * y == (a + e) * (x + f) == a * x + a * f + e * x + e * f;
    assert a * y == a * x + a * f;
    assert b * x == a * x + e * x;
  }

  /** Giving the longer code to the lighter item costs nothing. */
  lemma Exchange(w: seq<nat>, on: set<nat>, l: seq<nat>, d: nat, x: nat, y: nat) returns (l': seq<nat>)
    requires |l| == |w| && Fits(on, l, d) && x in on && y in on && w[x] <= w[y] && l[x] <= l[y]
    ensures l' == l[x := l[y]][y := l[x]] && Fits(on, l', d) && Sum(Costs(w, on, l')) <= Sum(Costs(w, on, l))
  {
    hide Pow2, Sum, Costs, Shares;
    l' := l[x := l[y]][y := l[x]];
    if x == y {
      assert l' == l;
    } else {
      SetLength(w, on, l, d, x, l[y]);
      SetLength(w, on, l[x := l[y]], d, y, l[x]);
      Crossed(w[x], w[y], l[x], l[y]);
    }
  }

  /** Between multiples of 2p, half a step is a whole one. */
  lemma RoomLeft(u: nat, v: nat, p: nat, d: nat)
    requires d == 2 * p > 0 && u % d == 0 && v % d == 0 && u + p <= v
    ensures u + d <= v
  {
    var i, j := u / d, v / d;
    assert u == i * d && v == j * d;
    if j <= i { MulMonotone(j, i, d); }
    MulMonotone(i + 1, j, d);
    assert (i + 1) * d == i * d + d;
  }

  lemma PowerDivides(n: nat, m: nat)
    requires m <= n
    ensures Pow2(m) > 0 && Pow2(n) % Pow2(m) == 0
  {
    hide Pow2;
    Pow2Sum(n - m, m);
    MultipleOf(Pow2(n - m), Pow2(m));
  }

  /** The shares of all items but the longest are multiples of twice its share. */
  lemma OthersDivisible(on: set<nat>, l: seq<nat>, d: nat, x: nat)
    requires Fits(on, l, d) && x in on && l[x] >= 1 && forall k :: k in on && k != x ==> l[k] < l[x]
    ensures Pow2(d - l[x] + 1) > 0 && Sum(Shares(on, l, d)[x := 0]) % Pow2(d - l[x] + 1) == 0
  {
    hide Pow2, Sum;
    var others := Shares(on, l, d)[x := 0];
    var m := d - l[x] + 1;
    PowerDivides(m, m);
    forall k | 0 <= k < |others| ensures others[k] % Pow2(m) == 0 {
      if k in on && k != x { PowerDivides(d - l[k], m); } else { MultipleOf(0, Pow2(m)); }
    }
    SumDivisible(others, Pow2(m));
  }

  /** A code that is longer than all others can be made shorter. */
  lemma Shorten(w: seq<nat>, on: set<nat>, l: seq<nat>, d: nat, x: nat)
    requires |l| == |w| && Fits(on, l, d) && x in on && l[x] >= 1 && forall k :: k in on && k != x ==> l[k] < l[x]
    ensures Fits(on, l[x := l[x] - 1], d) && Sum(Costs(w, on, l[x := l[x] - 1])) <= Sum(Costs(w, on, l))
  {
    hide Pow2, Sum, Costs, Shares;
    var p, q := Pow2(d - l[x]), Pow2(d - l[x] + 1);
    SetLength(w, on, l, d, x, l[x] - 1);
    Pow2Step(d - l[x]);
    PowerDivides(d, d - l[x] + 1);
    OthersDivisible(on, l, d, x);
    var others := Sum(Shares(on, l, d)[x := 0]);
    ShareOut(on, l, d, x);
    RoomLeft(others, Pow2(d), p, q);
    ProductLess(w[x], l[x]);
  }

  lemma ShareOut(on: set<nat>, l: seq<nat>, d: nat, x: nat)
    requires x in on && x < |l| && l[x] <= d
    ensures Sum(Shares(on, l, d)[x := 0]) + Pow2(d - l[x]) == Sum(Shares(on, l, d))
  {
    hide Pow2, Sum;
    SumUpdate(Shares(on, l, d), x, 0);
  }

  lemma ProductLess(w: nat, l: nat)
    requires l >= 1
    ensures w * (l - 1) <= w * l
  {
  }

  /** Two items cannot both have all of the code space. */
  lemma NotBothEmpty(on: set<nat>, l: seq<nat>, d: nat, x: nat, y: nat)
    requires Fits(on, l, d) && x in on && y in on && x != y
    ensures l[x] >= 1 || l[y] >= 1
  {
    hide Pow2, Sum;
    var shares := Shares(on, l, d);
    SumUpdate(shares, x, 0);
    SumUpdate(shares[x := 0], y, 0);
    assert Pow2(d) > 0 by { PowerDivides(d, d); }
  }

  ghost predicate Longest(on: set<nat>, l: seq<nat>, x: nat) {
    x in on && forall k :: k in on ==> k < |l| && x < |l| && l[k] <= l[x]
  }

  lemma {:induction false} FindLongest(on: set<nat>, l: seq<nat>, n: nat) returns (x: nat)
    requires n <= |l| && (exists k :: k in on && k < n)
    ensures x in on && x < n && forall k :: k in on && k < n ==> l[k] <= l[x]
  {
    if exists k :: k in on && k < n - 1 {
      x := FindLongest(on, l, n - 1);
      if n - 1 in on && l[n - 1] > l[x] { x := n - 1; }
    } else {
      x := n - 1;
    }
  }

  /** No item is lighter than x, except perhaps y. */
  ghost predicate Lightest(w: seq<nat>, on: set<nat>, x: nat, y: nat) {
    x in on && forall k :: k in on && k != y ==> k < |w| && x < |w| && w[x] <= w[k]
  }

  /** With x longest, the other of the two lightest items can be given the same length. */
  lemma {:induction false} PairWith(w: seq<nat>, on: set<nat>, l: seq<nat>, d: nat, x: nat, y: nat) returns (l': seq<nat>)
    requires |l| == |w| && Fits(on, l, d) && x != y && Longest(on, l, x) && Lightest(w, on, y, x)
    ensures |l'| == |w| && Fits(on, l', d) && l'[x] == l'[y] >= 1 && Sum(Costs(w, on, l')) <= Sum(Costs(w, on, l))
    decreases l[x]
  {
    hide Pow2, Sum, Costs, Shares;
    NotBothEmpty(on, l, d, x, y);
    if z :| z in on && z != x && l[z] == l[x] {
      l' := Exchange(w, on, l, d, y, z);
    } else {
      Shorten(w, on, l, d, x);
      l' := PairWith(w, on, l[x := l[x] - 1], d, x, y);
    }
  }

  /** At no cost, the two lightest items can be given codes of the same length. */
  lemma Pair(w: seq<nat>, on: set<nat>, l: seq<nat>, d: nat, x: nat, y: nat) returns (l': seq<nat>)
    requires |l| == |w| && Fits(on, l, d) && x != y && Lightest(w, on, x, y) && Lightest(w, on, y, x)
    ensures |l'| == |w| && Fits(on, l', d) && l'[x] == l'[y] >= 1 && Sum(Costs(w, on, l')) <= Sum(Costs(w, on, l))
  {
    hide Pow2, Sum, Costs, Shares;
    assert x in on && x < |l|;
    var z := FindLongest(on, l, |l|);
    if z == y {
      l' := PairWith(w, on, l, d, y, x);
    } else {
      var l1 := Exchange(w, on, l, d, x, z);
      l' := PairWith(w, on, l1, d, x, y);
    }
  }

  /** Two terms of a sum taken together into a third. */
  lemma SumJoin(s: seq<nat>, x: nat, y: nat, p: nat, v: nat)
    requires x < |s| && y < |s| && p < |s| && x != y && x != p && y != p && s[p] == 0
    ensures Sum(s[x := 0][y := 0][p := v]) + s[x] + s[y] == Sum(s) + v
  {
    hide Sum;
    SumUpdate(s, x, 0);
    SumUpdate(s[x := 0], y, 0);
    SumUpdate(s[x := 0][y := 0], p, v);
  }

  lemma CostOfJoin(w: seq<nat>, on: set<nat>, l: seq<nat>, x: nat, y: nat, p: nat)
    requires |l| == |w| && x < |l| && y < |l| && p < |l| && x in on && y in on && x != y && p !in on
    requires w[p] == w[x] + w[y] && l[x] == l[y] >= 1
    ensures Sum(Costs(w, on - {x, y} + {p}, l[p := l[x] - 1])) + w[p] == Sum(Costs(w, on, l))
  {
    hide Sum;
    var v := w[p] * (l[x] - 1);
    JoinedCost(w[x], w[y], l[x]);
    assert Costs(w, on - {x, y} + {p}, l[p := l[x] - 1]) == Costs(w, on, l)[x := 0][y := 0][p := v];
    SumJoin(Costs(w, on, l), x, y, p, v);
  }

  /** Two items with codes of one length take as much space as one with a code one bit shorter. */
  lemma ShareOfJoin(on: set<nat>, l: seq<nat>, d: nat, x: nat, y: nat, p: nat)
    requires x < |l| && y < |l| && p < |l| && x in on && y in on && x != y && p !in on && 1 <= l[x] == l[y] <= d
    ensures Sum(Shares(on - {x, y} + {p}, l[p := l[x] - 1], d)) == Sum(Shares(on, l, d))
  {
    hide Pow2, Sum, Share;
    var m, on' := l[x] - 1, on - {x, y} + {p};
    var before: seq<nat> := Shares(on, l, d);
    var after: seq<nat> := before[x := 0][y := 0][p := Pow2(d - m)];
    Pow2Step(d - l[x]);
    forall k | 0 <= k < |l| ensures Shares(on', l[p := m], d)[k] == after[k] { ShareOfJoined(on, l, d, x, y, p, m, k); }
    assert Shares(on', l[p := m], d) == after;
    ShareOfJoined(on, l, d, x, y, p, m, x);
    SumJoin(before, x, y, p, Pow2(d - m));
  }

  lemma ShareOfJoined(on: set<nat>, l: seq<nat>, d: nat, x: nat, y: nat, p: nat, m: nat, k: nat)
    requires x < |l| && y < |l| && p < |l| && x in on && y in on && x != y && p !in on && m < d && l[x] == l[y] == m + 1 && k < |l|
    ensures Share(on, l, d, x) == Share(on, l, d, y) == Pow2(d - (m + 1)) && Share(on, l, d, p) == 0
    ensures Share(on - {x, y} + {p}, l[p := m], d, k) == if k == p then Pow2(d - m) else if k == x || k == y then 0 else Share(on, l, d, k)
  {
    hide Pow2;
  }

  lemma JoinedCost(a: nat, b: nat, l: nat)
    requires l >= 1
    ensures (a + b) * (l - 1) + (a + b) == a * l + b * l
  {
  }

  // ---------- Trees that join the lightest ----------

  /** Of two nodes, the first: a child weighs no more than any node left over when it got its parent, and children make up their parent's weight. */
  ghost predicate LightPair(w: seq<nat>, par: seq<int>, c: nat, k: nat)
    requires c < |w| == |par| && k < |w|
  {
    && (0 <= par[c] < |w| && par[k] == par[c] ==> WeightOf(w[par[c]]) == WeightOf(w[c]) + WeightOf(w[k]))
    && (k < par[c] && (par[k] == -1 || par[k] > par[c]) ==> WeightOf(w[c]) <= WeightOf(w[k]))
  }

  /** Every join was of the two lightest trees. */
  ghost predicate Greedy(w: seq<nat>, par: seq<int>, n: nat) {
    n < |w| == |par| && forall c, k :: 1 <= c <= n && 1 <= k <= n && c != k ==> LightPair(w, par, c, k)
  }

  lemma JoinGreedy(w: seq<nat>, par: seq<int>, a: nat, n: nat, n1: nat, n2: nat, x: nat)
    requires Greedy(w, par, n) && Linked(par, a, n) && n + 1 < |w|
    requires n1 != n2 && 1 <= n1 <= n && 1 <= n2 <= n && par[n1] == par[n2] == -1
    requires w[n1] <= w[n2] && forall k :: 1 <= k <= n && par[k] == -1 && k != n1 ==> w[n2] <= w[k]
    requires WeightOf(x) == WeightOf(w[n1]) + WeightOf(w[n2])
    ensures Greedy(w[n + 1 := x], Joined(par, n1, n2, n + 1), n + 1)
  {
    hide Kids, WeightOf;
    var p, w', par' := n + 1, w[n + 1 := x], Joined(par, n1, n2, n + 1);
    forall c, k | 1 <= c <= p && 1 <= k <= p && c != k ensures LightPair(w', par', c, k) {
      if c <= n && k <= n {
        assert LightPair(w, par, c, k);
        if par[k] == -1 { LighterWord(w[n1], w[k]); LighterWord(w[if k == n1 then n1 else n2], w[k]); }
      }
    }
  }

  ghost function Weights(w: seq<nat>, n: nat): (r: seq<nat>)
    requires n < |w|
    ensures |r| == n + 1 && forall k :: 0 <= k <= n ==> r[k] == WeightOf(w[k])
  {
    seq(n + 1, k requires 0 <= k <= n && n < |w| => WeightOf(w[k]))
  }

  /** The trees that were there when t nodes had been made. */
  ghost function Front(par: seq<int>, t: nat): set<nat>
    requires t < |par|
  {
    set k: nat | 1 <= k <= t && (par[k] == -1 || par[k] > t)
  }

  /** The nodes joined into p. */
  lemma {:induction false} FindKid(par: seq<int>, p: int, m: nat) returns (c: nat)
    requires m < |par| && Kids(par, p, m) == 1
    ensures 1 <= c <= m && par[c] == p && forall k :: 1 <= k <= m && par[k] == p ==> k == c
  {
    if par[m] == p {
      c := m;
      NoneBelow(par, p, m - 1);
    } else {
      c := FindKid(par, p, m - 1);
    }
  }

  lemma {:induction false} NoneBelow(par: seq<int>, p: int, m: nat)
    requires m < |par| && Kids(par, p, m) == 0
    ensures forall k :: 1 <= k <= m ==> par[k] != p
  {
    if m > 0 { NoneBelow(par, p, m - 1); }
  }

  lemma {:induction false} FindKids(par: seq<int>, p: int, m: nat) returns (c: nat, d: nat)
    requires m < |par| && Kids(par, p, m) == 2
    ensures 1 <= c < d <= m && par[c] == par[d] == p && forall k :: 1 <= k <= m && par[k] == p ==> k == c || k == d
  {
    if par[m] == p {
      c := FindKid(par, p, m - 1);
      d := m;
    } else {
      c, d := FindKids(par, p, m - 1);
    }
  }

  /** The two trees joined into node t + 1 are the lightest. */
  lemma JoinAt(w: seq<nat>, par: seq<int>, a: nat, n: nat, t: nat) returns (c: nat, d: nat)
    requires Greedy(w, par, n) && Linked(par, a, n) && a <= t < n
    ensures 1 <= c < d <= t && par[c] == par[d] == t + 1 && c in Front(par, t) && d in Front(par, t) && t + 1 !in Front(par, t)
    ensures Front(par, t + 1) == Front(par, t) - {c, d} + {t + 1}
    ensures var v := Weights(w, n); Lightest(v, Front(par, t), c, d) && Lightest(v, Front(par, t), d, c) && v[t + 1] == v[c] + v[d]
  {
    hide Kids, WeightOf;
    c, d := FindKids(par, t + 1, n);
    assert LightPair(w, par, c, d);
    forall k | k in Front(par, t) && k != c && k != d ensures WeightOf(w[c]) <= WeightOf(w[k]) && WeightOf(w[d]) <= WeightOf(w[k]) {
      assert LightPair(w, par, c, k) && LightPair(w, par, d, k);
    }
  }

  /** The weight of all nodes made after the t-th. */
  ghost function Merged(v: seq<nat>, t: nat): nat
    decreases |v| - t
  {
    if t + 1 >= |v| then 0 else v[t + 1] + Merged(v, t + 1)
  }

  /** No code for the trees that are left costs less than the joins still to come. */
  lemma {:induction false} NoneCheaper(w: seq<nat>, par: seq<int>, a: nat, n: nat, t: nat, l: seq<nat>, d: nat)
    requires n < |w| && Greedy(w, par, n) && OneTree(par, a, n) && a <= t <= n && |l| == n + 1 && Fits(Front(par, t), l, d)
    ensures Sum(Costs(Weights(w, n), Front(par, t), l)) >= Merged(Weights(w, n), t)
    decreases n - t
  {
    hide Greedy, Kids, Sum, Costs, Shares, WeightOf, Lightest, Front;
    var v := Weights(w, n);
    if t < n {
      var x, y := JoinAt(w, par, a, n, t);
      var l1 := Pair(v, Front(par, t), l, d, x, y);
      assert l1[x] <= d;
      CostOfJoin(v, Front(par, t), l1, x, y, t + 1);
      ShareOfJoin(Front(par, t), l1, d, x, y, t + 1);
      NoneCheaper(w, par, a, n, t + 1, l1[t + 1 := l1[x] - 1], d);
    }
  }

  /** How deep the nodes of the tree are. */
  ghost function Depths(par: seq<int>, n: nat): (r: seq<nat>)
    requires n < |par|
    ensures |r| == n + 1 && forall k :: 0 <= k <= n ==> r[k] == Depth(par, k)
  {
    seq(n + 1, k requires 0 <= k <= n && n < |par| => Depth(par, k))
  }

  lemma {:induction false} ZeroSum(s: seq<nat>)
    requires forall i :: 0 <= i < |s| ==> s[i] == 0
    ensures Sum(s) == 0
  {
    if s != [] { ZeroSum(s[..|s| - 1]); }
  }

  /** The depths in the tree cost exactly the joins. */
  lemma {:induction false} DepthsCost(w: seq<nat>, par: seq<int>, a: nat, n: nat, t: nat)
    requires n < |w| && Greedy(w, par, n) && OneTree(par, a, n) && 1 <= a <= t <= n
    ensures Sum(Costs(Weights(w, n), Front(par, t), Depths(par, n))) == Merged(Weights(w, n), t)
    decreases n - t
  {
    hide Greedy, Kids, Sum, WeightOf, Lightest, Depth;
    var v, l := Weights(w, n), Depths(par, n);
    if t < n {
      var x, y := JoinAt(w, par, a, n, t);
      DepthRange(par, a, n, x);
      DepthRange(par, a, n, y);
      assert l[t + 1 := l[x] - 1] == l;
      CostOfJoin(v, Front(par, t), l, x, y, t + 1);
      DepthsCost(w, par, a, n, t + 1);
    } else {
      forall k | 0 <= k <= n && k in Front(par, n) ensures l[k] == 0 {
        assert k in Roots(par, n);
        DepthRange(par, a, n, k);
      }
      ZeroSum(Costs(v, Front(par, n), l));
    }
  }

  // ---------- Code lengths ----------

  /** The bits it takes to send the first m symbols, each as often as it weighs. */
  ghost function CodedBits(ws: seq<nat>, len: seq<int>, m: nat): int
    requires m <= |ws| && m <= |len|
  {
    if m == 0 then 0 else CodedBits(ws, len, m - 1) + ws[m - 1] * len[m - 1]
  }

  /** No prefix code with lengths in range takes fewer bits. */
  ghost predicate Shortest(ws: seq<nat>, len: seq<int>) {
    |ws| == |len| && forall other :: Decodable(other) && |other| == |len| ==> CodedBits(ws, len, |len|) <= CodedBits(ws, other, |len|)
  }

  /** The lengths as lengths of the leaves of a tree of n nodes. */
  ghost function Spread(len: seq<int>, n: nat): (r: seq<nat>)
    requires Lengths(len)
    ensures |r| == n + 1 && forall k :: 0 <= k <= n ==> r[k] == if 1 <= k <= |len| then len[k - 1] else 0
  {
    seq<nat>(n + 1, k => if 1 <= k <= |len| && Lengths(len) then len[k - 1] else 0)
  }

  lemma {:induction false} ZeroTail(s: seq<nat>, m: nat)
    requires m <= |s| && forall i :: m <= i < |s| ==> s[i] == 0
    ensures Sum(s) == Sum(s[..m])
    decreases |s|
  {
    if m < |s| {
      ZeroTail(s[..|s| - 1], m);
      assert s[..|s| - 1][..m] == s[..m];
    } else {
      assert s[..m] == s;
    }
  }

  lemma {:induction false} LeafCosts(c: seq<nat>, ws: seq<nat>, len: seq<int>, m: nat)
    requires m < |c| && m <= |ws| && m <= |len| && c[0] == 0 && forall k :: 1 <= k <= m ==> c[k] == ws[k - 1] * len[k - 1]
    ensures Sum(c[..m + 1]) == CodedBits(ws, len, m)
  {
    assert c[..m + 1][..m] == c[..m];
    if m > 0 { LeafCosts(c, ws, len, m - 1); } else { assert c[..0] == []; }
  }

  lemma {:induction false} LeafShares(c: seq<nat>, len: seq<int>, m: nat)
    requires m < |c| && Lengths(len) && m <= |len| && c[0] == 0 && forall k :: 1 <= k <= m ==> c[k] == Pow2(LONGEST_CODE - len[k - 1])
    ensures Sum(c[..m + 1]) == Kraft(len, m)
  {
    hide Pow2;
    assert c[..m + 1][..m] == c[..m];
    if m > 0 { LeafShares(c, len, m - 1); } else { assert c[..0] == []; }
  }

  /** A node of the first a is a leaf. */
  lemma LeafFront(par: seq<int>, a: nat, n: nat)
    requires Linked(par, a, n)
    ensures a <= n < |par| && forall k: nat :: k in Front(par, a) <==> 1 <= k <= a
  {
    hide Kids;
  }

  /** The cost of lengths for the leaves. */
  lemma CostOfLeaves(v: seq<nat>, ws: seq<nat>, par: seq<int>, a: nat, n: nat, len: seq<int>)
    requires Linked(par, a, n) && |v| == n + 1 && |ws| == a == |len| && Lengths(len) && forall k :: 1 <= k <= a ==> v[k] == ws[k - 1]
    ensures Sum(Costs(v, Front(par, a), Spread(len, n))) == CodedBits(ws, len, a)
  {
    hide Linked, Sum, Front;
    LeafFront(par, a, n);
    var c := Costs(v, Front(par, a), Spread(len, n));
    ZeroTail(c, a + 1);
    LeafCosts(c, ws, len, a);
  }

  lemma SpreadFits(par: seq<int>, a: nat, n: nat, len: seq<int>)
    requires Linked(par, a, n) && |len| == a && Decodable(len)
    ensures Fits(Front(par, a), Spread(len, n), LONGEST_CODE)
  {
    hide Linked, Sum, Front, Pow2, Kraft;
    LeafFront(par, a, n);
    var c := Shares(Front(par, a), Spread(len, n), LONGEST_CODE);
    ZeroTail(c, a + 1);
    LeafShares(c, len, a);
  }

  /** The depths of the leaves are the best code lengths for their weights. */
  lemma TreeIsShortest(w: seq<nat>, par: seq<int>, a: nat, n: nat, ws: seq<nat>, len: seq<int>)
    requires n < |w| && Greedy(w, par, n) && OneTree(par, a, n) && 1 <= a < n && |ws| == |len| == a && Lengths(len)
    requires forall k :: 1 <= k <= a ==> len[k - 1] == Depth(par, k) && ws[k - 1] == WeightOf(w[k])
    ensures Shortest(ws, len)
  {
    hide Greedy, Linked, Depth, WeightOf, Sum, Kraft, CodedBits, Fits, Front;
    var v := Weights(w, n);
    LeafFront(par, a, n);
    DepthsCost(w, par, a, n, a);
    assert Costs(v, Front(par, a), Depths(par, n)) == Costs(v, Front(par, a), Spread(len, n));
    CostOfLeaves(v, ws, par, a, n, len);
    forall other | Decodable(other) && |other| == a ensures CodedBits(ws, len, a) <= CodedBits(ws, other, a) {
      SpreadFits(par, a, n, other);
      NoneCheaper(w, par, a, n, a, Spread(other, n), LONGEST_CODE);
      CostOfLeaves(v, ws, par, a, n, other);
    }
  }
}
