/** The growing forest of a Huffman tree: its links, weights and depths. */
module HuffmanForest {
  import opened Powers

  const NODES := 516

  // A node's weight and the depth of its tree share one word.

  function WeightOf(x: nat): nat { x / 256 }

  function DepthOf(x: nat): nat { x % 256 }

  function Max(x: nat, y: nat): nat { if x > y then x else y }

  /** The word of a node above nodes x and y; the sum joins disjoint bit fields. */
  function AddWeights(x: nat, y: nat): nat {
    (WeightOf(x) + WeightOf(y)) * 256 + (1 + Max(DepthOf(x), DepthOf(y)))
  }

  function Fib(n: nat): nat {
    if n < 2 then n else Fib(n - 1) + Fib(n - 2)
  }

  lemma {:induction false} FibMonotone(m: nat, n: nat)
    requires m <= n
    ensures Fib(m) <= Fib(n)
  {
    if m < n {
      FibMonotone(m, n - 1);
      assert n >= 2 || (m == 0 && n == 1);
    }
  }

  lemma FibValues()
    ensures Fib(1) == Fib(2) == 1 && Fib(15) == 610 && Fib(35) == 9227465
  {
    assert Fib(3) == 2 && Fib(4) == 3;
    assert Fib(5) == 5 && Fib(6) == 8;
    assert Fib(7) == 13 && Fib(8) == 21;
    assert Fib(9) == 34 && Fib(10) == 55;
    assert Fib(11) == 89 && Fib(12) == 144;
    assert Fib(13) == 233 && Fib(14) == 377;
    assert Fib(15) == 610 && Fib(16) == 987;
    assert Fib(17) == 1597 && Fib(18) == 2584;
    assert Fib(19) == 4181 && Fib(20) == 6765;
    assert Fib(21) == 10946 && Fib(22) == 17711;
    assert Fib(23) == 28657 && Fib(24) == 46368;
    assert Fib(25) == 75025 && Fib(26) == 121393;
    assert Fib(27) == 196418 && Fib(28) == 317811;
    assert Fib(29) == 514229 && Fib(30) == 832040;
    assert Fib(31) == 1346269 && Fib(32) == 2178309;
    assert Fib(33) == 3524578 && Fib(34) == 5702887;
  }

  /** The depth that a total weight allows. */
  lemma DepthLimit(d: nat, total: nat)
    requires Fib(d + 2) <= total
    ensures total < 0x80_0000 ==> d <= 32
    ensures total < 610 ==> d <= 12
  {
    hide Fib;
    FibValues();
    if d > 32 { FibMonotone(35, d + 2); }
    if d > 12 { FibMonotone(15, d + 2); }
  }

  // ---------- Links ----------

  /** How many of the first m nodes are children of p. */
  ghost function Kids(par: seq<int>, p: int, m: nat): nat
    requires m < |par|
  {
    if m == 0 then 0 else Kids(par, p, m - 1) + if par[m] == p then 1 else 0
  }

  /** Nodes 1..a are leaves; each later node of the first n has exactly two children, made before it. */
  ghost predicate Linked(par: seq<int>, a: nat, n: nat) {
    && a <= n < |par|
    && (forall k :: 1 <= k <= n ==> par[k] == -1 || (k < par[k] <= n && a < par[k]))
    && (forall p :: a < p <= n ==> Kids(par, p, n) == 2)
  }

  /** Nodes that have no parent yet. */
  ghost function Roots(par: seq<int>, n: nat): set<int>
    requires n < |par|
  {
    set k | 1 <= k <= n && par[k] == -1
  }

  ghost function Joined(par: seq<int>, n1: nat, n2: nat, p: nat): seq<int>
    requires n1 < |par| && n2 < |par| && p < |par|
  {
    par[n1 := p][n2 := p][p := -1]
  }

  lemma {:induction false} KidsFrame(par: seq<int>, par': seq<int>, p: int, m: nat)
    requires m < |par| && m < |par'| && forall k :: 1 <= k <= m ==> (par[k] == p <==> par'[k] == p)
    ensures Kids(par, p, m) == Kids(par', p, m)
  {
    if m > 0 { KidsFrame(par, par', p, m - 1); }
  }

  lemma {:induction false} NoKids(par: seq<int>, p: int, m: nat)
    requires m < |par| && forall k :: 1 <= k <= m ==> par[k] != p
    ensures Kids(par, p, m) == 0
  {
    if m > 0 { NoKids(par, p, m - 1); }
  }

  lemma {:induction false} OneMoreKid(par: seq<int>, p: int, n1: nat, m: nat)
    requires 1 <= n1 <= m < |par| && par[n1] != p
    ensures Kids(par[n1 := p], p, m) == Kids(par, p, m) + 1
  {
    if n1 < m {
      OneMoreKid(par, p, n1, m - 1);
    } else {
      KidsFrame(par, par[n1 := p], p, m - 1);
    }
  }

  lemma JoinLinks(par: seq<int>, a: nat, n: nat, n1: nat, n2: nat)
    requires Linked(par, a, n) && n + 1 < |par| && n1 != n2
    requires 1 <= n1 <= n && 1 <= n2 <= n && par[n1] == par[n2] == -1
    ensures Linked(Joined(par, n1, n2, n + 1), a, n + 1)
    ensures Roots(Joined(par, n1, n2, n + 1), n + 1) == Roots(par, n) - {n1, n2} + {n + 1}
  {
    hide Kids;
    var p := n + 1;
    var par' := Joined(par, n1, n2, p);
    forall q | a < q <= p ensures Kids(par', q, p) == 2 {
      LastNotKid(par', q, p);
      if q < p {
        KidsFrame(par, par', q, n);
      } else {
        NoKids(par, p, n);
        OneMoreKid(par, p, n1, n);
        OneMoreKid(par[n1 := p], p, n2, n);
        KidsFrame(par[n1 := p][n2 := p], par', p, n);
      }
    }
  }

  lemma LastNotKid(par: seq<int>, q: int, p: nat)
    requires 0 < p < |par| && par[p] != q
    ensures Kids(par, q, p) == Kids(par, q, p - 1)
  {
  }

  // ---------- Weights ----------

  /** The weight of the trees among the first m nodes. */
  ghost function RootSum(w: seq<nat>, par: seq<int>, m: nat): nat
    requires m < |w| && m < |par|
  {
    if m == 0 then 0 else RootSum(w, par, m - 1) + if par[m] == -1 then WeightOf(w[m]) else 0
  }

  lemma {:induction false} RootSumFrame(w: seq<nat>, par: seq<int>, w': seq<nat>, par': seq<int>, m: nat)
    requires m < |w| == |w'| && m < |par| == |par'|
    requires forall k :: 1 <= k <= m ==> w[k] == w'[k] && par[k] == par'[k]
    ensures RootSum(w, par, m) == RootSum(w', par', m)
  {
    if m > 0 { RootSumFrame(w, par, w', par', m - 1); }
  }

  lemma {:induction false} RootSumWithout(w: seq<nat>, par: seq<int>, k: nat, p: int, m: nat)
    requires m < |w| && m < |par| && 1 <= k <= m && par[k] == -1 && p != -1
    ensures RootSum(w, par, m) == RootSum(w, par[k := p], m) + WeightOf(w[k])
  {
    if k < m {
      RootSumWithout(w, par, k, p, m - 1);
    } else {
      RootSumFrame(w, par, w, par[k := p], m - 1);
    }
  }

  lemma JoinWeights(w: seq<nat>, par: seq<int>, n: nat, n1: nat, n2: nat, x: nat)
    requires n + 1 < |w| && n + 1 < |par| && n1 != n2
    requires 1 <= n1 <= n && 1 <= n2 <= n && par[n1] == par[n2] == -1
    ensures WeightOf(w[n1]) + WeightOf(w[n2]) <= RootSum(w, par, n)
    ensures WeightOf(x) == WeightOf(w[n1]) + WeightOf(w[n2]) ==>
              RootSum(w[n + 1 := x], Joined(par, n1, n2, n + 1), n + 1) == RootSum(w, par, n)
  {
    hide WeightOf;
    var p := n + 1;
    RootSumWithout(w, par, n1, p, n);
    RootSumWithout(w, par[n1 := p], n2, p, n);
    RootSumFrame(w, par[n1 := p][n2 := p], w[p := x], Joined(par, n1, n2, p), n);
  }

  lemma {:induction false} RootInSum(w: seq<nat>, par: seq<int>, k: nat, m: nat)
    requires m < |w| && m < |par| && 1 <= k <= m && par[k] == -1
    ensures WeightOf(w[k]) <= RootSum(w, par, m)
  {
    if k < m { RootInSum(w, par, k, m - 1); }
  }

  /** A root's weight against its depth, and against the heaviest weight joined so far. */
  ghost predicate Bounded(x: nat, low: nat) {
    WeightOf(x) >= low && WeightOf(x) >= Fib(DepthOf(x) + 2) && low >= Fib(DepthOf(x) + 1)
  }

  /**
   * Depths grow along links; no root is lighter than any node joined before; and a tree of depth d
   * weighs at least the Fibonacci number of d + 2.
   */
  ghost predicate Weighted(w: seq<nat>, par: seq<int>, a: nat, n: nat, low: nat) {
    && a <= n < |w| && n < |par| && low >= 1
    && (forall k :: 1 <= k <= n ==> w[k] >= 256)
    && (forall k :: 1 <= k <= a ==> DepthOf(w[k]) == 0)
    && (forall k :: 1 <= k <= n && par[k] != -1 ==> 0 < par[k] <= n && DepthOf(w[k]) < DepthOf(w[par[k]]))
    && (forall k :: 1 <= k <= n && par[k] == -1 ==> Bounded(w[k], low))
  }

  /** Joining the two lightest trees gives a tree that is heavy for its depth. */
  lemma JoinedBounded(x: nat, y: nat, low: nat)
    requires Bounded(x, low) && Bounded(y, low) && low >= 1 && WeightOf(x) <= WeightOf(y)
    requires WeightOf(x) + WeightOf(y) < 0x80_0000
    ensures DepthOf(x) <= 32 && DepthOf(y) <= 32
    ensures WeightOf(AddWeights(x, y)) == WeightOf(x) + WeightOf(y)
    ensures DepthOf(AddWeights(x, y)) == 1 + Max(DepthOf(x), DepthOf(y))
    ensures Bounded(AddWeights(x, y), WeightOf(y))
  {
    DepthLimit(DepthOf(x), WeightOf(x));
    DepthLimit(DepthOf(y), WeightOf(y));
    JoinedFields(x, y);
    var d := Max(DepthOf(x), DepthOf(y));
    assert Fib(d + 3) == Fib(d + 2) + Fib(d + 1);
  }

  lemma JoinedFields(x: nat, y: nat)
    requires DepthOf(x) <= 32 && DepthOf(y) <= 32
    ensures WeightOf(AddWeights(x, y)) == WeightOf(x) + WeightOf(y)
    ensures DepthOf(AddWeights(x, y)) == 1 + Max(DepthOf(x), DepthOf(y))
  {
  }

  lemma StillBounded(x: nat, low: nat, low': nat)
    requires Bounded(x, low) && low <= low' <= WeightOf(x)
    ensures Bounded(x, low')
  {
  }

  lemma LighterWord(x: nat, y: nat)
    requires x <= y
    ensures WeightOf(x) <= WeightOf(y)
  {
  }

  lemma JoinBounds(w: seq<nat>, par: seq<int>, a: nat, n: nat, low: nat, n1: nat, n2: nat)
    requires Weighted(w, par, a, n, low) && Linked(par, a, n) && n + 1 < |w| && n + 1 < |par|
    requires n1 != n2 && 1 <= n1 <= n && 1 <= n2 <= n && par[n1] == par[n2] == -1
    requires w[n1] <= w[n2] && forall k :: 1 <= k <= n && par[k] == -1 && k != n1 ==> w[n2] <= w[k]
    requires RootSum(w, par, n) < 0x80_0000
    ensures AddWeights(w[n1], w[n2]) >= 256
    ensures WeightOf(AddWeights(w[n1], w[n2])) == WeightOf(w[n1]) + WeightOf(w[n2])
    ensures Weighted(w[n + 1 := AddWeights(w[n1], w[n2])], Joined(par, n1, n2, n + 1), a, n + 1, WeightOf(w[n2]))
  {
    hide Linked, Kids, RootSum, Fib, AddWeights, WeightOf, DepthOf, Bounded;
    var x := AddWeights(w[n1], w[n2]);
    LighterWord(w[n1], w[n2]);
    JoinWeights(w, par, n, n1, n2, x);
    JoinedBounded(w[n1], w[n2], low);
    HasWeight(w[n2]);
    HeavyWord(x);
    BoundsLow(w[n1], low);
    forall k | 1 <= k <= n && par[k] == -1 && k != n1 && k != n2 ensures Bounded(w[k], WeightOf(w[n2])) {
      LighterWord(w[n2], w[k]);
      StillBounded(w[k], low, WeightOf(w[n2]));
    }
    JoinDepths(w, par, n, n1, n2, x);
  }

  lemma BoundsLow(x: nat, low: nat)
    requires Bounded(x, low)
    ensures low <= WeightOf(x)
  {
  }

  lemma HasWeight(x: nat)
    requires x >= 256
    ensures WeightOf(x) >= 1
  {
  }

  lemma HeavyWord(x: nat)
    requires WeightOf(x) >= 1
    ensures x >= 256
  {
  }

  lemma JoinDepths(w: seq<nat>, par: seq<int>, n: nat, n1: nat, n2: nat, x: nat)
    requires n + 1 < |w| && n + 1 < |par| && 1 <= n1 <= n && 1 <= n2 <= n
    requires forall k :: 1 <= k <= n && par[k] != -1 ==> 0 < par[k] <= n && DepthOf(w[k]) < DepthOf(w[par[k]])
    requires DepthOf(w[n1]) < DepthOf(x) && DepthOf(w[n2]) < DepthOf(x)
    ensures var w', par' := w[n + 1 := x], Joined(par, n1, n2, n + 1);
            forall k :: 1 <= k <= n + 1 && par'[k] != -1 ==> 0 < par'[k] <= n + 1 && DepthOf(w'[k]) < DepthOf(w'[par'[k]])
  {
    hide DepthOf;
  }

  // ---------- Code lengths ----------

  /** How many links lead from node k to the root. */
  function Depth(par: seq<int>, k: nat): nat
    requires k < |par|
    decreases |par| - k
  {
    if k < par[k] < |par| then 1 + Depth(par, par[k]) else 0
  }

  /** The only root is the last node. */
  ghost predicate OneTree(par: seq<int>, a: nat, n: nat) {
    Linked(par, a, n) && Roots(par, n) == {n as int}
  }

  lemma {:induction false} DepthBelow(w: seq<nat>, par: seq<int>, a: nat, n: nat, low: nat, k: nat)
    requires OneTree(par, a, n) && Weighted(w, par, a, n, low) && 1 <= k <= n
    ensures Depth(par, k) + DepthOf(w[k]) <= DepthOf(w[n])
    decreases n - k
  {
    hide Kids, Bounded;
    if par[k] == -1 {
      assert k in Roots(par, n);
    } else {
      DepthBelow(w, par, a, n, low, par[k]);
    }
  }

  lemma {:induction false} DepthRange(par: seq<int>, a: nat, n: nat, k: nat)
    requires OneTree(par, a, n) && 1 <= k <= n
    ensures Depth(par, k) <= n - k
    ensures k < n ==> Depth(par, k) >= 1 && par[k] > k && Depth(par, k) == 1 + Depth(par, par[k])
    decreases n - k
  {
    hide Kids;
    if par[k] == -1 {
      assert k in Roots(par, n);
    } else {
      DepthRange(par, a, n, par[k]);
    }
  }

  /** The Kraft sum, in units of 2^-(n+20), of the nodes among the first m whose parents come after t. */
  ghost function Frontier(par: seq<int>, n: nat, t: int, m: nat): nat
    requires m <= n < |par|
  {
    if m == 0 then 0
    else Frontier(par, n, t, m - 1) + if par[m] == -1 || par[m] > t then Pow2(MinusDepth(par, n, m)) else 0
  }

  ghost function MinusDepth(par: seq<int>, n: nat, k: nat): nat
    requires k < |par|
  {
    if Depth(par, k) <= n then n + 20 - Depth(par, k) else 0
  }

  /** Undoing the joining of p brings its children back to the frontier. */
  lemma {:induction false} FrontierStep(par: seq<int>, a: nat, n: nat, p: nat, m: nat)
    requires OneTree(par, a, n) && a < p <= n && m <= n
    ensures MinusDepth(par, n, p) >= 1
    ensures Frontier(par, n, p - 1, m) == Frontier(par, n, p, m) + Kids(par, p, m) * Pow2(MinusDepth(par, n, p) - 1)
  {
    DepthRange(par, a, n, p);
    if m > 0 {
      FrontierStep(par, a, n, p, m - 1);
      DepthRange(par, a, n, m);
      if par[m] == p {
        KidAdds(Kids(par, p, m - 1), Pow2(MinusDepth(par, n, p) - 1));
      }
    }
  }

  lemma KidAdds(k: nat, x: nat)
    ensures (k + 1) * x == k * x + x
  {
  }

  lemma Doubled(m: nat)
    requires m >= 1
    ensures 2 * Pow2(m - 1) == Pow2(m)
  {
  }

  lemma {:induction false} LateNodes(par: seq<int>, a: nat, n: nat, p: nat, m: nat)
    requires OneTree(par, a, n) && p <= m <= n
    ensures Kids(par, p, m) == Kids(par, p, p)
  {
    if p < m { LateNodes(par, a, n, p, m - 1); }
  }

  /** The frontier always has a Kraft sum of one. */
  lemma {:induction false} FrontierIsWhole(par: seq<int>, a: nat, n: nat, t: nat)
    requires OneTree(par, a, n) && 1 <= a <= t <= n
    ensures Frontier(par, n, t, t) == Pow2(n + 20)
    decreases n - t
  {
    hide Kids, Pow2, Depth;
    if t == n {
      OnlyRoot(par, a, n, n);
    } else {
      var p := t + 1;
      FrontierIsWhole(par, a, n, p);
      FrontierStep(par, a, n, p, t);
      LateNodes(par, a, n, p, n);
      LastNotKid(par, p, p);
      DepthRange(par, a, n, p);
      Doubled(MinusDepth(par, n, p));
    }
  }

  lemma {:induction false} OnlyRoot(par: seq<int>, a: nat, n: nat, m: nat)
    requires OneTree(par, a, n) && 1 <= n && m <= n
    ensures Frontier(par, n, n, m) == if m == n then Pow2(n + 20) else 0
  {
    hide Kids, Pow2;
    if m > 0 {
      OnlyRoot(par, a, n, m - 1);
      assert m in Roots(par, n) <==> m == n;
      DepthRange(par, a, n, m);
      if m == n { assert Depth(par, n) == 0; }
    }
  }
}
