/** Code lengths from symbol frequencies. */
module HuffmanLengths {
  import opened Words
  import opened Powers
  import opened Bits
  import opened HuffmanHeap
  import opened HuffmanForest
  import opened HuffmanOptimal
  import opened CanonicalHuffman

  const HEAP_SIZE := 260

  /** The weight of leaves 1..m. */
  ghost function LeafSum(w: seq<nat>, m: nat): nat
    requires m < |w|
  {
    if m == 0 then 0 else LeafSum(w, m - 1) + WeightOf(w[m])
  }

  /** Words of leaves: a positive weight and no depth. */
  ghost predicate Leaves(w: seq<nat>, a: nat) {
    a < |w| && forall k :: 1 <= k <= a ==> w[k] >= 256 && DepthOf(w[k]) == 0
  }

  lemma {:induction false} LeafSumFrame(w: seq<nat>, w': seq<nat>, m: nat)
    requires m < |w| && m < |w'| && forall k :: 1 <= k <= m ==> w[k] == w'[k]
    ensures LeafSum(w, m) == LeafSum(w', m)
  {
    if m > 0 { LeafSumFrame(w, w', m - 1); }
  }

  lemma {:induction false} AllRoots(w: seq<nat>, par: seq<int>, m: nat)
    requires m < |w| && m < |par| && forall k :: 1 <= k <= m ==> par[k] == -1
    ensures RootSum(w, par, m) == LeafSum(w, m)
  {
    if m > 0 { AllRoots(w, par, m - 1); }
  }

  /** n nodes have been made, and the trees among them weigh as much as the leaves. */
  ghost predicate Grown(w: seq<nat>, par: seq<int>, a: nat, n: nat, low: nat, total: nat) {
    && |w| == |par| == NODES && 2 <= a <= MAX_ALPHA_SIZE && n < 2 * a
    && w[0] == 0
    && Linked(par, a, n) && Weighted(w, par, a, n, low) && Greedy(w, par, n)
    && RootSum(w, par, n) == total < 0x80_0000
  }

  /** The m entries of the heap are the roots of the forest. */
  ghost predicate HoldsRoots(w: seq<nat>, par: seq<int>, h: seq<int>, n: nat, m: nat) {
    && |h| == HEAP_SIZE && m < HEAP_SIZE && h[0] == 0 && n < |par|
    && Ordered(w, h, m) && Entries(h, m) == multiset(Roots(par, n))
  }

  ghost predicate Filling(w: seq<nat>, par: seq<int>, h: seq<int>, a: nat, i: nat) {
    && |w| == |par| == NODES && i <= a <= MAX_ALPHA_SIZE
    && w[0] == 0 && Leaves(w, a) && HoldsRoots(w, par, h, i, i)
    && (forall k :: 1 <= k <= i ==> par[k] == -1)
  }

  lemma EntryIn(h: seq<int>, n: nat, j: nat)
    requires 1 <= j <= n < |h|
    ensures h[j] in Entries(h, n)
  {
    assert h[j] == h[1..n + 1][j - 1];
  }

  lemma EmptyHeap(h: seq<int>, par: seq<int>)
    requires |h| > 0 && |par| > 0
    ensures Entries(h, 0) == multiset(Roots(par, 0))
  {
    assert h[1..1] == [];
    assert Roots(par, 0) == {};
  }

  /** `parent[i] = -1` and the i-th leaf goes into the heap. */
  method AddLeaf(heap: array<int>, weight: array<nat>, parent: array<int>, ghost a: nat, i: nat)
    requires heap != parent && heap as object != weight && parent as object != weight
    requires 1 <= i <= a && Filling(weight[..], parent[..], heap[..], a, i - 1)
    modifies heap, parent
    ensures Filling(weight[..], parent[..], heap[..], a, i)
  {
    hide Entries, Above, DepthOf;
    ghost var before := parent[..];
    parent[i] := -1;
    assert Roots(parent[..], i) == Roots(before, i - 1) + {i as int};
    forall j | 1 <= j <= i - 1 ensures weight[heap[j]] > 0 { EntryIn(heap[..], i - 1, j); }
    Insert(heap, weight, i - 1, i);
  }

  /** Puts every leaf into the heap. */
  method FillHeap(heap: array<int>, weight: array<nat>, parent: array<int>, a: nat, ghost total: nat)
    requires heap.Length == HEAP_SIZE && weight.Length == parent.Length == NODES && 2 <= a <= MAX_ALPHA_SIZE
    requires heap != parent && heap as object != weight && parent as object != weight
    requires Leaves(weight[..], a) && LeafSum(weight[..], a) == total < 0x80_0000
    modifies heap, weight, parent
    ensures Grown(weight[..], parent[..], a, a, 1, total) && HoldsRoots(weight[..], parent[..], heap[..], a, a)
    ensures forall k :: 1 <= k <= a ==> weight[k] == old(weight[k])
  {
    hide Entries, LeafSum, Above, Kids, RootSum, Linked, Weighted, Greedy, DepthOf;
    heap[0] := 0;
    weight[0] := 0;
    parent[0] := -2;
    ghost var w := weight[..];
    LeafSumFrame(old(weight[..]), w, a);
    EmptyHeap(heap[..], parent[..]);
    for i := 1 to a + 1
      invariant weight[..] == w && Filling(w, parent[..], heap[..], a, i - 1)
    {
      AddLeaf(heap, weight, parent, a, i);
    }
    LeavesOnly(w, parent[..], a);
  }

  lemma LeafBounded(x: nat)
    requires x >= 256 && DepthOf(x) == 0
    ensures Bounded(x, 1)
  {
    assert Fib(2) == 1;
  }

  lemma LeavesOnly(w: seq<nat>, par: seq<int>, a: nat)
    requires |w| == |par| == NODES && Leaves(w, a) && forall k :: 1 <= k <= a ==> par[k] == -1
    ensures Linked(par, a, a) && Weighted(w, par, a, a, 1) && Greedy(w, par, a) && RootSum(w, par, a) == LeafSum(w, a)
  {
    hide Bounded, LeafSum, RootSum, Kids, DepthOf;
    AllRoots(w, par, a);
    forall k | 1 <= k <= a ensures Bounded(w[k], 1) { LeafBounded(w[k]); }
  }

  lemma RootEntries(h: seq<int>, m: nat, par: seq<int>, n: nat, k: int)
    requires m < |h| && n < |par| && Entries(h, m) == multiset(Roots(par, n))
    ensures k in Entries(h, m) <==> 1 <= k <= n && par[k] == -1
    ensures Entries(h, m)[k] <= 1
    ensures |Entries(h, m)| == m
  {
  }

  /** What is known after two extractions: the heap has lost the two lightest roots. */
  ghost predicate Picked(w: seq<nat>, par: seq<int>, h: seq<int>, n: nat, m: nat, n1: int, n2: int) {
    && |h| == HEAP_SIZE && 2 <= m < |h| && n < |par| && n < |w|
    && 1 <= n1 <= n && 1 <= n2 <= n && n1 != n2 && par[n1] == par[n2] == -1
    && w[n1] <= w[n2] && (forall k :: 1 <= k <= n && par[k] == -1 && k != n1 ==> w[n2] <= w[k])
    && Ordered(w, h, m - 2) && h[0] == 0
    && Entries(h, m - 2) == multiset(Roots(par, n) - {n1, n2})
  }

  method TakeTwo(heap: array<int>, weight: array<nat>, ghost par: seq<int>, ghost n: nat, m: nat) returns (n1: int, n2: int)
    requires heap as object != weight
    requires HoldsRoots(weight[..], par, heap[..], n, m) && m >= 2 && n < weight.Length
    modifies heap
    ensures Picked(weight[..], par, heap[..], n, m, n1, n2)
  {
    hide Linked, Weighted, RootSum, Entries, Above, Roots;
    ghost var h := heap[..];
    forall k ensures k in Entries(h, m) <==> 1 <= k <= n && par[k] == -1 { RootEntries(h, m, par, n, k); }
    n1 := ExtractMin(heap, weight, m);
    RootEntries(h, m, par, n, n1);
    n2 := ExtractMin(heap, weight, m - 1);
    RootEntries(h, m, par, n, n2);
    TwoOut(Roots(par, n), n1, n2);
  }

  lemma TwoOut(s: set<int>, x: int, y: int)
    requires x in s && y in multiset(s) - multiset{x}
    ensures x != y && y in s && multiset(s) - multiset{x} - multiset{y} == multiset(s - {x, y})
    ensures forall k :: k in s && k != x ==> k in multiset(s) - multiset{x}
  {
  }

  lemma JoinGrown(w: seq<nat>, par: seq<int>, h: seq<int>, a: nat, n: nat, m: nat, n1: int, n2: int, low: nat, total: nat)
    requires Grown(w, par, a, n, low, total) && n + 1 < 2 * a && Picked(w, par, h, n, m, n1, n2)
    ensures var x := AddWeights(w[n1], w[n2]);
            && Grown(w[n + 1 := x], Joined(par, n1, n2, n + 1), a, n + 1, WeightOf(w[n2]), total) && x > 0
            && Roots(Joined(par, n1, n2, n + 1), n + 1) == Roots(par, n) - {n1, n2} + {n + 1}
  {
    hide Linked, Weighted, Greedy, RootSum, Entries, Ordered, AddWeights, WeightOf;
    JoinBounds(w, par, a, n, low, n1, n2);
    JoinLinks(par, a, n, n1, n2);
    JoinGreedy(w, par, a, n, n1, n2, AddWeights(w[n1], w[n2]));
    JoinWeights(w, par, n, n1, n2, AddWeights(w[n1], w[n2]));
  }

  lemma HeapFrame(w: seq<nat>, par: seq<int>, h: seq<int>, n: nat, m: nat, n1: int, n2: int, x: nat)
    requires Picked(w, par, h, n, m, n1, n2) && n + 1 < |w| && forall k :: 1 <= k <= n ==> w[k] > 0
    ensures Ordered(w[n + 1 := x], h, m - 2)
    ensures forall j :: 1 <= j <= m - 2 ==> 1 <= h[j] <= n && w[h[j]] > 0
  {
    hide Entries, Above;
    forall j | 1 <= j <= m - 2 ensures 1 <= h[j] <= n { EntryIn(h, m - 2, j); }
    var w' := w[n + 1 := x];
    forall j | 2 <= j <= m - 2 ensures Above(w', h, j) { StillAbove(w, h, n, j, x); }
  }

  lemma StillAbove(w: seq<nat>, h: seq<int>, n: nat, j: nat, x: nat)
    requires 2 <= j < |h| && n + 1 < |w| && 1 <= h[j] <= n && 1 <= h[j / 2] <= n && Above(w, h, j)
    ensures Above(w[n + 1 := x], h, j)
  {
  }

  method MakeNode(weight: array<nat>, parent: array<int>, n: nat, n1: int, n2: int)
    requires parent as object != weight && n + 1 < weight.Length == parent.Length && 1 <= n1 <= n && 1 <= n2 <= n
    modifies weight, parent
    ensures parent[..] == Joined(old(parent[..]), n1, n2, n + 1)
    ensures weight[..] == old(weight[..])[n + 1 := AddWeights(old(weight[n1]), old(weight[n2]))]
  {
    hide AddWeights;
    parent[n1], parent[n2] := n + 1, n + 1;
    weight[n + 1] := AddWeights(weight[n1], weight[n2]);
    parent[n + 1] := -1;
  }

  /** Makes nodes n1 and n2 the children of the new node n + 1. */
  method Join(heap: array<int>, weight: array<nat>, parent: array<int>, ghost a: nat, n: nat, m: nat, n1: int, n2: int, ghost low: nat, ghost total: nat)
    requires heap != parent && heap as object != weight && parent as object != weight
    requires Grown(weight[..], parent[..], a, n, low, total) && n + 1 < 2 * a
    requires Picked(weight[..], parent[..], heap[..], n, m, n1, n2)
    modifies heap, weight, parent
    ensures Grown(weight[..], parent[..], a, n + 1, WeightOf(old(weight[n2])), total)
    ensures HoldsRoots(weight[..], parent[..], heap[..], n + 1, m - 1)
    ensures weight[..] == old(weight[..])[n + 1 := weight[n + 1]]
  {
    hide Linked, RootSum, Entries, Above, AddWeights, Weighted, Greedy;
    ghost var w, par := weight[..], parent[..];
    JoinGrown(w, par, heap[..], a, n, m, n1, n2, low, total);
    AllWeighted(w, par, a, n, low);
    HeapFrame(w, par, heap[..], n, m, n1, n2, AddWeights(w[n1], w[n2]));
    PickedRange(w, par, heap[..], n, m, n1, n2);
    MakeNode(weight, parent, n, n1, n2);
    Insert(heap, weight, m - 2, n + 1);
  }

  lemma AllWeighted(w: seq<nat>, par: seq<int>, a: nat, n: nat, low: nat)
    requires Weighted(w, par, a, n, low)
    ensures forall k :: 1 <= k <= n ==> w[k] > 0
  {
  }

  /** Joins trees until one is left. */
  method BuildTree(heap: array<int>, weight: array<nat>, parent: array<int>, a: nat, ghost total: nat) returns (ghost low: nat)
    requires heap.Length == HEAP_SIZE && weight.Length == parent.Length == NODES && 2 <= a <= MAX_ALPHA_SIZE
    requires heap != parent && heap as object != weight && parent as object != weight
    requires Leaves(weight[..], a) && LeafSum(weight[..], a) == total < 0x80_0000
    modifies heap, weight, parent
    ensures Grown(weight[..], parent[..], a, 2 * a - 1, low, total) && OneTree(parent[..], a, 2 * a - 1)
    ensures forall k :: 1 <= k <= a ==> weight[k] == old(weight[k])
  {
    hide Linked, RootSum, Entries, Above, AddWeights, Weighted, Greedy, Picked, HoldsRoots;
    FillHeap(heap, weight, parent, a, total);
    var nNodes, nHeap := a, a;
    low := 1;
    while nHeap > 1
      invariant 1 <= nHeap <= a && nNodes + nHeap == 2 * a
      invariant Grown(weight[..], parent[..], a, nNodes, low, total)
      invariant HoldsRoots(weight[..], parent[..], heap[..], nNodes, nHeap)
      invariant forall k :: 1 <= k <= a ==> weight[k] == old(weight[k])
    {
      var n1, n2 := TakeTwo(heap, weight, parent[..], nNodes, nHeap);
      PickedRange(weight[..], parent[..], heap[..], nNodes, nHeap, n1, n2);
      ghost var low' := WeightOf(weight[n2]);
      ghost var w := weight[..];
      Join(heap, weight, parent, a, nNodes, nHeap, n1, n2, low, total);
      assert forall k :: 1 <= k <= a ==> weight[k] == w[k];
      low := low';
      nNodes, nHeap := nNodes + 1, nHeap - 1;
    }
    LastRoot(weight[..], parent[..], heap[..], a, nNodes);
  }

  lemma PickedRange(w: seq<nat>, par: seq<int>, h: seq<int>, n: nat, m: nat, n1: int, n2: int)
    requires Picked(w, par, h, n, m, n1, n2)
    ensures 1 <= n1 <= n < |w| && 1 <= n2 <= n
  {
  }

  lemma LastRoot(w: seq<nat>, par: seq<int>, h: seq<int>, a: nat, n: nat)
    requires Linked(par, a, n) && n >= 1 && HoldsRoots(w, par, h, n, 1)
    ensures OneTree(par, a, n)
  {
    hide Ordered;
    assert h[1..2] == [h[1]];
    assert multiset(Roots(par, n)) == multiset{h[1]};
    assert n in Roots(par, n);
    forall k | k in Roots(par, n) ensures k == n {
      assert k in multiset(Roots(par, n));
      assert n in multiset(Roots(par, n));
    }
  }

  /** Counts the links above each leaf. */
  method MeasureDepths(len: array<byte>, parent: array<int>, a: nat, ghost n: nat, maxLen: nat) returns (tooLong: bool)
    requires len.Length >= a && n < parent.Length && a < n && len as object != parent
    requires OneTree(parent[..], a, n) && forall k :: 1 <= k <= a ==> Depth(parent[..], k) < 256
    modifies len
    ensures forall k :: 1 <= k <= a ==> len[k - 1] as int == Depth(parent[..], k)
    ensures tooLong <==> exists k :: 1 <= k <= a && Depth(parent[..], k) > maxLen
  {
    hide Kids, Depth;
    ghost var par := parent[..];
    tooLong := false;
    for i := 1 to a + 1
      invariant parent[..] == par
      invariant forall k {:trigger Depth(par, k)} :: 1 <= k < i ==> len[k - 1] as int == Depth(par, k)
      invariant tooLong <==> exists k :: 1 <= k < i && Depth(par, k) > maxLen
    {
      ghost var before := len[..];
      var j, k := 0, i;
      while parent[k] >= 0
        invariant parent[..] == par && len[..] == before && 1 <= k <= n && Depth(par, i) == j + Depth(par, k)
        decreases n - k
      {
        DepthRange(par, a, n, k);
        k := parent[k];
        j := j + 1;
      }
      RootDepth(par, k);
      assert j == Depth(par, i) == Depth(parent[..], i);
      len[i - 1] := j;
      if j > maxLen { tooLong := true; }
    }
  }

  lemma RootDepth(par: seq<int>, k: nat)
    requires k < |par| && par[k] < 0
    ensures Depth(par, k) == 0
  {
  }

  function Halved(x: nat): nat {
    (1 + WeightOf(x) / 2) * 256
  }

  lemma HalvedWeight(x: nat)
    requires x >= 256
    ensures Halved(x) >= 256 && DepthOf(Halved(x)) == 0 && WeightOf(Halved(x)) == 1 + WeightOf(x) / 2 <= WeightOf(x)
    ensures WeightOf(x) >= 3 ==> WeightOf(Halved(x)) < WeightOf(x)
  {
  }

  /** Halving the weights lightens the leaves as soon as one weighs three or more. */
  lemma {:induction false} HalvedSum(w: seq<nat>, w': seq<nat>, a: nat, m: nat)
    requires Leaves(w, a) && m <= a < |w'| && forall k :: 1 <= k <= a ==> w'[k] == Halved(w[k])
    ensures LeafSum(w', m) <= LeafSum(w, m)
    ensures LeafSum(w, m) > 2 * m ==> LeafSum(w', m) < LeafSum(w, m)
  {
    if m > 0 {
      HalvedWeight(w[m]);
      HalvedSum(w, w', a, m - 1);
    }
  }

  /** The weights of leaves 1..a. */
  ghost function LeafWeights(w: seq<nat>, a: nat): (ws: seq<nat>)
    requires a < |w|
    ensures |ws| == a && forall i :: 0 <= i < a ==> ws[i] == WeightOf(w[i + 1])
  {
    seq(a, i requires 0 <= i < a && a < |w| => WeightOf(w[i + 1]))
  }

  ghost function HalvedOnce(ws: seq<nat>): (r: seq<nat>)
    ensures |r| == |ws| && forall i :: 0 <= i < |r| ==> r[i] == 1 + ws[i] / 2
  {
    seq(|ws|, i requires 0 <= i < |ws| => 1 + ws[i] / 2)
  }

  ghost function HalvedTimes(ws: seq<nat>, n: nat): (r: seq<nat>)
    ensures |r| == |ws|
  {
    if n == 0 then ws else HalvedOnce(HalvedTimes(ws, n - 1))
  }

  method Scale(weight: array<nat>, a: nat)
    requires Leaves(weight[..], a)
    modifies weight
    ensures Leaves(weight[..], a) && LeafWeights(weight[..], a) == HalvedOnce(old(LeafWeights(weight[..], a)))
    ensures LeafSum(weight[..], a) <= old(LeafSum(weight[..], a))
    ensures old(LeafSum(weight[..], a)) > 2 * a ==> LeafSum(weight[..], a) < old(LeafSum(weight[..], a))
  {
    hide WeightOf, DepthOf, LeafSum, Halved;
    ghost var w := weight[..];
    for i := 1 to a + 1
      invariant forall k :: 1 <= k < i ==> weight[k] == Halved(w[k])
      invariant forall k :: i <= k <= a ==> weight[k] == w[k]
    {
      HalvedWeight(w[i]);
      weight[i] := Halved(weight[i]);
    }
    forall k | 1 <= k <= a ensures Halved(w[k]) >= 256 && DepthOf(Halved(w[k])) == 0 { HalvedWeight(w[k]); }
    forall i | 0 <= i < a ensures LeafWeights(weight[..], a)[i] == HalvedOnce(LeafWeights(w, a))[i] { HalvedWeight(w[i + 1]); }
    HalvedSum(w, weight[..], a, a);
  }

  // ---------- The lengths make a complete code ----------

  lemma {:induction false} KraftOfFrontier(len: seq<int>, par: seq<int>, a: nat, n: nat, m: nat)
    requires Lengths(len) && |len| == a && OneTree(par, a, n) && m <= a < n
    requires forall k :: 1 <= k <= a ==> len[k - 1] == Depth(par, k)
    ensures Frontier(par, n, a, m) == Kraft(len, m) * Pow2(n)
  {
    hide Kids, Pow2, Roots;
    if m > 0 {
      KraftOfFrontier(len, par, a, n, m - 1);
      DepthRange(par, a, n, m);
      Pow2Sum(LONGEST_CODE - len[m - 1], n);
      Distribute(Kraft(len, m - 1), Pow2(LONGEST_CODE - len[m - 1]), Pow2(n));
    }
  }

  lemma Distribute(x: nat, y: nat, p: nat)
    ensures (x + y) * p == x * p + y * p
  {
  }

  lemma CompleteCode(len: seq<int>, par: seq<int>, a: nat, n: nat)
    requires Lengths(len) && |len| == a && OneTree(par, a, n) && 1 <= a < n
    requires forall k :: 1 <= k <= a ==> len[k - 1] == Depth(par, k)
    ensures Kraft(len, a) == Pow2(LONGEST_CODE)
  {
    hide Kraft, Frontier, Pow2, Depth, OneTree;
    KraftOfFrontier(len, par, a, n, a);
    FrontierIsWhole(par, a, n, a);
    Pow2Sum(LONGEST_CODE, n);
    DivideBound(Kraft(len, a), Pow2(LONGEST_CODE), Pow2(n));
    DivideBound(Pow2(LONGEST_CODE), Kraft(len, a), Pow2(n));
  }

  /** A tree that is deeper than twelve weighs too much for leaves of weight one and two. */
  lemma DeepTreeHeavy(w: seq<nat>, par: seq<int>, a: nat, n: nat, low: nat, total: nat, k: nat)
    requires Grown(w, par, a, n, low, total) && OneTree(par, a, n) && 1 <= k <= n
    ensures Depth(par, k) <= 32
    ensures Depth(par, k) > 12 ==> total > 2 * a
  {
    hide Linked, RootSum, Kids, Fib, Greedy;
    DepthBelow(w, par, a, n, low, k);
    assert n in Roots(par, n);
    RootInSum(w, par, n, n);
    FibMonotone(Depth(par, k) + 2, DepthOf(w[n]) + 2);
    DepthLimit(Depth(par, k), total);
  }

  /** A tree weighs at least the Fibonacci number that belongs to its depth. */
  lemma DepthNeedsWeight(w: seq<nat>, par: seq<int>, a: nat, n: nat, low: nat, total: nat, k: nat, d: nat)
    requires Grown(w, par, a, n, low, total) && OneTree(par, a, n) && 1 <= k <= n && Depth(par, k) > d
    ensures Fib(d + 3) <= total
  {
    hide Linked, RootSum, Kids, Fib, Greedy;
    DepthBelow(w, par, a, n, low, k);
    assert n in Roots(par, n);
    RootInSum(w, par, n, n);
    FibMonotone(d + 3, DepthOf(w[n]) + 2);
  }

  /** The weight of the first m symbols; an unused symbol counts once. */
  ghost function Demand(freq: seq<nat>, m: nat): nat
    requires m <= |freq|
  {
    if m == 0 then 0 else Demand(freq, m - 1) + Max(1, freq[m - 1])
  }

  lemma LeafWord(f: nat)
    ensures WeightOf(f * 256) == f && DepthOf(f * 256) == 0
  {
  }

  lemma {:induction false} LeafSumIsDemand(w: seq<nat>, freq: seq<nat>, m: nat)
    requires m <= |freq| && m < |w| && forall k :: 1 <= k <= m ==> w[k] == Max(1, freq[k - 1]) * 256
    ensures LeafSum(w, m) == Demand(freq, m)
  {
    if m > 0 {
      LeafWord(Max(1, freq[m - 1]));
      LeafSumIsDemand(w, freq, m - 1);
    }
  }

  method InitialWeights(weight: array<nat>, freq: seq<nat>)
    requires weight.Length == NODES && |freq| <= MAX_ALPHA_SIZE
    modifies weight
    ensures Leaves(weight[..], |freq|) && LeafSum(weight[..], |freq|) == Demand(freq, |freq|)
    ensures LeafWeights(weight[..], |freq|) == AtLeastOne(freq)
  {
    hide LeafSum, Demand;
    for i := 0 to |freq|
      invariant forall k {:trigger weight[k]} :: 1 <= k <= i ==> weight[k] == Max(1, freq[k - 1]) * 256
    {
      weight[i + 1] := (if freq[i] == 0 then 1 else freq[i]) * 256;
    }
    forall i | 0 <= i < |freq| ensures WeightOf(weight[i + 1]) == Max(1, freq[i]) && DepthOf(weight[i + 1]) == 0 { LeafWord(Max(1, freq[i])); }
    LeafSumIsDemand(weight[..], freq, |freq|);
  }

  /** One attempt: the code lengths of the tree over the present weights. */
  method Attempt(len: array<byte>, heap: array<int>, weight: array<nat>, parent: array<int>, a: nat, maxLen: nat) returns (tooLong: bool)
    requires len.Length == a && heap.Length == HEAP_SIZE && weight.Length == parent.Length == NODES
    requires 2 <= a <= MAX_ALPHA_SIZE && 12 <= maxLen <= LONGEST_CODE
    requires heap != parent && heap as object != weight && parent as object != weight
    requires len as object != heap && len as object != weight && len as object != parent
    requires Leaves(weight[..], a) && LeafSum(weight[..], a) < 0x80_0000
    modifies len, heap, weight, parent
    ensures Leaves(weight[..], a) && LeafWeights(weight[..], a) == old(LeafWeights(weight[..], a)) && LeafSum(weight[..], a) == old(LeafSum(weight[..], a))
    ensures tooLong ==> LeafSum(weight[..], a) > 2 * a && LeafSum(weight[..], a) >= Fib(maxLen + 3)
    ensures !tooLong ==> Complete(len[..], maxLen) && Shortest(LeafWeights(weight[..], a), len[..])
  {
    hide LeafSum, Linked, Weighted, Greedy, RootSum, Kraft, Pow2, Depth, Shortest, Fib, WeightOf, DepthOf;
    ghost var total, n := LeafSum(weight[..], a), 2 * a - 1;
    ghost var low := BuildTree(heap, weight, parent, a, total);
    LeafSumFrame(old(weight[..]), weight[..], a);
    ghost var w, par := weight[..], parent[..];
    forall k | 1 <= k <= n ensures Depth(par, k) <= 32 && (Depth(par, k) > 12 ==> total > 2 * a) {
      DeepTreeHeavy(w, par, a, n, low, total, k);
    }
    tooLong := MeasureDepths(len, parent, a, n, maxLen);
    assert parent[..] == par && weight[..] == w;
    if tooLong {
      ghost var k :| 1 <= k <= a && Depth(par, k) > maxLen;
      DepthNeedsWeight(w, par, a, n, low, total, k, maxLen);
    } else {
      forall i | 0 <= i < a ensures 1 <= len[i] as int <= maxLen {
        DepthRange(par, a, n, i + 1);
        assert len[i + 1 - 1] as int == Depth(par, i + 1);
      }
      CompleteCode(len[..], par, a, n);
      TreeIsShortest(w, par, a, n, LeafWeights(w, a), len[..]);
    }
  }

  /** Code lengths of at most maxLen bits that leave no bit string unused. */
  ghost predicate Complete(len: seq<int>, maxLen: nat) {
    Lengths(len) && (forall i :: 0 <= i < |len| ==> len[i] <= maxLen) && Kraft(len, |len|) == Pow2(LONGEST_CODE)
  }

  /** The weights of the symbols; an unused symbol counts once. */
  ghost function AtLeastOne(freq: seq<nat>): (ws: seq<nat>)
    ensures |ws| == |freq| && forall i :: 0 <= i < |ws| ==> ws[i] == Max(1, freq[i])
  {
    seq(|freq|, i requires 0 <= i < |freq| => Max(1, freq[i]))
  }

  /**
   * Builds Huffman trees over the frequencies, halving them until no code is longer than maxLen.
   * The lengths are the best for the frequencies halved as often as that; they are not halved at all
   * if they are in sum below the Fibonacci number of maxLen + 3.
   * Frequencies have to leave room for the depth in a 32-bit word.
   */
  method MakeCodeLengths(len: array<byte>, freq: seq<nat>, maxLen: nat) returns (ghost halvings: nat)
    requires 2 <= |freq| == len.Length <= MAX_ALPHA_SIZE && 12 <= maxLen <= LONGEST_CODE
    requires Demand(freq, |freq|) < 0x80_0000
    modifies len
    ensures Complete(len[..], maxLen) && Shortest(HalvedTimes(AtLeastOne(freq), halvings), len[..])
    ensures Demand(freq, |freq|) < Fib(maxLen + 3) ==> halvings == 0
  {
    hide Leaves, Demand, LeafSum, Complete, Shortest, Fib, HalvedOnce;
    var a := |freq|;
    var heap, weight, parent := new int[HEAP_SIZE], new nat[NODES], new int[NODES];
    InitialWeights(weight, freq);
    halvings := 0;
    while true
      invariant a < weight.Length && Leaves(weight[..], a) && LeafSum(weight[..], a) < 0x80_0000
      invariant LeafWeights(weight[..], a) == HalvedTimes(AtLeastOne(freq), halvings)
      invariant if halvings == 0 then LeafSum(weight[..], a) == Demand(freq, a) else Demand(freq, a) >= Fib(maxLen + 3)
      decreases LeafSum(weight[..], a)
    {
      var tooLong := Attempt(len, heap, weight, parent, a, maxLen);
      if !tooLong { break; }
      Scale(weight, a);
      halvings := halvings + 1;
    }
  }
}
