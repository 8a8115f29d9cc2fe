/** The binary heap of tree nodes that delivers the two lightest nodes. */
module HuffmanHeap {

  ghost predicate InRange(w: seq<int>, h: seq<int>, n: nat) {
    n < |h| && forall j :: 1 <= j <= n ==> 0 <= h[j] < |w|
  }

  /** h[j] is no lighter than the entry above it. */
  ghost predicate Above(w: seq<int>, h: seq<int>, j: nat)
    requires 1 <= j / 2 && j < |h| && 0 <= h[j] < |w| && 0 <= h[j / 2] < |w|
  {
    w[h[j / 2]] <= w[h[j]]
  }

  ghost predicate Ordered(w: seq<int>, h: seq<int>, n: nat) {
    InRange(w, h, n) && forall j :: 2 <= j <= n ==> Above(w, h, j)
  }

  /** The entries of the heap. */
  ghost function Entries(h: seq<int>, n: nat): multiset<int>
    requires n < |h|
  {
    multiset(h[1..n + 1])
  }

  /** Ordered, except perhaps between entry z and the one above it. */
  ghost predicate OrderedButUp(w: seq<int>, h: seq<int>, n: nat, z: nat) {
    && InRange(w, h, n) && 1 <= z <= n
    && (forall j :: 2 <= j <= n && j != z ==> Above(w, h, j))
    && (forall j :: 2 <= j <= n && j / 2 == z && z >= 2 ==> w[h[z / 2]] <= w[h[j]])
  }

  /** Ordered, except perhaps between entry z and those below it. */
  ghost predicate OrderedButDown(w: seq<int>, h: seq<int>, n: nat, z: nat) {
    && InRange(w, h, n) && 1 <= z
    && (forall j :: 2 <= j <= n && j / 2 != z ==> Above(w, h, j))
    && (forall j :: 2 <= j <= n && j / 2 == z && z >= 2 ==> w[h[z / 2]] <= w[h[j]])
  }

  function Swapped(h: seq<int>, i: nat, j: nat): seq<int>
    requires i < |h| && j < |h|
  {
    h[i := h[j]][j := h[i]]
  }

  lemma SwapKeepsEntries(h: seq<int>, n: nat, i: nat, j: nat)
    requires n < |h| && 1 <= i <= n && 1 <= j <= n
    ensures Entries(Swapped(h, i, j), n) == Entries(h, n)
  {
    var s := h[1..n + 1];
    assert Swapped(h, i, j)[1..n + 1] == s[i - 1 := s[j - 1]][j - 1 := s[i - 1]];
  }

  lemma SwapUp(w: seq<int>, h: seq<int>, n: nat, z: nat)
    requires OrderedButUp(w, h, n, z) && z >= 2 && w[h[z]] < w[h[z / 2]]
    ensures OrderedButUp(w, Swapped(h, z, z / 2), n, z / 2)
  {
    var h' := Swapped(h, z, z / 2);
    forall j | 2 <= j <= n && j != z / 2 ensures Above(w, h', j) {
      assert j != z ==> Above(w, h, j);
    }
    forall j | 2 <= j <= n && j / 2 == z / 2 && z / 2 >= 2 ensures w[h'[z / 2 / 2]] <= w[h'[j]] {
      assert Above(w, h, z / 2);
      assert j != z ==> Above(w, h, j);
    }
  }

  lemma SwapDown(w: seq<int>, h: seq<int>, n: nat, z: nat, y: nat)
    requires OrderedButDown(w, h, n, z) && 2 <= y <= n && y / 2 == z
    requires w[h[y]] <= w[h[z]] && forall j :: 2 <= j <= n && j / 2 == z ==> w[h[y]] <= w[h[j]]
    ensures OrderedButDown(w, Swapped(h, z, y), n, y)
  {
    var h' := Swapped(h, z, y);
    forall j | 2 <= j <= n && j / 2 != y ensures Above(w, h', j) {
      assert j / 2 != z ==> Above(w, h, j);
    }
    forall j | 2 <= j <= n && j / 2 == y ensures w[h'[y / 2]] <= w[h'[j]] {
      assert Above(w, h, j);
    }
  }

  /** Moves the entry at z up to its place; entry 0 is a weightless sentinel. */
  method UpHeap(heap: array<int>, weight: array<nat>, z: nat, ghost n: nat)
    requires heap as object != weight && OrderedButUp(weight[..], heap[..], n, z)
    requires heap[0] == 0 && weight.Length > 0 && weight[0] == 0
    requires forall j :: 1 <= j <= n ==> weight[heap[j]] > 0
    modifies heap
    ensures Ordered(weight[..], heap[..], n) && heap[0] == 0
    ensures Entries(heap[..], n) == old(Entries(heap[..], n))
  {
    hide Entries;
    var zz: nat, tmp := z, heap[z];
    ghost var w := weight[..];
    ghost var v := heap[..];
    while weight[tmp] < weight[heap[zz / 2]]
      invariant OrderedButUp(w, v, n, zz) && |v| == heap.Length && weight[..] == w
      invariant v == heap[..][zz := tmp] && heap[0] == 0
      invariant forall j :: 1 <= j <= n ==> w[v[j]] > 0
      invariant Entries(v, n) == old(Entries(heap[..], n))
      decreases zz
    {
      assert zz >= 2;
      SwapUp(w, v, n, zz);
      SwapKeepsEntries(v, n, zz, zz / 2);
      heap[zz] := heap[zz / 2];
      v := Swapped(v, zz, zz / 2);
      zz := zz / 2;
    }
    heap[zz] := tmp;
    assert heap[..] == v;
  }

  /** Moves the entry at z down to its place. */
  method DownHeap(heap: array<int>, weight: array<nat>, z: nat, n: nat)
    requires heap as object != weight && 1 <= z < heap.Length && (z <= n || z == 1) && OrderedButDown(weight[..], heap[..], n, z)
    requires 0 <= heap[z] < weight.Length
    modifies heap
    ensures Ordered(weight[..], heap[..], n) && heap[0] == old(heap[0])
    ensures Entries(heap[..], n) == old(Entries(heap[..], n))
  {
    hide Entries;
    var zz: nat, tmp := z, heap[z];
    ghost var w := weight[..];
    ghost var v := heap[..];
    while true
      invariant OrderedButDown(w, v, n, zz) && |v| == heap.Length && weight[..] == w
      invariant 1 <= zz < heap.Length && (zz <= n || zz == 1)
      invariant v == heap[..][zz := tmp] && heap[0] == old(heap[0])
      invariant Entries(v, n) == old(Entries(heap[..], n))
      decreases n + 1 - zz
    {
      var yy := 2 * zz;
      if yy > n { break; }
      assert heap[yy] == v[yy] && (yy < n ==> heap[yy + 1] == v[yy + 1]);
      if yy < n && weight[heap[yy + 1]] < weight[heap[yy]] { yy := yy + 1; }
      assert forall j :: 2 <= j <= n && j / 2 == zz ==> j == 2 * zz || j == 2 * zz + 1;
      if weight[tmp] < weight[heap[yy]] { break; }
      SwapDown(w, v, n, zz, yy);
      SwapKeepsEntries(v, n, zz, yy);
      heap[zz] := heap[yy];
      v := Swapped(v, zz, yy);
      zz := yy;
    }
    heap[zz] := tmp;
    assert heap[..] == v;
    forall j | 2 <= j <= n ensures Above(w, v, j) {
      if j / 2 == zz { assert j == 2 * zz || j == 2 * zz + 1; }
    }
  }

  lemma {:induction false} LightestFirst(w: seq<int>, h: seq<int>, n: nat, j: nat)
    requires Ordered(w, h, n) && 1 <= j <= n
    ensures w[h[1]] <= w[h[j]]
  {
    if j > 1 {
      assert Above(w, h, j);
      LightestFirst(w, h, n, j / 2);
    }
  }

  /** The first entry is the lightest. */
  lemma LightestEntry(w: seq<int>, h: seq<int>, n: nat)
    requires Ordered(w, h, n) && n >= 1
    ensures h[1] in Entries(h, n)
    ensures forall k :: k in Entries(h, n) ==> 0 <= k < |w| && w[h[1]] <= w[k]
  {
    assert h[1] == h[1..n + 1][0];
    forall k | k in Entries(h, n) ensures 0 <= k < |w| && w[h[1]] <= w[k] {
      var i :| 0 <= i < n && h[1..n + 1][i] == k;
      LightestFirst(w, h, n, i + 1);
    }
  }

  lemma DropFirst(h: seq<int>, n: nat)
    requires 1 <= n < |h|
    ensures Entries(h[1 := h[n]], n - 1) == Entries(h, n) - multiset{h[1]}
  {
    var s := h[1..n + 1];
    var first, last := s[0], s[n - 1];
    assert s == s[..n - 1] + [last];
    if n == 1 {
      assert h[1 := h[n]][1..1] == [];
      assert s == [h[1]];
    } else {
      assert h[1 := h[n]][1..n] == s[..n - 1][0 := last];
      assert multiset(s) == multiset(s[..n - 1]) + multiset{last};
    }
  }

  lemma ReplaceFirst(w: seq<int>, h: seq<int>, n: nat)
    requires Ordered(w, h, n) && n >= 1
    ensures OrderedButDown(w, h[1 := h[n]], n - 1, 1)
  {
    var h' := h[1 := h[n]];
    forall j | 2 <= j <= n - 1 && j / 2 != 1 ensures Above(w, h', j) {
      assert Above(w, h, j);
    }
  }

  /** Takes the lightest entry out. */
  method ExtractMin(heap: array<int>, weight: array<nat>, n: nat) returns (k: int)
    requires heap as object != weight && n >= 1 && Ordered(weight[..], heap[..], n)
    modifies heap
    ensures Ordered(weight[..], heap[..], n - 1) && heap[0] == old(heap[0])
    ensures k in old(Entries(heap[..], n)) && Entries(heap[..], n - 1) == old(Entries(heap[..], n)) - multiset{k}
    ensures 0 <= k < weight.Length
    ensures forall k' :: k' in old(Entries(heap[..], n)) ==> 0 <= k' < weight.Length && weight[k] <= weight[k']
  {
    hide Entries, Above, OrderedButDown;
    ghost var w, h := weight[..], heap[..];
    LightestEntry(w, h, n);
    DropFirst(h, n);
    ReplaceFirst(w, h, n);
    k := heap[1];
    heap[1] := heap[n];
    assert heap[..] == h[1 := h[n]];
    DownHeap(heap, weight, 1, n - 1);
  }

  /** Adds an entry. */
  method Insert(heap: array<int>, weight: array<nat>, n: nat, k: int)
    requires heap as object != weight && n + 1 < heap.Length && Ordered(weight[..], heap[..], n)
    requires heap[0] == 0 && weight.Length > 0 && weight[0] == 0 && 0 <= k < weight.Length && weight[k] > 0
    requires forall j :: 1 <= j <= n ==> weight[heap[j]] > 0
    modifies heap
    ensures Ordered(weight[..], heap[..], n + 1) && heap[0] == 0
    ensures Entries(heap[..], n + 1) == old(Entries(heap[..], n)) + multiset{k}
  {
    ghost var w, h := weight[..], heap[..];
    heap[n + 1] := k;
    ghost var h' := heap[..];
    assert h'[1..n + 2] == h[1..n + 1] + [k];
    forall j | 2 <= j <= n + 1 && j != n + 1 ensures Above(w, h', j) { assert Above(w, h, j); }
    UpHeap(heap, weight, n + 1, n + 1);
  }
}
