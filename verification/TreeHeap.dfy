/** trees.c: the heap of tree nodes ordered by frequency, then depth. */
module TreeHeap {
  import opened TreeCodes

  const SMALLEST := 1

  /** smaller: the tie between equal frequencies is broken by depth. */
  predicate Smaller(tree: seq<CtData>, depth: seq<nat>, n: nat, m: nat)
    requires n < |tree| && m < |tree| && n < |depth| && m < |depth|
  {
    tree[n].fc < tree[m].fc || (tree[n].fc == tree[m].fc && depth[n] <= depth[m])
  }

  /** Heap positions 1 to len hold nodes. */
  ghost predicate Nodes(heap: seq<nat>, len: nat, tree: seq<CtData>, depth: seq<nat>) {
    len < |heap| && |tree| <= |depth| && forall j :: 1 <= j <= len ==> heap[j] < |tree|
  }

  /** Father and son at heap position j are in order. */
  ghost predicate InOrder(heap: seq<nat>, len: nat, tree: seq<CtData>, depth: seq<nat>, j: nat)
    requires Nodes(heap, len, tree, depth)
  {
    2 <= j <= len ==> Smaller(tree, depth, heap[j / 2], heap[j])
  }

  /** Each father at position k or beyond is no greater than its sons. */
  ghost predicate HeapFrom(heap: seq<nat>, len: nat, tree: seq<CtData>, depth: seq<nat>, k: nat)
    requires Nodes(heap, len, tree, depth)
  {
    forall j :: 2 * k <= j <= len ==> InOrder(heap, len, tree, depth, j)
  }

  /** The nodes in the heap. */
  ghost function Held(heap: seq<nat>, len: nat): multiset<nat>
    requires len < |heap|
  {
    multiset(heap[1..len + 1])
  }

  lemma SwapHeld(heap: seq<nat>, len: nat, k: nat, j: nat, v: nat)
    requires 1 <= k <= len < |heap| && 1 <= j <= len && k != j
    ensures Held(heap[k := heap[j]][j := v], len) == Held(heap[k := v], len)
  {
    var s := heap[1..len + 1];
    assert heap[k := heap[j]][j := v][1..len + 1] == s[k - 1 := s[j - 1]][j - 1 := v];
    assert heap[k := v][1..len + 1] == s[k - 1 := v];
  }

  /** Order everywhere at or beyond k0, except that the node in the hole at k may be
      greater than the sons there, whom the hole's father precedes. */
  ghost predicate HeapButHole(h: seq<nat>, len: nat, tree: seq<CtData>, depth: seq<nat>, k0: nat, k: nat)
    requires Nodes(h, len, tree, depth)
  {
    (forall j :: 2 * k0 <= j <= len && j / 2 != k ==> InOrder(h, len, tree, depth, j)) &&
    (k > k0 ==> 1 <= k / 2 && (2 * k <= len ==> Smaller(tree, depth, h[k / 2], h[2 * k]))
                && (2 * k + 1 <= len ==> Smaller(tree, depth, h[k / 2], h[2 * k + 1])))
  }

  /** One exchange with the smallest son j of the hole k. */
  lemma HoleDown(h: seq<nat>, h': seq<nat>, len: nat, tree: seq<CtData>, depth: seq<nat>, k0: nat, k: nat, j: nat)
    requires Nodes(h, len, tree, depth) && 1 <= k0 <= k && j / 2 == k && 2 <= j <= len
    requires HeapButHole(h, len, tree, depth, k0, k)
    requires Smaller(tree, depth, h[j], h[k])
    requires forall i :: i / 2 == k && 2 <= i <= len ==> Smaller(tree, depth, h[j], h[i])
    requires h' == h[k := h[j]][j := h[k]]
    ensures Nodes(h', len, tree, depth) && HeapButHole(h', len, tree, depth, k0, j)
  {
    forall i | 2 * k0 <= i <= len && i / 2 != j
      ensures InOrder(h', len, tree, depth, i)
    {
      assert InOrder(h, len, tree, depth, i) || i / 2 == k;
    }
    assert 2 * j <= len ==> InOrder(h, len, tree, depth, 2 * j);
    assert 2 * j + 1 <= len ==> InOrder(h, len, tree, depth, 2 * j + 1);
  }

  /** pqdownheap: move the node at k down to where it belongs. */
  method PqDownHeap(heap: array<nat>, len: nat, tree: array<CtData>, depth: array<nat>, k0: nat)
    requires tree.Length <= depth.Length && heap != depth && 1 <= k0 <= len
    requires Nodes(heap[..], len, tree[..], depth[..]) && HeapFrom(heap[..], len, tree[..], depth[..], k0 + 1)
    modifies heap
    ensures Nodes(heap[..], len, tree[..], depth[..]) && HeapFrom(heap[..], len, tree[..], depth[..], k0)
    ensures Held(heap[..], len) == old(Held(heap[..], len))
    ensures forall j :: 0 <= j < heap.Length && (j < k0 || j > len) ==> heap[j] == old(heap[j])
  {
    hide Held, Smaller;
    var k := k0;
    var v := heap[k];
    var j := k * 2;
    ghost var h := heap[..];
    HoleStart(h, len, tree[..], depth[..], k0);
    while j <= len
      invariant k0 <= k <= len && j == 2 * k
      invariant h == heap[..][k := v] && |h| == heap.Length
      invariant Nodes(h, len, tree[..], depth[..]) && HeapButHole(h, len, tree[..], depth[..], k0, k)
      invariant Held(h, len) == old(Held(heap[..], len))
      invariant forall i :: 0 <= i < heap.Length && (i < k0 || i > len) ==> heap[i] == old(heap[i])
      decreases len - k
    {
      assert heap[j] == h[j] && h[j] < tree.Length;
      assert j + 1 <= len ==> heap[j + 1] == h[j + 1] && h[j + 1] < tree.Length;
      assert h[k] == v;
      if j < len && Smaller(tree[..], depth[..], heap[j + 1], heap[j]) {
        j := j + 1;
      }
      SmallestSon(h, len, tree[..], depth[..], k, j);
      if Smaller(tree[..], depth[..], v, heap[j]) {
        HoleFits(h, len, tree[..], depth[..], k0, k, j);
        break;
      }
      NotSmaller(tree[..], depth[..], v, heap[j]);
      ghost var was := heap[..];
      heap[k] := heap[j];
      SwapHeld(was, len, k, j, v);
      HoleDown(h, was[k := was[j]][j := v], len, tree[..], depth[..], k0, k, j);
      h := was[k := was[j]][j := v];
      k := j;
      j := j * 2;
    }
    if j > len { HoleLeaf(h, len, tree[..], depth[..], k0, k); }
    heap[k] := v;
    assert heap[..] == h;
  }

  lemma HoleStart(h: seq<nat>, len: nat, tree: seq<CtData>, depth: seq<nat>, k0: nat)
    requires Nodes(h, len, tree, depth) && HeapFrom(h, len, tree, depth, k0 + 1)
    ensures HeapButHole(h, len, tree, depth, k0, k0)
  {
  }

  lemma HoleLeaf(h: seq<nat>, len: nat, tree: seq<CtData>, depth: seq<nat>, k0: nat, k: nat)
    requires Nodes(h, len, tree, depth) && HeapButHole(h, len, tree, depth, k0, k) && 2 * k > len
    ensures HeapFrom(h, len, tree, depth, k0)
  {
  }

  lemma HoleFits(h: seq<nat>, len: nat, tree: seq<CtData>, depth: seq<nat>, k0: nat, k: nat, j: nat)
    requires Nodes(h, len, tree, depth) && HeapButHole(h, len, tree, depth, k0, k)
    requires 1 <= k <= len && j / 2 == k && 2 <= j <= len && Smaller(tree, depth, h[k], h[j])
    requires forall i :: i / 2 == k && 2 <= i <= len ==> Smaller(tree, depth, h[j], h[i])
    ensures HeapFrom(h, len, tree, depth, k0)
  {
  }

  lemma NotSmaller(tree: seq<CtData>, depth: seq<nat>, n: nat, m: nat)
    requires n < |tree| && m < |tree| && |tree| <= |depth|
    ensures !Smaller(tree, depth, n, m) ==> Smaller(tree, depth, m, n)
    ensures Smaller(tree, depth, n, n)
  {
  }

  lemma SmallestSon(h: seq<nat>, len: nat, tree: seq<CtData>, depth: seq<nat>, k: nat, j: nat)
    requires Nodes(h, len, tree, depth) && 1 <= k && 2 * k <= len && 2 * k <= j <= 2 * k + 1 && j <= len
    requires if j == 2 * k then j < len ==> !Smaller(tree, depth, h[j + 1], h[j])
      else Smaller(tree, depth, h[j], h[j - 1])
    ensures forall i :: i / 2 == k && 2 <= i <= len ==> Smaller(tree, depth, h[j], h[i])
  {
  }

  /** The first node of a heap is no greater than any other. */
  lemma {:induction false} RootSmallest(heap: seq<nat>, len: nat, tree: seq<CtData>, depth: seq<nat>, j: nat)
    requires Nodes(heap, len, tree, depth) && HeapFrom(heap, len, tree, depth, 1) && 1 <= j <= len
    ensures Smaller(tree, depth, heap[1], heap[j])
  {
    if j > 1 {
      RootSmallest(heap, len, tree, depth, j / 2);
      assert InOrder(heap, len, tree, depth, j);
    }
  }
}
