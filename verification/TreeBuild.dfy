/** trees.c: build_tree, from symbol frequencies to code lengths and codes. */
module TreeBuild {
  import opened Bits
  import opened Canonical
  import opened Sums
  import opened Huffman
  import opened KraftSums
  import opened TreeDepths
  import opened TreeCodes
  import opened TreeHeap
  import opened BitLengths

  ghost function Freqs(tree: seq<CtData>): (r: seq<nat>)
    ensures |r| == |tree| && forall x :: 0 <= x < |r| ==> r[x] == tree[x].fc
  {
    seq(|tree|, x requires 0 <= x < |tree| => tree[x].fc)
  }

  /** The heap is in order and holds exactly the nodes in act. */
  ghost predicate Holds(heap: seq<nat>, len: nat, tree: seq<CtData>, depth: seq<nat>, act: set<nat>) {
    Nodes(heap, len, tree, depth) && HeapFrom(heap, len, tree, depth, 1) && Held(heap, len) == multiset(act)
    && |act| == len
  }

  /** smaller, for any numbers. */
  ghost predicate Precedes(tree: seq<CtData>, depth: seq<nat>, n: nat, m: nat) {
    n < |tree| && m < |tree| && |tree| <= |depth| && Smaller(tree, depth, n, m)
  }

  lemma HeldAt(heap: seq<nat>, len: nat, act: set<nat>, x: nat) returns (j: nat)
    requires len < |heap| && Held(heap, len) == multiset(act) && x in act
    ensures 1 <= j <= len && heap[j] == x
  {
    var s := heap[1..len + 1];
    assert x in multiset(s);
    assert x in s;
    var i :| 0 <= i < |s| && s[i] == x;
    j := i + 1;
  }

  lemma HeldIn(heap: seq<nat>, len: nat, act: set<nat>, j: nat)
    requires len < |heap| && Held(heap, len) == multiset(act) && 1 <= j <= len
    ensures heap[j] in act
  {
    var s := heap[1..len + 1];
    assert s[j - 1] in multiset(s);
  }

  /** The node at the top is a least frequent one, and one of least depth among these. */
  lemma TopLeast(heap: seq<nat>, len: nat, tree: seq<CtData>, depth: seq<nat>, act: set<nat>)
    requires len >= 1 && Holds(heap, len, tree, depth, act)
    ensures heap[1] in act && forall x :: x in act ==> Precedes(tree, depth, heap[1], x)
  {
    hide Held;
    HeldIn(heap, len, act, 1);
    forall x | x in act ensures Precedes(tree, depth, heap[1], x) {
      var j := HeldAt(heap, len, act, x);
      RootSmallest(heap, len, tree, depth, j);
    }
  }

  lemma HeldLess(heap: seq<nat>, len: nat, act: set<nat>)
    requires 1 <= len < |heap| && Held(heap, len) == multiset(act)
    ensures Held(heap[1 := heap[len]], len - 1) == multiset(act - {heap[1]})
  {
    HeldIn(heap, len, act, 1);
    var s := heap[1..len + 1];
    var u := heap[1 := heap[len]][1..len];
    if len == 1 {
      assert u == [] && s == [heap[1]];
    } else {
      assert s == [heap[1]] + heap[2..len] + [heap[len]];
      assert u == [heap[len]] + heap[2..len];
    }
    assert multiset(s) == multiset(u) + multiset{heap[1]};
    assert multiset(act - {heap[1]}) == multiset(act) - multiset{heap[1]};
  }

  lemma HeldReplaced(heap: seq<nat>, len: nat, act: set<nat>, c: nat)
    requires 1 <= len < |heap| && Held(heap, len) == multiset(act) && c !in act
    ensures Held(heap[1 := c], len) == multiset(act - {heap[1]} + {c})
  {
    HeldIn(heap, len, act, 1);
    var s := heap[1..len + 1];
    assert heap[1 := c][1..len + 1] == s[0 := c];
  }

  /** pqremove: take the least frequent node off the heap. */
  method PqRemove(b: Builder, tree: array<CtData>, ghost act: set<nat>) returns (top: nat)
    requires b.Valid() && tree.Length <= HEAP_SIZE && b.heapLen >= 2
    requires Holds(b.heap[..], b.heapLen, tree[..], b.depth[..], act)
    modifies b`heapLen, b.heap
    ensures b.heapLen == old(b.heapLen) - 1 && top in act && top < tree.Length
    ensures Holds(b.heap[..], b.heapLen, tree[..], b.depth[..], act - {top})
    ensures forall x :: x in act ==> Precedes(tree[..], b.depth[..], top, x)
    ensures forall j :: old(b.heapLen) < j < HEAP_SIZE ==> b.heap[j] == old(b.heap[j])
  {
    hide Held, Smaller;
    TopLeast(b.heap[..], b.heapLen, tree[..], b.depth[..], act);
    top := b.heap[SMALLEST];
    ghost var was := b.heap[..];
    HeldLess(was, b.heapLen, act);
    b.heap[SMALLEST] := b.heap[b.heapLen];
    b.heapLen := b.heapLen - 1;
    assert b.heap[..] == was[1 := was[b.heapLen + 1]];
    StillHeap(was, b.heap[..], b.heapLen, tree[..], b.depth[..]);
    PqDownHeap(b.heap, b.heapLen, tree, b.depth, SMALLEST);
  }

  lemma StillHeap(was: seq<nat>, heap: seq<nat>, len: nat, tree: seq<CtData>, depth: seq<nat>)
    requires len >= 1 && Nodes(was, len + 1, tree, depth) && HeapFrom(was, len + 1, tree, depth, 1)
    requires |heap| == |was| && heap == was[1 := heap[1]] && heap[1] < |tree|
    ensures Nodes(heap, len, tree, depth) && HeapFrom(heap, len, tree, depth, 2)
  {
    forall j | 4 <= j <= len ensures Nodes(heap, len, tree, depth) && InOrder(heap, len, tree, depth, j) {
      assert InOrder(was, len + 1, tree, depth, j);
    }
  }

  /** After some merges: the heap holds what is left, the rest is stacked above it in
      order of removal, and every removed node knows its father. */
  ghost predicate Built(b: Builder, tree: seq<CtData>, g: Merges, node: nat)
    reads b, b.heap, b.depth
  {
    && b.Valid() && |tree| <= HEAP_SIZE && 2 * g.elems <= |tree| && 1 <= g.elems <= L_CODES
    && Merging(g) && node == g.elems + |g.acts| - 1 && |g.removed| == 2 * |g.acts| - 2
    && g.freq == Freqs(tree) && b.heapLen >= 1 && b.heapLen + |g.acts| - 1 <= g.elems
    && Holds(b.heap[..], b.heapLen, tree, b.depth[..], g.acts[|g.acts| - 1])
    && Stacked(b.heap[..], b.heapMax, g.removed) && Fathered(tree, g) && Levelled(g, b.depth[..])
  }

  ghost predicate Fathered(tree: seq<CtData>, g: Merges) {
    forall t :: 0 <= t < |g.removed| ==> g.removed[t] < |tree| && tree[g.removed[t]].dl == g.elems + t / 2
  }

  /** The top of the heap replaced by a new node, ready to be moved down. */
  lemma NewTop(h: seq<nat>, h': seq<nat>, len: nat, tree: seq<CtData>, tree': seq<CtData>, depth: seq<nat>,
               depth': seq<nat>, act: set<nat>, c: nat)
    requires len >= 1 && Holds(h, len, tree, depth, act) && c !in act && |h'| == |h| && h'[1] == c < |tree'| == |tree|
    requires |depth'| == |depth| && forall j :: 2 <= j <= len ==> h'[j] == h[j]
    requires forall x :: x in act && x < |tree| ==> tree'[x].fc == tree[x].fc && depth'[x] == depth[x]
    ensures Nodes(h', len, tree', depth') && HeapFrom(h', len, tree', depth', 2)
    ensures Held(h', len) == multiset(act - {h[1]} + {c}) && |act - {h[1]} + {c}| == len
  {
    hide Smaller;
    HeldReplaced(h, len, act, c);
    assert h'[1..len + 1] == h[1 := c][1..len + 1];
    HeldIn(h, len, act, 1);
    forall j | 4 <= j <= len ensures Nodes(h', len, tree', depth') && InOrder(h', len, tree', depth', j) {
      HeldIn(h, len, act, j);
      HeldIn(h, len, act, j / 2);
      assert InOrder(h, len, tree, depth, j);
      SameSmaller(tree, tree', depth, depth', h[j / 2], h[j]);
    }
  }

  lemma SameSmaller(tree: seq<CtData>, tree': seq<CtData>, depth: seq<nat>, depth': seq<nat>, n: nat, m: nat)
    requires n < |tree| == |tree'| && m < |tree| <= |depth| == |depth'|
    requires tree'[n].fc == tree[n].fc && depth'[n] == depth[n] && tree'[m].fc == tree[m].fc && depth'[m] == depth[m]
    ensures Smaller(tree', depth', n, m) == Smaller(tree, depth, n, m)
  {
  }

  lemma StackedMore(heap: seq<nat>, heap': seq<nat>, heapMax: nat, removed: seq<nat>, n: nat, m: nat)
    requires Stacked(heap, heapMax, removed) && heapMax >= 2 && |heap'| == |heap|
    requires heap'[heapMax - 1] == n && heap'[heapMax - 2] == m
    requires forall j :: heapMax <= j < HEAP_SIZE ==> heap'[j] == heap[j]
    ensures Stacked(heap', heapMax - 2, removed + [n, m])
  {
  }

  lemma FatheredMore(tree: seq<CtData>, tree': seq<CtData>, g: Merges, n: nat, m: nat, node: nat)
    requires Merging(g) && Fathered(tree, g) && node == g.elems + |g.acts| - 1 < |tree| == |tree'|
    requires n in g.acts[|g.acts| - 1] && m in g.acts[|g.acts| - 1] && n < |tree| && m < |tree|
    requires tree'[n].dl == node && tree'[m].dl == node
    requires forall x :: 0 <= x < |tree| && x != n && x != m ==> tree'[x].dl == tree[x].dl
    ensures Fathered(tree', g.(removed := g.removed + [n, m]))
  {
    hide OneMerge;
  }

  lemma HoldsSame(h: seq<nat>, h': seq<nat>, len: nat, tree: seq<CtData>, depth: seq<nat>, act: set<nat>)
    requires Holds(h, len, tree, depth, act) && |h'| == |h| && forall j :: 1 <= j <= len ==> h'[j] == h[j]
    ensures Holds(h', len, tree, depth, act)
  {
    assert h'[1..len + 1] == h[1..len + 1];
    forall j | 2 <= j <= len ensures Nodes(h', len, tree, depth) && InOrder(h', len, tree, depth, j) {
      assert InOrder(h, len, tree, depth, j);
    }
  }

  lemma BothLeast(act: set<nat>, n: nat, m: nat, tree: seq<CtData>, depth: seq<nat>)
    requires n in act && m in act - {n}
    requires forall x :: x in act ==> Precedes(tree, depth, n, x)
    requires forall x :: x in act - {n} ==> Precedes(tree, depth, m, x)
    ensures Least(act, n, m, Freqs(tree)) && FirstTwo(act, n, m, Freqs(tree), depth)
  {
    assert Precedes(tree, depth, n, m);
    forall x | x in act && x != n
      ensures x < |tree| && Freqs(tree)[m] <= Freqs(tree)[x] && Earlier(Freqs(tree), depth, m, x)
    {
      assert x in act - {n} && Precedes(tree, depth, m, x);
    }
    assert Precedes(tree, depth, n, n);
  }

  /** Take the two least frequent nodes out, the second one staying at the top for now. */
  method TakeTwo(b: Builder, tree: array<CtData>, ghost act: set<nat>, ghost removed: seq<nat>) returns (n: nat, m: nat)
    requires b.Valid() && tree.Length <= HEAP_SIZE && b.heapLen >= 2 && b.heapLen + 2 < b.heapMax
    requires Holds(b.heap[..], b.heapLen, tree[..], b.depth[..], act) && Stacked(b.heap[..], b.heapMax, removed)
    modifies b`heapLen, b`heapMax, b.heap
    ensures b.heapLen == old(b.heapLen) - 1 && b.heapMax == old(b.heapMax) - 2
    ensures n < tree.Length && m < tree.Length && Least(act, n, m, Freqs(tree[..]))
    ensures FirstTwo(act, n, m, Freqs(tree[..]), b.depth[..])
    ensures Holds(b.heap[..], b.heapLen, tree[..], b.depth[..], act - {n}) && b.heap[1] == m
    ensures Stacked(b.heap[..], b.heapMax, removed + [n, m])
  {
    hide Held, Smaller, Stacked, Holds, Nodes, HeapFrom, Least, Freqs, Precedes, FirstTwo;
    ghost var h0 := b.heap[..];
    n := PqRemove(b, tree, act);
    ghost var h1 := b.heap[..];
    TopLeast(h1, b.heapLen, tree[..], b.depth[..], act - {n});
    m := b.heap[SMALLEST];
    BothLeast(act, n, m, tree[..], b.depth[..]);
    HeapMaxIs(h0, b.heapMax, removed);
    b.heapMax := b.heapMax - 1;
    b.heap[b.heapMax] := n;
    b.heapMax := b.heapMax - 1;
    b.heap[b.heapMax] := m;
    HoldsSame(h1, b.heap[..], b.heapLen, tree[..], b.depth[..], act - {n});
    StackedMore(h0, b.heap[..], b.heapMax + 2, removed, n, m);
  }

  /** Their father takes the place of the second at the top and sinks. */
  method InsertFather(b: Builder, tree: array<CtData>, node: nat, n: nat, m: nat, ghost act: set<nat>,
                      ghost removed: seq<nat>)
    requires b.Valid() && tree.Length <= HEAP_SIZE && 1 <= b.heapLen < b.heapMax && node < tree.Length
    requires Holds(b.heap[..], b.heapLen, tree[..], b.depth[..], act) && b.heap[1] == m
    requires n < tree.Length && m < tree.Length && n != m && n != node && m != node && node !in act
    requires Stacked(b.heap[..], b.heapMax, removed)
    modifies b.heap, b.depth, tree
    ensures Holds(b.heap[..], b.heapLen, tree[..], b.depth[..], act - {m} + {node})
    ensures Stacked(b.heap[..], b.heapMax, removed)
    ensures tree[..] == old(tree[..])[node := old(tree[node]).(fc := old(tree[n].fc
      + tree[m].fc))][n := old(tree[n]).(dl := node)][m := old(tree[m]).(dl := node)]
    ensures b.depth[..] == old(b.depth[..])[node := Above(old(b.depth[n]), old(b.depth[m]))]
  {
    hide Held, Smaller, Stacked, Holds, Nodes, HeapFrom, Above;
    HeapMaxIs(b.heap[..], b.heapMax, removed);
    ghost var h, t, d := b.heap[..], tree[..], b.depth[..];
    LinkFather(b, tree, node, n, m);
    NewTop(h, b.heap[..], b.heapLen, t, tree[..], d, b.depth[..], act, node);
    PqDownHeap(b.heap, b.heapLen, tree, b.depth, SMALLEST);
    HoldsNow(b.heap[..], b.heapLen, tree[..], b.depth[..], act - {m} + {node});
    StackedSame(h, b.heap[..], b.heapMax, removed);
  }

  /** The father's frequency and depth; its sons know it, and it is at the top. */
  method LinkFather(b: Builder, tree: array<CtData>, node: nat, n: nat, m: nat)
    requires b.Valid() && tree.Length <= HEAP_SIZE && node < tree.Length && n < tree.Length && m < tree.Length
    requires n != m && n != node && m != node
    modifies b.heap, b.depth, tree
    ensures b.heap[..] == old(b.heap[..])[SMALLEST := node]
    ensures b.depth[..] == old(b.depth[..])[node := Above(old(b.depth[n]), old(b.depth[m]))]
    ensures tree[..] == old(tree[..])[node := old(tree[node]).(fc := old(tree[n].fc
      + tree[m].fc))][n := old(tree[n]).(dl := node)][m := old(tree[m]).(dl := node)]
  {
    hide Above;
    tree[node] := tree[node].(fc := tree[n].fc + tree[m].fc);
    b.depth[node] := Above(b.depth[n], b.depth[m]);
    tree[n] := tree[n].(dl := node);
    tree[m] := tree[m].(dl := node);
    b.heap[SMALLEST] := node;
  }

  lemma StackedSame(heap: seq<nat>, heap': seq<nat>, heapMax: nat, removed: seq<nat>)
    requires Stacked(heap, heapMax, removed) && |heap'| == |heap| && forall j :: heapMax <= j < HEAP_SIZE ==>
      heap'[j] == heap[j]
    ensures Stacked(heap', heapMax, removed)
  {
  }

  lemma MergedTree(t: seq<CtData>, u: seq<CtData>, g: Merges, node: nat, n: nat, m: nat)
    requires Merging(g) && Fathered(t, g) && node == g.elems + |g.acts| - 1 < |t| && g.freq == Freqs(t)
    requires n < |t| && m < |t| && n != m && n in g.acts[|g.acts| - 1] && m in g.acts[|g.acts| - 1]
    requires u == t[node := t[node].(fc := t[n].fc + t[m].fc)][n := t[n].(dl := node)][m := t[m].(dl := node)]
    requires n != node && m != node
    ensures After(g, n, m).freq == Freqs(u) && Fathered(u, After(g, n, m))
  {
    hide Merging;
    assert g.freq[node := g.freq[n] + g.freq[m]] == Freqs(u);
    FatheredMore(t, u[node := t[node]], g, n, m, node);
    FatheredFreq(u[node := t[node]], u, g.(removed := g.removed + [n, m]), node);
  }

  lemma FatheredFreq(t: seq<CtData>, u: seq<CtData>, g: Merges, node: nat)
    requires Fathered(t, g) && |u| == |t| && node < |t| && (forall x :: 0 <= x < |t| ==> u[x].dl == t[x].dl)
    ensures Fathered(u, g)
  {
  }

  /** Combine the two least frequent nodes into a new one. */
  method MergeOnce(b: Builder, tree: array<CtData>, node: nat, ghost g: Merges) returns (ghost g': Merges)
    requires Built(b, tree[..], g, node) && b.heapLen >= 2
    modifies b`heapLen, b`heapMax, b.heap, b.depth, tree
    ensures Built(b, tree[..], g', node + 1) && b.heapLen == old(b.heapLen) - 1
    ensures g'.elems == g.elems && |g'.acts| == |g.acts| + 1 && g'.acts[..|g.acts|] == g.acts
    ensures forall x :: 0 <= x < tree.Length && x != node ==> tree[x].fc == old(tree[x].fc)
    ensures forall x :: 0 <= x < tree.Length && x != node && x !in g.acts[|g.acts| - 1] ==> tree[x] == old(tree[x])
  {
    hide Held, Smaller, Merging, Stacked, Fathered, Holds, Nodes, HeapFrom, Least, Freqs, Levelled, FirstTwo, Above;
    ghost var act := g.acts[|g.acts| - 1];
    ActFacts(g, node);
    HeapMaxIs(b.heap[..], b.heapMax, g.removed);
    var n, m := TakeTwo(b, tree, act, g.removed);
    LeastIn(act, n, m, Freqs(tree[..]));
    MergingStep(g, n, m);
    g' := After(g, n, m);
    ghost var t, h := tree[..], b.depth[..];
    InsertFather(b, tree, node, n, m, act - {n}, g.removed + [n, m]);
    MergedTree(t, tree[..], g, node, n, m);
    LevelledMore(g, h, n, m, b.depth[..]);
    assert act - {n} - {m} + {node} == act - {n, m} + {node};
  }

  lemma LeastIn(act: set<nat>, n: nat, m: nat, freq: seq<nat>)
    requires Least(act, n, m, freq)
    ensures n in act && m in act && n != m
  {
  }

  lemma ActFacts(g: Merges, node: nat)
    requires Merging(g) && node == g.elems + |g.acts| - 1
    ensures node !in g.acts[|g.acts| - 1]
  {
    hide OneMerge;
    LastBelow(g);
  }

  lemma HeapMaxIs(heap: seq<nat>, heapMax: nat, removed: seq<nat>)
    requires Stacked(heap, heapMax, removed)
    ensures heapMax == HEAP_SIZE - |removed|
  {
  }

  lemma HoldsNow(h: seq<nat>, len: nat, tree: seq<CtData>, depth: seq<nat>, act: set<nat>)
    requires Nodes(h, len, tree, depth) && HeapFrom(h, len, tree, depth, 1) && Held(h, len) == multiset(act)
    requires |act| == len
    ensures Holds(h, len, tree, depth, act)
  {
  }

  // ------------------------------------------------------- the initial heap

  /** Symbols that occur. */
  ghost function Occurring(freq: seq<nat>, n: nat): set<nat> {
    set x | 0 <= x < n && x < |freq| && freq[x] != 0
  }

  lemma OccurringStep(freq: seq<nat>, n: nat)
    requires n < |freq|
    ensures n !in Occurring(freq, n)
    ensures Occurring(freq, n + 1) == if freq[n] != 0 then Occurring(freq, n) + {n} else Occurring(freq, n)
    ensures Occurring(freq, 0) == {}
  {
  }

  lemma HeldMore(heap: seq<nat>, len: nat, act: set<nat>, x: nat)
    requires len + 1 < |heap| && Held(heap, len) == multiset(act) && x !in act
    ensures Held(heap[len + 1 := x], len + 1) == multiset(act + {x})
  {
    var h := heap[len + 1 := x];
    assert h[1..len + 2] == heap[1..len + 1] + [x];
  }

  /** maxCode is the largest symbol in a, -1 if there is none. */
  ghost predicate IsMax(maxCode: int, a: set<nat>) {
    -1 <= maxCode && (maxCode >= 0 ==> maxCode in a) && forall x :: x in a ==> x <= maxCode
  }

  /** The symbols that occur, as an unordered heap; the others get length zero. */
  method CollectSymbols(b: Builder, tree: array<CtData>, elems: nat) returns (maxCode: int)
    requires b.Valid() && elems <= tree.Length <= HEAP_SIZE && elems <= L_CODES
    modifies b`heapLen, b`heapMax, b.heap, b.depth, tree
    ensures b.heapMax == HEAP_SIZE && b.heapLen == |Occurring(Freqs(tree[..]), elems)| <= elems
    ensures Held(b.heap[..], b.heapLen) == multiset(Occurring(Freqs(tree[..]), elems))
    ensures IsMax(maxCode, Occurring(Freqs(tree[..]), elems)) && maxCode < elems
    ensures Freqs(tree[..]) == Freqs(old(tree[..]))
    ensures forall x :: 0 <= x < elems && tree[x].fc == 0 ==> tree[x].dl == 0
    ensures Flat(Occurring(Freqs(tree[..]), elems), b.depth[..])
  {
    hide Held, Occurring, Flat;
    b.heapLen, b.heapMax := 0, HEAP_SIZE;
    maxCode := -1;
    ghost var freq := Freqs(tree[..]);
    NothingHeld(b.heap[..]);
    NoneOccur(freq);
    for n := 0 to elems
      invariant b.heapMax == HEAP_SIZE && b.heapLen == |Occurring(freq, n)| <= n
      invariant Held(b.heap[..], b.heapLen) == multiset(Occurring(freq, n))
      invariant IsMax(maxCode, Occurring(freq, n)) && maxCode < n
      invariant Freqs(tree[..]) == freq
      invariant forall x :: 0 <= x < n && tree[x].fc == 0 ==> tree[x].dl == 0
      invariant Flat(Occurring(freq, n), b.depth[..])
    {
      OccurringStep(freq, n);
      assert freq[n] == tree[n].fc;
      ghost var was, h := b.heap[..], b.depth[..];
      if tree[n].fc != 0 {
        FlatMore(Occurring(freq, n), n, h);
        HeldMore(was, b.heapLen, Occurring(freq, n), n);
        b.heapLen := b.heapLen + 1;
        b.heap[b.heapLen] := n;
        maxCode := n;
        b.depth[n] := 0;
        assert b.depth[..] == h[n := 0];
        assert b.heap[..] == was[b.heapLen := n];
      } else {
        tree[n] := tree[n].(dl := 0);
      }
    }
  }

  lemma NothingHeld(heap: seq<nat>)
    requires |heap| > 0
    ensures Held(heap, 0) == multiset({})
  {
  }

  lemma NoneOccur(freq: seq<nat>)
    ensures Occurring(freq, 0) == {} && IsMax(-1, {}) && forall h :: Flat({}, h)
  {
  }

  /** What forcing two codes has added to the symbols used. */
  ghost predicate Forced(used: set<nat>, act: set<nat>, was: seq<nat>, freq: seq<nat>, elems: nat) {
    && |was| == |freq| && elems <= |freq| && used <= act && act == Occurring(freq, elems)
    && used == Occurring(was, elems)
    && (forall x :: 0 <= x < |freq| && x !in act - used ==> freq[x] == was[x])
    && (forall x :: x in act - used ==> x < 3 && freq[x] == 1)
    && (act != used ==> |act| <= 2)
  }

  ghost function Ones(n: nat): seq<nat> { seq(n, _ => 1) }

  /** Two codes of nonzero frequency at least, so that each has a bit at least. */
  method ForceTwo(b: Builder, tree: array<CtData>, desc: StaticDesc, maxCode0: int)
    returns (maxCode: nat, ghost act: set<nat>)
    requires b.Valid() && DescOk(desc) && desc.elems <= tree.Length <= HEAP_SIZE
    requires var used := Occurring(Freqs(tree[..]), desc.elems);
      b.heapLen == |used| <= desc.elems && Held(b.heap[..], b.heapLen) == multiset(used) && IsMax(maxCode0, used)
      && maxCode0 < desc.elems && Flat(used, b.depth[..])
    modifies b`heapLen, b`optLen, b`staticLen, b.heap, b.depth, tree
    ensures 2 <= b.heapLen == |act| <= desc.elems && Held(b.heap[..], b.heapLen) == multiset(act)
    ensures IsMax(maxCode, act) && maxCode < desc.elems
    ensures Forced(Occurring(Freqs(old(tree[..])), desc.elems), act, Freqs(old(tree[..])), Freqs(tree[..]), desc.elems)
    ensures forall x :: 0 <= x < tree.Length ==> tree[x].dl == old(tree[x].dl)
    ensures Flat(act, b.depth[..])
    ensures var forced := act - Occurring(Freqs(old(tree[..])), desc.elems);
      b.optLen == old(b.optLen) - |forced| &&
      b.staticLen == old(b.staticLen) - Sum(forced, StatCosts(desc, Ones(tree.Length)))
  {
    hide Held, Sum, Occurring, StatCosts, Forced, IsMax, Flat;
    var max := maxCode0;
    ghost var was := Freqs(tree[..]);
    ghost var used := Occurring(was, desc.elems);
    act := used;
    NoneForced(was, used, desc);
    while b.heapLen < 2
      invariant b.heapLen == |act| <= desc.elems && Held(b.heap[..], b.heapLen) == multiset(act) && IsMax(max, act)
      invariant max < desc.elems && Flat(act, b.depth[..])
      invariant Forced(used, act, was, Freqs(tree[..]), desc.elems)
      invariant forall x :: 0 <= x < tree.Length ==> tree[x].dl == old(tree[x].dl)
      invariant b.optLen == old(b.optLen) - |act - used|
      invariant b.staticLen == old(b.staticLen) - Sum(act - used, StatCosts(desc, Ones(tree.Length)))
      decreases 2 - b.heapLen
    {
      max, act := ForceOne(b, tree, desc, max, used, act, was);
    }
    MaxExists(max, act);
    maxCode := max;
  }

  lemma MaxExists(max: int, act: set<nat>)
    requires IsMax(max, act) && |act| >= 1
    ensures max >= 0
  {
    var x :| x in act;
  }

  lemma NoneForced(was: seq<nat>, used: set<nat>, desc: StaticDesc)
    requires used == Occurring(was, desc.elems) && desc.elems <= |was|
    ensures used - used == {} && Forced(used, used, was, was, desc.elems)
    ensures Sum(used - used, StatCosts(desc, Ones(|was|))) == 0
  {
    assert used - used == {};
  }

  /** A symbol not in use yet, given frequency one. */
  method ForceOne(b: Builder, tree: array<CtData>, desc: StaticDesc, max0: int, ghost used: set<nat>,
                  ghost act: set<nat>, ghost was: seq<nat>)
    returns (max: int, ghost act': set<nat>)
    requires b.Valid() && DescOk(desc) && desc.elems <= tree.Length <= HEAP_SIZE && b.heapLen < 2
    requires b.heapLen == |act| && Held(b.heap[..], b.heapLen) == multiset(act) && IsMax(max0, act) && max0 < desc.elems
    requires Forced(used, act, was, Freqs(tree[..]), desc.elems) && Flat(act, b.depth[..])
    modifies b`heapLen, b`optLen, b`staticLen, b.heap, b.depth, tree
    ensures b.heapLen == old(b.heapLen) + 1 == |act'| <= desc.elems && Held(b.heap[..], b.heapLen) == multiset(act')
    ensures IsMax(max, act') && max < desc.elems && Forced(used, act', was, Freqs(tree[..]), desc.elems)
    ensures forall x :: 0 <= x < tree.Length ==> tree[x].dl == old(tree[x].dl)
    ensures Flat(act', b.depth[..])
    ensures b.optLen - old(b.optLen) == |act - used| - |act' - used|
    ensures b.staticLen - old(b.staticLen)
      == Sum(act - used, StatCosts(desc, Ones(tree.Length))) - Sum(act' - used, StatCosts(desc, Ones(tree.Length)))
  {
    hide Held, Sum, Occurring, StatCosts, Forced, ExtraOf, DescOk, Flat;
    DescFacts(desc);
    var node: nat;
    max := max0;
    if max < 2 {
      max := max + 1;
      node := max;
    } else {
      Alone(act, max);
      node := 0;
    }
    ghost var t := Freqs(tree[..]);
    FlatMore(act, node, b.depth[..]);
    PushNode(b, tree, node, act);
    b.optLen := b.optLen - 1;
    if desc.stree != [] { b.staticLen := b.staticLen - desc.stree[node]; }
    act' := act + {node};
    ForcedMore(used, act, was, t, desc.elems, node);
    ForcedCosts(desc, tree.Length, used, act, node);
  }

  method PushNode(b: Builder, tree: array<CtData>, node: nat, ghost act: set<nat>)
    requires b.Valid() && node < tree.Length <= HEAP_SIZE && b.heapLen + 1 < HEAP_SIZE && node !in act
    requires b.heapLen == |act| && Held(b.heap[..], b.heapLen) == multiset(act)
    modifies b`heapLen, b.heap, b.depth, tree
    ensures b.heapLen == old(b.heapLen) + 1 == |act + {node}| && Held(b.heap[..], b.heapLen) == multiset(act + {node})
    ensures forall x :: 0 <= x < tree.Length ==> tree[x].dl == old(tree[x].dl)
    ensures b.depth[..] == old(b.depth[..])[node := 0]
    ensures Freqs(tree[..]) == Freqs(old(tree[..]))[node := 1]
  {
    hide Held;
    ghost var h := b.heap[..];
    HeldMore(h, b.heapLen, act, node);
    b.heapLen := b.heapLen + 1;
    b.heap[b.heapLen] := node;
    assert b.heap[..] == h[b.heapLen := node];
    tree[node] := tree[node].(fc := 1);
    b.depth[node] := 0;
  }

  lemma ForcedCosts(desc: StaticDesc, n: nat, used: set<nat>, act: set<nat>, node: nat)
    requires DescOk(desc) && node < 3 && node < n && node !in act && node !in used
    ensures |act + {node} - used| == |act - used| + 1
    ensures Sum(act + {node} - used, StatCosts(desc, Ones(n)))
      == Sum(act - used, StatCosts(desc, Ones(n))) + (if desc.stree == [] then 0 else desc.stree[node])
  {
    hide Sum, StatCosts;
    StaticOne(desc, n, node);
    assert act + {node} - used == act - used + {node};
    SumIn(act - used, StatCosts(desc, Ones(n)), node);
  }

  lemma Alone(act: set<nat>, x: nat)
    requires x in act && |act| <= 1
    ensures act == {x}
  {
    assert |act - {x}| == 0;
  }

  lemma DescFacts(desc: StaticDesc)
    requires DescOk(desc)
    ensures 3 <= desc.elems <= L_CODES && (desc.stree == [] || desc.elems <= |desc.stree|) && desc.maxLength <= MAXBITS
  {
  }

  lemma StaticOne(desc: StaticDesc, n: nat, node: nat)
    requires DescOk(desc) && node < n && node < desc.elems && node < 3
    ensures At(StatCosts(desc, Ones(n)), node) == if desc.stree == [] then 0 else desc.stree[node]
  {
    assert ExtraOf(desc, node) == 0;
  }

  lemma ForcedMore(used: set<nat>, act: set<nat>, was: seq<nat>, freq: seq<nat>, elems: nat, node: nat)
    requires Forced(used, act, was, freq, elems) && node !in act && node < 3 <= elems && |act| < 2
    ensures node !in used && Forced(used, act + {node}, was, freq[node := 1], elems)
  {
    hide Occurring;
    OccurringMore(freq, elems, node);
    assert act + {node} - used == act - used + {node};
  }

  lemma OccurringMore(freq: seq<nat>, n: nat, x: nat)
    requires x < n <= |freq|
    ensures Occurring(freq[x := 1], n) == Occurring(freq, n) + {x}
  {
  }

  // ------------------------------------------------------------- build_tree

  /** Establish the heap from the bottom up. */
  method Heapify(b: Builder, tree: array<CtData>, ghost act: set<nat>)
    requires b.Valid() && tree.Length <= HEAP_SIZE && b.heapLen >= 2 && b.heapLen < HEAP_SIZE && |act| == b.heapLen
    requires Held(b.heap[..], b.heapLen) == multiset(act) && forall x :: x in act ==> x < tree.Length
    modifies b.heap
    ensures Holds(b.heap[..], b.heapLen, tree[..], b.depth[..], act)
  {
    hide Held, Smaller;
    var n := b.heapLen / 2;
    forall j | 1 <= j <= b.heapLen ensures b.heap[j] < tree.Length { HeldIn(b.heap[..], b.heapLen, act, j); }
    while n >= 1
      invariant 0 <= n <= b.heapLen / 2 && Nodes(b.heap[..], b.heapLen, tree[..], b.depth[..])
      invariant HeapFrom(b.heap[..], b.heapLen, tree[..], b.depth[..], n + 1)
      invariant Held(b.heap[..], b.heapLen) == multiset(act)
    {
      PqDownHeap(b.heap, b.heapLen, tree, b.depth, n);
      n := n - 1;
    }
  }

  lemma BuiltStart(b: Builder, tree: seq<CtData>, elems: nat, act: set<nat>)
    requires b.Valid() && |tree| <= HEAP_SIZE && 2 * elems <= |tree| && 3 <= elems <= L_CODES && b.heapMax == HEAP_SIZE
    requires Holds(b.heap[..], b.heapLen, tree, b.depth[..], act) && 1 <= b.heapLen <= elems && forall x ::
      x in act ==> x < elems
    requires Flat(act, b.depth[..])
    ensures Built(b, tree, Merges(elems, [], [act], Freqs(tree)), elems)
  {
    hide Holds;
    LevelledStart(elems, act, Freqs(tree), b.depth[..]);
  }

  /** Merge until one node is left, which is the root. */
  method MergeAll(b: Builder, tree: array<CtData>, elems: nat, ghost act: set<nat>) returns (ghost g: Merges)
    requires b.Valid() && tree.Length <= HEAP_SIZE && 2 * elems <= tree.Length && 3 <= elems <= L_CODES
    requires b.heapMax == HEAP_SIZE
    requires Holds(b.heap[..], b.heapLen, tree[..], b.depth[..], act) && 2 <= b.heapLen <= elems && forall x ::
      x in act ==> x < elems
    requires Flat(act, b.depth[..])
    modifies b`heapLen, b`heapMax, b.heap, b.depth, tree
    ensures g.elems == elems && |g.acts| >= 2 && g.acts[0] == act && g.freq == Freqs(tree[..])
    ensures ValidMerges(g) && Distinct(g.removed) && |g.removed| == 2 * |g.acts| - 1
    ensures Stacked(b.heap[..], b.heapMax, g.removed) && Levelled(g, b.depth[..])
    ensures forall u :: 0 <= u < |g.removed| ==>
      g.removed[u] < tree.Length && (u == |g.removed| - 1 || tree[g.removed[u]].dl == elems + u / 2)
    ensures forall u :: 0 <= u < |g.removed| ==> g.removed[u] in act || g.removed[u] >= elems
    ensures forall x :: 0 <= x < elems ==> tree[x].fc == old(tree[x].fc)
    ensures forall x :: 0 <= x < elems && x !in act ==> tree[x] == old(tree[x])
  {
    hide Built, ValidMerges, Distinct, Merging, Stacked, Holds, Fathered, Held, Levelled, Flat;
    var node := elems;
    g := Merges(elems, [], [act], Freqs(tree[..]));
    BuiltStart(b, tree[..], elems, act);
    ghost var n0 := b.heapLen;
    while true
      invariant 2 <= b.heapLen && node >= elems && b.heapLen + |g.acts| - 1 == n0
      invariant Built(b, tree[..], g, node) && g.elems == elems && |g.acts| >= 1 && g.acts[0] == act
      invariant forall x :: 0 <= x < elems ==> tree[x].fc == old(tree[x].fc)
      invariant forall x :: 0 <= x < elems && x !in act ==> tree[x] == old(tree[x])
      decreases b.heapLen
    {
      BuiltNodes(b, tree[..], g, node);
      g := MergeOnce(b, tree, node, g);
      node := node + 1;
      if b.heapLen < 2 { break; }
    }
    FinishFacts(b, tree[..], g, node);
    ghost var h := b.heap[..];
    b.heapMax := b.heapMax - 1;
    b.heap[b.heapMax] := b.heap[SMALLEST];
    LevelledRoot(g, b.depth[..], h[SMALLEST]);
    g := Finish(h, b.heap[..], b.heapMax + 1, tree[..], g, node, act);
  }

  /** Nodes below elems in the heap were there at the start. */
  lemma BuiltNodes(b: Builder, tree: seq<CtData>, g: Merges, node: nat)
    requires Built(b, tree, g, node) && |g.acts| >= 1
    ensures forall x :: x in g.acts[|g.acts| - 1] && x < g.elems ==> x in g.acts[0]
  {
    hide Holds, Stacked, Fathered;
    OldNodes(g, |g.acts| - 1);
  }

  lemma {:induction false} OldNodes(g: Merges, i: nat)
    requires Merging(g) && i < |g.acts|
    ensures forall x :: x in g.acts[i] && x < g.elems ==> x in g.acts[0]
  {
    hide AllMerged, AllBelow, Gone, Distinct;
    if i > 0 {
      OldNodes(g, i - 1);
      OldStep(g, i - 1);
    }
  }

  lemma OldStep(g: Merges, i: nat)
    requires Merging(g) && i < |g.acts| - 1
    ensures forall x :: x in g.acts[i + 1] && x < g.elems ==> x in g.acts[i]
    ensures g.removed[2 * i] in g.acts[i] && g.removed[2 * i + 1] in g.acts[i]
  {
    assert g.acts[i] == g.acts[i];
  }

  lemma FinishFacts(b: Builder, tree: seq<CtData>, g: Merges, node: nat)
    requires Built(b, tree, g, node) && b.heapLen < 2
    ensures b.heapLen == 1 && b.Valid() && b.heapMax == HEAP_SIZE - |g.removed| >= 2
    ensures Merging(g) && g.freq == Freqs(tree) && Fathered(tree, g) && Stacked(b.heap[..], b.heapMax, g.removed)
    ensures Levelled(g, b.depth[..]) && |g.removed| == 2 * |g.acts| - 2
    ensures g.acts[|g.acts| - 1] == {b.heap[1]} && b.heap[1] < |tree|
  {
    hide OneMerge;
    HeldIn(b.heap[..], 1, g.acts[|g.acts| - 1], 1);
    Alone(g.acts[|g.acts| - 1], b.heap[1]);
  }

  lemma Finish(h: seq<nat>, h': seq<nat>, heapMax: nat, tree: seq<CtData>, g: Merges, node: nat, act: set<nat>)
    returns (f: Merges)
    requires heapMax >= 2 && Stacked(h, heapMax, g.removed) && |h'| == |h| == HEAP_SIZE && h' == h[heapMax - 1 := h[1]]
    requires Merging(g) && |g.acts| >= 2 && g.acts[0] == act && g.freq == Freqs(tree) && Fathered(tree, g)
    requires g.acts[|g.acts| - 1] == {h[1]} && h[1] < |tree|
    ensures f == g.(removed := g.removed + [h[1]])
    ensures ValidMerges(f) && Distinct(f.removed) && |f.removed| == 2 * |f.acts| - 1
    ensures Stacked(h', heapMax - 1, f.removed)
    ensures forall u :: 0 <= u < |f.removed| ==>
      f.removed[u] < |tree| && (u == |f.removed| - 1 || tree[f.removed[u]].dl == g.elems + u / 2)
    ensures forall u :: 0 <= u < |f.removed| ==> f.removed[u] in act || f.removed[u] >= g.elems
  {
    hide Merging, ValidMerges, Distinct, Stacked;
    f := g.(removed := g.removed + [h[1]]);
    MergingDone(g, h[1]);
    RootDistinct(g, h[1]);
    StackedRoot(h, h', heapMax, g.removed, h[1]);
    forall u | 0 <= u < |g.removed|
      ensures g.removed[u] in act || g.removed[u] >= g.elems
    {
      RemovedOld(g, u);
    }
    OldNodes(g, |g.acts| - 1);
  }

  lemma RemovedOld(g: Merges, u: nat)
    requires Merging(g) && u < |g.removed|
    ensures g.removed[u] in g.acts[0] || g.removed[u] >= g.elems
  {
    hide AllMerged, AllBelow, Gone, Distinct;
    var i := u / 2;
    OldNodes(g, i);
    OldStep(g, i);
  }

  lemma StackedRoot(h: seq<nat>, h': seq<nat>, heapMax: nat, removed: seq<nat>, root: nat)
    requires heapMax >= 1 && Stacked(h, heapMax, removed) && |h'| == |h| && h' == h[heapMax - 1 := root]
    ensures Stacked(h', heapMax - 1, removed + [root])
  {
  }

  lemma RootDistinct(g: Merges, root: nat)
    requires Merging(g) && root in g.acts[|g.acts| - 1]
    ensures |g.removed| == 2 * |g.acts| - 2 && Distinct(g.removed + [root])
  {
    hide AllMerged, AllBelow;
  }

  /** A complete code of two symbols gives each one bit. */
  lemma TwoLeaves(lens: seq<nat>, leaves: set<nat>, max: nat)
    requires GoodLengths(lens, leaves, max) && |leaves| == 2 && max <= MAXBITS && forall x :: x in leaves ==> x < |lens|
    ensures forall x :: x in leaves ==> lens[x] == 1
  {
    hide Sum, Used, Complete, Share;
    var x :| x in leaves;
    assert |leaves - {x}| == 1;
    var y :| y in leaves - {x};
    Alone(leaves - {x}, y);
    assert leaves == (leaves - {x}) + {x};
    assert leaves == {x, y};
    forall s ensures s in InUse(lens, MAXBITS) <==> s in leaves {
      assert 0 <= s < |lens| ==> lens[s] <= max && (lens[s] != 0 <==> s in leaves);
    }
    assert InUse(lens, MAXBITS) == leaves;
    UsedIsKraft(lens, MAXBITS);
    SumTwo(leaves, Shares(lens, MAXBITS), x, y);
    assert leaves - {x, y} == {};
    NoSum(Shares(lens, MAXBITS));
    HalfEach(lens[x], lens[y]);
    CompleteSum(lens);
  }

  lemma CompleteSum(lens: seq<nat>)
    requires Complete(lens)
    ensures Used(lens, MAXBITS) == Pow2(MAXBITS)
  {
  }

  lemma HalfEach(a: nat, b: nat)
    requires 1 <= a <= MAXBITS && 1 <= b <= MAXBITS
    ensures Share(a, MAXBITS) + Share(b, MAXBITS) == Pow2(MAXBITS) ==> a == 1 && b == 1
  {
    hide Pow2;
    Pow2Values();
    Pow2Mono(MAXBITS - a, MAXBITS - 1);
    Pow2Mono(MAXBITS - b, MAXBITS - 1);
    if a > 1 { Pow2Mono(MAXBITS - a, MAXBITS - 2); }
    if b > 1 { Pow2Mono(MAXBITS - b, MAXBITS - 2); }
  }

  /** Forced codes cost what was subtracted for them, so only real occurrences count. */
  lemma RealCost(desc: StaticDesc, used: set<nat>, act: set<nat>, was: seq<nat>, freq: seq<nat>, lens: seq<nat>,
                 d: seq<nat>)
    requires DescOk(desc) && Forced(used, act, was, freq, desc.elems) && |d| == |freq| && |lens| <= |d|
    requires |act| >= 2 && GoodLengths(lens, act, desc.maxLength) && forall x :: x in act ==>
      x < |lens| && lens[x] == d[x]
    ensures Sum(act, DynCosts(desc, freq, d)) == Sum(used, DynCosts(desc, was, d)) + |act - used|
    ensures Sum(act, StatCosts(desc, freq)) ==
      Sum(used, StatCosts(desc, was)) + Sum(act - used, StatCosts(desc, Ones(|freq|)))
  {
    hide Sum, Occurring, GoodLengths;
    var forced := act - used;
    assert used + forced == act;
    SumUnion(used, forced, DynCosts(desc, freq, d));
    SumUnion(used, forced, StatCosts(desc, freq));
    SumEq(used, DynCosts(desc, freq, d), DynCosts(desc, was, d));
    SumEq(used, StatCosts(desc, freq), StatCosts(desc, was));
    SumEq(forced, StatCosts(desc, freq), StatCosts(desc, Ones(|freq|)));
    if forced == {} {
      NoSum(DynCosts(desc, freq, d));
    } else {
      assert act != used;
      TwoLeaves(lens, act, desc.maxLength);
    }
    OneEach(desc, forced, freq, d);
    SumOnes(forced, DynCosts(desc, freq, d));
  }

  lemma OneEach(desc: StaticDesc, forced: set<nat>, freq: seq<nat>, d: seq<nat>)
    requires DescOk(desc) && |d| == |freq| && forall x :: x in forced ==>
      x < 3 && x < |freq| && freq[x] == 1 && d[x] == 1
    ensures forall x :: x in forced ==> At(DynCosts(desc, freq, d), x) == 1
  {
    forall x | x in forced ensures At(DynCosts(desc, freq, d), x) == 1 { assert ExtraOf(desc, x) == 0; }
  }

  /** What build_tree achieves: was are the frequencies found, freq those used. */
  ghost predicate TreeOf(desc: StaticDesc, was: seq<nat>, freq: seq<nat>, act: set<nat>, lens: seq<nat>) {
    && Forced(Occurring(was, desc.elems), act, was, freq, desc.elems) && 2 <= |act|
    && 1 <= |lens| <= desc.elems && lens[|lens| - 1] != 0
    && (forall x :: x in act ==> x < |lens|)
    && GoodLengths(lens, act, desc.maxLength)
  }

  lemma ActFactsOf(act: set<nat>, used: set<nat>, was: seq<nat>, freq: seq<nat>, elems: nat, maxCode: nat)
    requires Forced(used, act, was, freq, elems) && IsMax(maxCode, act) && maxCode < elems
    ensures maxCode in act && forall x :: x in act ==> x <= maxCode
    ensures |was| == |freq| && elems <= |freq| && forall x :: 0 <= x < elems && x !in act ==>
      freq[x] == 0 && was[x] == 0
  {
  }

  lemma GoodFacts(lens: seq<nat>, act: set<nat>, max: nat)
    requires GoodLengths(lens, act, max) && max <= MAXBITS
    ensures ValidLengths(lens) && NotOversubscribed(lens)
  {
  }

  lemma SmallLeaves(g: Merges, maxCode: nat, act: set<nat>)
    requires ValidMerges(g) && g.acts[0] == act && maxCode < g.elems && forall x :: x in act ==> x <= maxCode
    requires forall u :: 0 <= u < |g.removed| ==> g.removed[u] in act || g.removed[u] >= g.elems
    ensures LeavesFrom(g.removed, 0, maxCode) == act
    ensures forall x :: maxCode < x < g.elems ==> x !in g.removed
  {
    hide ValidMerges;
    AllLeaves(g, maxCode);
  }

  /** From the lengths gen_bitlen leaves behind to what build_tree promises. */
  lemma FinishTree(desc: StaticDesc, was: seq<nat>, freq: seq<nat>, full: seq<nat>, act: set<nat>, lens: seq<nat>,
                   d: seq<nat>, maxCode: nat)
    requires DescOk(desc) && Forced(Occurring(was, desc.elems), act, was, freq, desc.elems) && 2 <= |act|
    requires maxCode in act && maxCode < desc.elems && forall x :: x in act ==> x <= maxCode
    requires |full| == |freq| == |d| && forall x :: 0 <= x < desc.elems ==> full[x] == freq[x]
    requires |lens| == maxCode + 1 && (forall x :: 0 <= x < |lens| ==> x < |d| && lens[x] == d[x])
    requires GoodLengths(lens, act, desc.maxLength) && Finest(act, d, full, desc.maxLength) && Graded(act, d, full)
    ensures TreeOf(desc, was, freq, act, lens) && Finest(act, d, freq, desc.maxLength) && Graded(act, d, freq)
    ensures Sum(act, DynCosts(desc, full, d)) ==
      Sum(Occurring(was, desc.elems), DynCosts(desc, was, d)) + |act - Occurring(was, desc.elems)|
    ensures Sum(act, StatCosts(desc, full))
      == Sum(Occurring(was, desc.elems), StatCosts(desc, was))
        + Sum(act - Occurring(was, desc.elems), StatCosts(desc, Ones(|freq|)))
  {
    hide Sum, Occurring, Forced, Finest, DynCosts, StatCosts, DescOk, GoodLengths, Graded;
    TreeLast(lens, act, desc.maxLength, maxCode);
    ForcedSizes(Occurring(was, desc.elems), act, was, freq, desc.elems);
    SameCosts(desc, act, full, freq, d);
    RealCost(desc, Occurring(was, desc.elems), act, was, freq, lens, d);
    FinestFreq(act, d, full, freq, desc.maxLength);
    GradedFreq(act, d, full, freq);
  }

  lemma GradedFreq(act: set<nat>, d: seq<nat>, full: seq<nat>, freq: seq<nat>)
    requires Graded(act, d, full) && |full| == |freq| && forall x :: x in act ==> x < |freq| && full[x] == freq[x]
    ensures Graded(act, d, freq)
  {
  }

  lemma SameCosts(desc: StaticDesc, act: set<nat>, full: seq<nat>, freq: seq<nat>, d: seq<nat>)
    requires |full| == |freq| == |d| && forall x :: x in act ==> x < |freq| && full[x] == freq[x]
    ensures Sum(act, DynCosts(desc, full, d)) == Sum(act, DynCosts(desc, freq, d))
    ensures Sum(act, StatCosts(desc, full)) == Sum(act, StatCosts(desc, freq))
  {
    hide Sum;
    SumEq(act, DynCosts(desc, full, d), DynCosts(desc, freq, d));
    SumEq(act, StatCosts(desc, full), StatCosts(desc, freq));
  }

  lemma TreeLast(lens: seq<nat>, act: set<nat>, max: nat, maxCode: nat)
    requires GoodLengths(lens, act, max) && maxCode in act && |lens| == maxCode + 1
    ensures lens[maxCode] != 0
  {
  }

  lemma ForcedSizes(used: set<nat>, act: set<nat>, was: seq<nat>, freq: seq<nat>, elems: nat)
    requires Forced(used, act, was, freq, elems)
    ensures |was| == |freq| && elems <= |freq|
  {
  }

  /** The symbols that occur, two at least, made a heap. */
  method StartTree(b: Builder, tree: array<CtData>, desc: StaticDesc) returns (maxCode: nat, ghost act: set<nat>)
    requires b.Valid() && DescOk(desc) && desc.elems <= tree.Length <= HEAP_SIZE
    modifies b, b.heap, b.depth, tree
    ensures maxCode in act && maxCode < desc.elems && forall x :: x in act ==> x <= maxCode
    ensures Forced(Occurring(Freqs(old(tree[..])), desc.elems), act, Freqs(old(tree[..])), Freqs(tree[..]), desc.elems)
    ensures b.heapMax == HEAP_SIZE && 2 <= b.heapLen == |act| <= desc.elems && Flat(act, b.depth[..])
    ensures Holds(b.heap[..], b.heapLen, tree[..], b.depth[..], act)
    ensures forall x :: 0 <= x < desc.elems && x !in act ==> tree[x] == CtData(0, 0)
    ensures var forced := act - Occurring(Freqs(old(tree[..])), desc.elems);
      b.optLen == old(b.optLen) - |forced| &&
      b.staticLen == old(b.staticLen) - Sum(forced, StatCosts(desc, Ones(tree.Length)))
  {
    hide Sum, Held, Holds, Forced, IsMax, StatCosts, Occurring, DescOk, Flat;
    DescFacts(desc);
    ghost var was := Freqs(tree[..]);
    var max := CollectSymbols(b, tree, desc.elems);
    maxCode, act := ForceTwo(b, tree, desc, max);
    ghost var freq := Freqs(tree[..]);
    ActFactsOf(act, Occurring(was, desc.elems), was, freq, desc.elems, maxCode);
    Heapify(b, tree, act);
    assert forall x :: 0 <= x < desc.elems && x !in act ==> freq[x] == 0;
  }

  /** build_tree: a complete code for exactly the symbols that occur (and one or two more
      if fewer than two do), at most maxLength long and optimal exactly if the limit allows
      it; its codes are the canonical ones, and the two costs grow by the bits all
      occurrences take. */
  method BuildTree(b: Builder, tree: array<CtData>, desc: StaticDesc)
    returns (maxCode: nat, ghost freq: seq<nat>, ghost act: set<nat>)
    requires b.Valid() && DescOk(desc) && 2 * desc.elems <= tree.Length <= HEAP_SIZE
    modifies b, b.heap, b.depth, b.blCount, tree
    ensures maxCode < desc.elems
    ensures var was, lens := Freqs(old(tree[..])), Lens(tree[..], maxCode + 1);
      && TreeOf(desc, was, freq, act, lens) && |freq| == tree.Length
      && Coded(tree[..], lens)
      && Finest(act, Lens(tree[..], tree.Length), freq, desc.maxLength)
      && Graded(act, Lens(tree[..], tree.Length), freq)
      && b.optLen == old(b.optLen) + Sum(Occurring(was, desc.elems), DynCosts(desc, was, Lens(tree[..], tree.Length)))
      && b.staticLen == old(b.staticLen) + Sum(Occurring(was, desc.elems), StatCosts(desc, was))
    ensures forall x :: maxCode < x < desc.elems ==> tree[x] == CtData(0, 0)
  {
    hide Sum, Held, Holds, Forced, GoodLengths, ValidMerges, Finest, Stacked, Coded, Distinct, LeavesFrom, IsMax;
    hide Count, DynCosts, StatCosts, Occurring, DescOk, Complete, Levelled, Flat, Graded;
    DescFacts(desc);
    ghost var was := Freqs(tree[..]);
    maxCode, act := StartTree(b, tree, desc);
    freq := Freqs(tree[..]);
    ForcedSizes(Occurring(was, desc.elems), act, was, freq, desc.elems);
    ghost var g := MergeAll(b, tree, desc.elems, act);
    SmallLeaves(g, maxCode, act);
    GenBitlen(b, tree, desc, maxCode, g, act);
    ghost var lens := Lens(tree[..], maxCode + 1);
    FinishTree(desc, was, freq, g.freq, act, lens, Lens(tree[..], tree.Length), maxCode);
    ghost var t4 := tree[..];
    GoodFacts(lens, act, desc.maxLength);
    GenCodes(tree, maxCode, b.blCount);
    assert Lens(tree[..], tree.Length) == Lens(t4, tree.Length);
    assert Lens(tree[..], maxCode + 1) == lens;
  }
}
