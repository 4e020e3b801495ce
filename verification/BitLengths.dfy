/** trees.c: gen_bitlen, the code lengths of a Huffman tree and their limitation. */
module BitLengths {
  import opened Bits
  import opened Canonical
  import opened Sums
  import opened Huffman
  import opened KraftSums
  import opened TreeDepths
  import opened TreeCodes

  /** static_tree_desc: the static tree's lengths (none if there is no static tree), the
      extra bits of codes from extraBase on, how many codes, and the longest allowed. */
  datatype StaticDesc = StaticDesc(stree: seq<nat>, extraBits: seq<nat>, extraBase: nat, elems: nat, maxLength: nat)

  ghost predicate DescOk(desc: StaticDesc) {
    && 3 <= desc.elems <= L_CODES && desc.elems <= desc.extraBase + |desc.extraBits|
    && (desc.stree == [] || desc.elems <= |desc.stree|)
    && 7 <= desc.maxLength <= MAXBITS && desc.elems <= Pow2(desc.maxLength)
    && forall n :: 0 <= n < 3 ==> ExtraOf(desc, n) == 0
  }

  function ExtraOf(desc: StaticDesc, n: nat): nat {
    if desc.extraBase <= n < desc.extraBase + |desc.extraBits| then desc.extraBits[n - desc.extraBase] else 0
  }

  function StaticOf(desc: StaticDesc, n: nat): nat {
    if n < |desc.stree| then desc.stree[n] else 0
  }

  /** Where the heap array holds the removed nodes, the last one at heapMax. */
  ghost predicate Stacked(heap: seq<nat>, heapMax: nat, removed: seq<nat>) {
    |heap| == HEAP_SIZE && heapMax + |removed| == HEAP_SIZE &&
    forall t :: 0 <= t < |removed| ==> heap[HEAP_SIZE - 1 - t] == removed[t]
  }

  /** Nodes removed before t still hold their father, the others their length. */
  ghost predicate Linked(tree: seq<CtData>, g: Merges, d: seq<nat>, t: nat) {
    && |tree| == |g.freq| == |d|
    && (forall x :: 0 <= x < |tree| ==> tree[x].fc == g.freq[x])
    && (forall u :: 0 <= u < |g.removed| && g.removed[u] < |tree| ==>
          if u >= t then tree[g.removed[u]].dl == d[g.removed[u]]
          else u == |g.removed| - 1 || tree[g.removed[u]].dl == g.elems + u / 2)
  }

  /** Numbers of leaves by length. */
  ghost predicate LeafCounts(blCount: seq<nat>, leaves: set<nat>, d: seq<nat>) {
    |blCount| == MAXBITS + 1 && forall b :: 0 <= b <= MAXBITS ==> blCount[b] == |Deepest(leaves, d, b)|
  }

  /** Code bits and extra bits of all occurrences of each symbol. */
  ghost function DynCosts(desc: StaticDesc, freq: seq<nat>, d: seq<nat>): seq<nat>
    requires |d| == |freq|
  {
    seq(|freq|, x requires 0 <= x < |freq| => freq[x] * (d[x] + ExtraOf(desc, x)))
  }

  /** The same in the static codes, 0 if there are none. */
  ghost function StatCosts(desc: StaticDesc, freq: seq<nat>): seq<nat> {
    seq(|freq|, x requires 0 <= x < |freq| => if desc.stree == [] then 0
      else freq[x] * (StaticOf(desc, x) + ExtraOf(desc, x)))
  }

  lemma LeafCountsStep(blCount: seq<nat>, leaves: set<nat>, d: seq<nat>, x: nat)
    requires LeafCounts(blCount, leaves, d) && x !in leaves && x < |d| && d[x] <= MAXBITS
    ensures LeafCounts(blCount[d[x] := blCount[d[x]] + 1], leaves + {x}, d)
  {
    forall b | 0 <= b <= MAXBITS
      ensures |Deepest(leaves + {x}, d, b)| == |Deepest(leaves, d, b)| + (if d[x] == b then 1 else 0)
    {
      if d[x] == b {
        assert Deepest(leaves + {x}, d, b) == Deepest(leaves, d, b) + {x};
      } else {
        assert Deepest(leaves + {x}, d, b) == Deepest(leaves, d, b);
      }
    }
  }

  /** The part of deflate_state the trees are built in. */
  class Builder {
    const heap: array<nat>
    const depth: array<nat>
    const blCount: array<nat>
    var heapLen: nat
    var heapMax: nat
    var optLen: int
    var staticLen: int

    constructor ()
      ensures Valid() && fresh(heap) && fresh(depth) && fresh(blCount) && optLen == 0 && staticLen == 0
    {
      heap := new nat[HEAP_SIZE](_ => 0);
      depth := new nat[HEAP_SIZE](_ => 0);
      blCount := new nat[MAXBITS + 1](_ => 0);
      heapLen, heapMax, optLen, staticLen := 0, HEAP_SIZE, 0, 0;
    }

    predicate Valid() {
      && heap.Length == HEAP_SIZE && depth.Length == HEAP_SIZE && blCount.Length == MAXBITS + 1
      && heap != depth && heap != blCount && depth != blCount
    }
  }

  /** What every node needs to be numbered from the root down. */
  ghost predicate Ready(b: Builder, tree: seq<CtData>, desc: StaticDesc, maxCode: nat, g: Merges, d: seq<nat>, t: nat)
    reads b, b.heap
  {
    && b.Valid() && DescOk(desc) && maxCode < desc.elems == g.elems && |g.acts| >= 2
    && Descends(g, d, desc.maxLength) && Distinct(g.removed)
    && |g.removed| == 2 * |g.acts| - 1 && b.heapMax + |g.removed| == HEAP_SIZE
    && Stacked(b.heap[..], b.heapMax, g.removed) && Linked(tree, g, d, t)
  }

  lemma RootFirst(heap: seq<nat>, heapMax: nat, tree: seq<CtData>, g: Merges, d: seq<nat>, max: nat)
    requires Stacked(heap, heapMax, g.removed) && Linked(tree, g, d, |g.removed|) && Descends(g, d, max)
    requires Distinct(g.removed)
    ensures heapMax < HEAP_SIZE && heap[heapMax] < |tree| && heap[heapMax] in g.removed && |d| == |g.freq|
    ensures Linked(tree[heap[heapMax] := tree[heap[heapMax]].(dl := 0)], g, d, |g.removed| - 1)
  {
    hide OneMerge;
    var t := |g.removed| - 1;
    assert heap[HEAP_SIZE - 1 - t] == g.removed[t];
    assert d[g.removed[t]] == 0;
    LinkedStep(tree, g, d, max, t);
  }

  lemma NodeAt(heap: seq<nat>, heapMax: nat, removed: seq<nat>, t: nat)
    requires Stacked(heap, heapMax, removed) && t < |removed|
    ensures heap[HEAP_SIZE - 1 - t] == removed[t]
  {
  }

  lemma ClampedStep(g: Merges, d: seq<nat>, max: nat, t: nat)
    requires Descends(g, d, max) && t < 2 * |g.acts| - 2
    ensures Clamped(g, d, max, t) == (if d[g.elems + t / 2] >= max then 1 else 0) + Clamped(g, d, max, t + 1)
  {
    hide Descends, ValidMerges;
  }

  lemma NoLeavesYet(g: Merges, d: seq<nat>, desc: StaticDesc, maxCode: nat, blCount: seq<nat>)
    requires |g.acts| >= 2 && maxCode < g.elems && Descends(g, d, desc.maxLength)
    requires |blCount| == MAXBITS + 1 && forall i :: 0 <= i <= MAXBITS ==> blCount[i] == 0
    ensures LeavesFrom(g.removed, |g.removed| - 1, maxCode) == {}
    ensures LeafCounts(blCount, {}, d) && Clamped(g, d, desc.maxLength, |g.removed| - 1) == 0
    ensures Sum({}, DynCosts(desc, g.freq, d)) == 0 && Sum({}, StatCosts(desc, g.freq)) == 0
  {
    hide OneMerge;
    var k := |g.acts| - 2;
    var u := FatherLater(g, k);
    assert g.removed[|g.removed| - 1] == g.elems + k;
    forall b | 0 <= b <= MAXBITS ensures |Deepest({}, d, b)| == 0 { assert Deepest({}, d, b) == {}; }
  }

  /** The father of the node removed at t has its length already. */
  lemma FatherKnown(tree: seq<CtData>, g: Merges, d: seq<nat>, max: nat, t: nat)
    requires Descends(g, d, max) && t + 2 < 2 * |g.acts| && Linked(tree, g, d, t + 1)
    ensures g.removed[t] < |tree| == |g.freq| == |d| && tree[g.removed[t]].dl == g.elems + t / 2 < |tree|
    ensures tree[g.removed[t]].fc == g.freq[g.removed[t]]
    ensures tree[g.elems + t / 2].dl == d[g.elems + t / 2] == Father(g, d, t)
    ensures d[g.removed[t]] == if d[g.elems + t / 2] < max then d[g.elems + t / 2] + 1 else max
  {
    hide OneMerge;
    var i := t / 2;
    var u := FatherLater(g, i);
    assert SonsAt(g, d, i, max);
  }

  lemma LinkedStep(tree: seq<CtData>, g: Merges, d: seq<nat>, max: nat, t: nat)
    requires Descends(g, d, max) && Distinct(g.removed) && t < |g.removed| && Linked(tree, g, d, t + 1)
    ensures g.removed[t] < |tree|
    ensures var n := g.removed[t]; Linked(tree[n := tree[n].(dl := d[n])], g, d, t)
  {
    hide OneMerge;
  }

  /** First pass: lengths from the root down, limited to max; counts and costs of leaves. */
  method FirstPass(b: Builder, tree: array<CtData>, desc: StaticDesc, maxCode: nat, ghost g: Merges, ghost d: seq<nat>)
    returns (overflow: nat)
    requires Ready(b, tree[..], desc, maxCode, g, d, |g.removed|) && |d| == |g.freq|
    requires forall i :: 0 <= i <= MAXBITS ==> b.blCount[i] == 0
    modifies b, b.blCount, tree
    ensures b.heapMax == old(b.heapMax) && b.heapLen == old(b.heapLen)
    ensures Ready(b, tree[..], desc, maxCode, g, d, 0)
    ensures LeafCounts(b.blCount[..], LeavesFrom(g.removed, 0, maxCode), d)
    ensures overflow == Clamped(g, d, desc.maxLength, 0)
    ensures b.optLen == old(b.optLen) + Sum(LeavesFrom(g.removed, 0, maxCode), DynCosts(desc, g.freq, d))
    ensures b.staticLen == old(b.staticLen) + Sum(LeavesFrom(g.removed, 0, maxCode), StatCosts(desc, g.freq))
    ensures forall x :: 0 <= x < tree.Length && x !in g.removed ==> tree[x] == old(tree[x])
  {
    hide Descends, Distinct, Stacked, Linked, LeafCounts, LeavesFrom, Sum, Clamped, Deepest, Father, DescOk, DynCosts;
    hide StatCosts;
    overflow := 0;
    ghost var root := |g.removed| - 1;
    RootFirst(b.heap[..], b.heapMax, tree[..], g, d, desc.maxLength);
    tree[b.heap[b.heapMax]] := tree[b.heap[b.heapMax]].(dl := 0);
    NoLeavesYet(g, d, desc, maxCode, b.blCount[..]);
    var h := b.heapMax + 1;
    while h < HEAP_SIZE
      invariant b.heapMax == old(b.heapMax) && b.heapLen == old(b.heapLen) && b.heapMax + 1 <= h <= HEAP_SIZE
      invariant Ready(b, tree[..], desc, maxCode, g, d, HEAP_SIZE - h)
      invariant LeafCounts(b.blCount[..], LeavesFrom(g.removed, HEAP_SIZE - h, maxCode), d)
      invariant overflow == Clamped(g, d, desc.maxLength, HEAP_SIZE - h)
      invariant b.optLen == old(b.optLen)
        + Sum(LeavesFrom(g.removed, HEAP_SIZE - h, maxCode), DynCosts(desc, g.freq, d))
      invariant b.staticLen == old(b.staticLen)
        + Sum(LeavesFrom(g.removed, HEAP_SIZE - h, maxCode), StatCosts(desc, g.freq))
      invariant forall x :: 0 <= x < tree.Length && x !in g.removed ==> tree[x] == old(tree[x])
    {
      ghost var t := HEAP_SIZE - 1 - h;
      var n := b.heap[h];
      NodeAt(b.heap[..], b.heapMax, g.removed, t);
      FatherKnown(tree[..], g, d, desc.maxLength, t);
      var bits := tree[tree[n].dl].dl + 1;
      ClampedStep(g, d, desc.maxLength, t);
      if bits > desc.maxLength {
        bits := desc.maxLength;
        overflow := overflow + 1;
      }
      LinkedStep(tree[..], g, d, desc.maxLength, t);
      ghost var was := tree[..];
      tree[n] := tree[n].(dl := bits);
      assert tree[..] == was[n := was[n].(dl := d[n])];
      LeavesStep(g.removed, t, maxCode);
      h := h + 1;
      if n > maxCode { continue; }
      CountLeaf(b, tree, desc, n, bits, LeavesFrom(g.removed, t + 1, maxCode), g, d);
    }
  }

  /** One leaf more: its length and its bits. */
  method CountLeaf(b: Builder, tree: array<CtData>, desc: StaticDesc, n: nat, bits: nat, ghost leaves: set<nat>,
                   ghost g: Merges, ghost d: seq<nat>)
    requires b.Valid() && DescOk(desc) && n < desc.elems && bits <= desc.maxLength && n < tree.Length == |g.freq| == |d|
    requires tree[n] == CtData(g.freq[n], bits) && d[n] == bits && n !in leaves && LeafCounts(b.blCount[..], leaves, d)
    modifies b, b.blCount
    ensures b.heapMax == old(b.heapMax) && b.heapLen == old(b.heapLen)
    ensures LeafCounts(b.blCount[..], leaves + {n}, d)
    ensures b.optLen == old(b.optLen)
      + Sum(leaves + {n}, DynCosts(desc, g.freq, d)) - Sum(leaves, DynCosts(desc, g.freq, d))
    ensures b.staticLen == old(b.staticLen)
      + Sum(leaves + {n}, StatCosts(desc, g.freq)) - Sum(leaves, StatCosts(desc, g.freq))
  {
    hide LeafCounts, Sum, Deepest;
    ghost var was := b.blCount[..];
    LeafCountsStep(was, leaves, d, n);
    b.blCount[bits] := b.blCount[bits] + 1;
    assert b.blCount[..] == was[bits := was[bits] + 1];
    SumIn(leaves, DynCosts(desc, g.freq, d), n);
    SumIn(leaves, StatCosts(desc, g.freq), n);
    var xbits := 0;
    if n >= desc.extraBase { xbits := desc.extraBits[n - desc.extraBase]; }
    var f := tree[n].fc;
    b.optLen := b.optLen + f * (bits + xbits);
    if desc.stree != [] { b.staticLen := b.staticLen + f * (desc.stree[n] + xbits); }
  }

  // ------------------------------------------------------ limiting the lengths

  /** Kraft sum of the counts up to length n, in units of 2^-n. */
  ghost function Scaled(bl: seq<nat>, n: nat): nat
    requires n < |bl|
  {
    if n == 0 then 0 else 2 * Scaled(bl, n - 1) + bl[n]
  }

  ghost function Total(bl: seq<nat>, n: nat): nat
    requires n < |bl|
  {
    if n == 0 then 0 else Total(bl, n - 1) + bl[n]
  }

  lemma {:induction false} ScaledSet(bl: seq<nat>, b: nat, v: nat, n: nat)
    requires 1 <= b && b < |bl| && n < |bl|
    ensures b <= n ==> Scaled(bl[b := v], n) + bl[b] * Pow2(n - b) == Scaled(bl, n) + v * Pow2(n - b)
    ensures b > n ==> Scaled(bl[b := v], n) == Scaled(bl, n)
  {
    if n > 0 {
      ScaledSet(bl, b, v, n - 1);
      if b < n {
        assert n - b - 1 == n - 1 - b;
        TimesDouble(bl[b], Pow2(n - 1 - b));
        TimesDouble(v, Pow2(n - 1 - b));
      }
    }
  }

  lemma {:induction false} TotalSet(bl: seq<nat>, b: nat, v: nat, n: nat)
    requires 1 <= b && b < |bl| && n < |bl|
    ensures b <= n ==> Total(bl[b := v], n) + bl[b] == Total(bl, n) + v
    ensures b > n ==> Total(bl[b := v], n) == Total(bl, n)
  {
    if n > 0 { TotalSet(bl, b, v, n - 1); }
  }

  lemma {:induction false} AllZero(bl: seq<nat>, n: nat)
    requires n < |bl| && forall b :: 1 <= b <= n ==> bl[b] == 0
    ensures Scaled(bl, n) == 0 && Total(bl, n) == 0
  {
    if n > 0 { AllZero(bl, n - 1); }
  }

  /** While the Kraft sum is too large some leaf is above the limit. */
  lemma SomeShorter(bl: seq<nat>, max: nat)
    requires 1 <= max < |bl| && Scaled(bl, max) > Pow2(max) >= Total(bl, max)
    ensures exists b :: 1 <= b < max && bl[b] != 0
  {
    if forall b :: 1 <= b <= max - 1 ==> bl[b] == 0 {
      AllZero(bl, max - 1);
    }
  }

  /** A leaf goes one down, an overflow item becomes its brother: same number of leaves,
      and the Kraft sum less by the one item that was too deep. */
  lemma MoveDown(bl: seq<nat>, max: nat, bits: nat)
    requires 1 <= bits < max < |bl| && bl[bits] >= 1 && bl[max] >= 1
    ensures var c := bl[bits := bl[bits] - 1];
            var d := c[bits + 1 := c[bits + 1] + 2];
            var e := d[max := d[max] - 1];
            Scaled(e, max) + 1 == Scaled(bl, max) && Total(e, max) == Total(bl, max)
            && e == MovedDown(bl, max, bits)
  {
    hide Scaled, Total, Pow2;
    var c := bl[bits := bl[bits] - 1];
    var d := c[bits + 1 := c[bits + 1] + 2];
    ScaledSet(bl, bits, bl[bits] - 1, max);
    ScaledSet(c, bits + 1, c[bits + 1] + 2, max);
    ScaledSet(d, max, d[max] - 1, max);
    TotalSet(bl, bits, bl[bits] - 1, max);
    TotalSet(c, bits + 1, c[bits + 1] + 2, max);
    TotalSet(d, max, d[max] - 1, max);
    var p := Pow2(max - bits - 1);
    assert max - (bits + 1) == max - bits - 1;
    PowStep(max - bits);
    PowZero();
    Unfold(bl[bits], Pow2(max - bits));
    Unfold2(c[bits + 1], p);
  }

  lemma Unfold(u: nat, p: nat)
    requires u >= 1
    ensures (u - 1) * p + p == u * p
  {
  }

  lemma Unfold2(u: nat, p: nat)
    ensures (u + 2) * p == u * p + 2 * p
  {
  }

  /** The counts with one item too deep made the brother of a leaf of length bits. */
  function MovedDown(bl: seq<nat>, max: nat, bits: nat): seq<nat>
    requires 1 <= bits < max < |bl| && bl[bits] >= 1 && bl[max] >= 1
  {
    var c := bl[bits := bl[bits] - 1];
    var d := c[bits + 1 := c[bits + 1] + 2];
    d[max := d[max] - 1]
  }

  /** n such repairs lead from the counts bl to now, each at the deepest leaf above the
      limit, which is the one that is least frequent. */
  ghost predicate Repairs(bl: seq<nat>, now: seq<nat>, max: nat, n: nat)
    requires |bl| == |now|
    decreases n
  {
    if n == 0 then now == bl else
      exists was: seq<nat>, bits: nat ::
        && |was| == |bl| && 1 <= bits < max < |was| && was[bits] >= 1 && was[max] >= 1
        && (forall b :: bits < b < max ==> was[b] == 0)
        && Repairs(bl, was, max, n - 1) && now == MovedDown(was, max, bits)
  }

  lemma RepairMore(bl: seq<nat>, was: seq<nat>, now: seq<nat>, max: nat, n: nat, bits: nat)
    requires |bl| == |was| == |now| && 1 <= bits < max < |was| && was[bits] >= 1 && was[max] >= 1
    requires (forall b :: bits < b < max ==> was[b] == 0) && Repairs(bl, was, max, n)
    requires now == MovedDown(was, max, bits)
    ensures Repairs(bl, now, max, n + 1)
  {
    hide MovedDown;
  }

  lemma NoRepair(bl: seq<nat>, max: nat)
    ensures Repairs(bl, bl, max, 0)
  {
  }

  /** The repair loop of gen_bitlen: the search never fails, no count gets negative, and
      the counts end up as those of a complete code for as many leaves. */
  method LimitLengths(bl: array<nat>, max: nat, overflow0: nat)
    requires bl.Length == MAXBITS + 1 && 1 <= max <= MAXBITS && overflow0 > 0 && overflow0 % 2 == 0
    requires Scaled(bl[..], max) == Pow2(max) + overflow0 / 2 && Total(bl[..], max) <= Pow2(max)
    requires bl[max] > overflow0 / 2
    modifies bl
    ensures Scaled(bl[..], max) == Pow2(max) && Total(bl[..], max) == Total(old(bl[..]), max)
    ensures forall b :: 0 <= b <= MAXBITS && (b == 0 || b > max) ==> bl[b] == old(bl[b])
    ensures Repairs(old(bl[..]), bl[..], max, overflow0 / 2)
  {
    hide Scaled, Total, Pow2, Repairs, MovedDown;
    var overflow: int := overflow0;
    NoRepair(bl[..], max);
    while true
      invariant overflow > 0 && overflow % 2 == 0
      invariant Scaled(bl[..], max) == Pow2(max) + overflow / 2
      invariant Total(bl[..], max) == Total(old(bl[..]), max)
      invariant bl[max] > overflow / 2 && overflow <= overflow0
      invariant forall b :: 0 <= b <= MAXBITS && (b == 0 || b > max) ==> bl[b] == old(bl[b])
      invariant Repairs(old(bl[..]), bl[..], max, (overflow0 - overflow) / 2)
      decreases overflow
    {
      SomeShorter(bl[..], max);
      var bits := max - 1;
      while bl[bits] == 0
        invariant 1 <= bits < max && forall b :: bits < b < max ==> bl[b] == 0
        decreases bits
      {
        bits := bits - 1;
      }
      ghost var was := bl[..];
      MoveDown(was, max, bits);
      StepDown(bl, max, bits);
      RepairMore(old(bl[..]), was, bl[..], max, (overflow0 - overflow) / 2, bits);
      overflow := overflow - 2;
      if overflow <= 0 { break; }
    }
  }

  method StepDown(bl: array<nat>, max: nat, bits: nat)
    requires 1 <= bits < max < bl.Length && bl[bits] >= 1 && bl[max] >= 1
    modifies bl
    ensures bl[..] == MovedDown(old(bl[..]), max, bits)
  {
    bl[bits] := bl[bits] - 1;
    bl[bits + 1] := bl[bits + 1] + 2;
    bl[max] := bl[max] - 1;
  }

  // -------------------------------------------------- handing out the lengths

  /** The leaves among the first t removed nodes. */
  ghost function LeavesUpTo(r: seq<nat>, t: nat, maxCode: nat): set<nat> {
    set u | 0 <= u < t && u < |r| && r[u] <= maxCode :: r[u]
  }

  lemma UpToStep(r: seq<nat>, t: nat, maxCode: nat)
    requires Distinct(r) && t < |r|
    ensures r[t] !in LeavesUpTo(r, t, maxCode)
    ensures LeavesUpTo(r, t + 1, maxCode) == if r[t] <= maxCode then LeavesUpTo(r, t, maxCode) + {r[t]}
      else LeavesUpTo(r, t, maxCode)
    ensures LeavesUpTo(r, 0, maxCode) == {}
    ensures r[t] <= maxCode ==> r[t] in LeavesUpTo(r, |r|, maxCode)
  {
    var a, b := LeavesUpTo(r, t + 1, maxCode), LeavesUpTo(r, t, maxCode);
    forall x | x in a ensures x in b || x == r[t] {
      var u :| 0 <= u < t + 1 && u < |r| && r[u] <= maxCode && r[u] == x;
    }
    assert r[t] <= maxCode ==> r[t] in a;
    assert r[t] <= maxCode ==> r[t] in LeavesUpTo(r, |r|, maxCode);
  }

  lemma UpToAll(r: seq<nat>, t: nat, maxCode: nat)
    requires t <= |r|
    ensures LeavesUpTo(r, t, maxCode) <= LeavesUpTo(r, |r|, maxCode)
    ensures LeavesFrom(r, 0, maxCode) == LeavesUpTo(r, |r|, maxCode)
  {
  }

  /** n leaves of length bits are still to be given out, then all shorter ones. */
  ghost predicate Handing(bl: seq<nat>, done: set<nat>, d: seq<nat>, max: nat, bits: nat, n: nat) {
    && |bl| == MAXBITS + 1 && bits <= max <= MAXBITS && n <= bl[bits]
    && (forall x :: x in done ==> x < |d| && 1 <= d[x] <= max)
    && (forall b :: 1 <= b <= max ==>
          |Deepest(done, d, b)| == if b > bits then bl[b] else if b == bits then bl[b] - n else 0)
    && |done| + n + (if bits == 0 then 0 else Total(bl, bits - 1)) == Total(bl, max)
  }

  /** The leaves among the first t nodes removed have lengths of bits or more, the earlier
      ones no shorter ones. */
  ghost predicate Falling(r: seq<nat>, t: nat, maxCode: nat, d: seq<nat>, bits: nat) {
    && t <= |r| && (forall u :: 0 <= u < |r| ==> r[u] < |d|)
    && (forall u :: 0 <= u < t && r[u] <= maxCode ==> d[r[u]] >= bits)
    && (forall u, v :: 0 <= u < v < t && r[u] <= maxCode && r[v] <= maxCode ==> d[r[u]] >= d[r[v]])
  }

  lemma FallingStart(r: seq<nat>, maxCode: nat, d: seq<nat>, bits: nat)
    requires forall u :: 0 <= u < |r| ==> r[u] < |d|
    ensures Falling(r, 0, maxCode, d, bits)
  {
  }

  lemma FallingNext(r: seq<nat>, t: nat, maxCode: nat, d: seq<nat>, bits: nat)
    requires bits >= 1 && Falling(r, t, maxCode, d, bits)
    ensures Falling(r, t, maxCode, d, bits - 1)
  {
  }

  lemma FallingOne(r: seq<nat>, t: nat, maxCode: nat, d: seq<nat>, bits: nat)
    requires Falling(r, t, maxCode, d, bits) && t < |r| && Distinct(r)
    ensures Falling(r, t + 1, maxCode, if r[t] <= maxCode then d[r[t] := bits] else d, bits)
  {
  }

  lemma HandingStart(bl: seq<nat>, d: seq<nat>, max: nat)
    requires |bl| == MAXBITS + 1 && 1 <= max <= MAXBITS
    ensures Handing(bl, {}, d, max, max, bl[max])
  {
    forall b | 1 <= b <= max ensures Deepest({}, d, b) == {} { }
  }

  lemma HandingNext(bl: seq<nat>, done: set<nat>, d: seq<nat>, max: nat, bits: nat)
    requires 1 <= bits && Handing(bl, done, d, max, bits, 0)
    ensures Handing(bl, done, d, max, bits - 1, if bits == 1 then 0 else bl[bits - 1])
  {
    hide Deepest;
  }

  lemma DeepestMore(done: set<nat>, d: seq<nat>, m: nat, bits: nat, b: nat)
    requires m !in done && m < |d|
    ensures |Deepest(done + {m}, d[m := bits], b)| == |Deepest(done, d, b)| + (if b == bits then 1 else 0)
  {
    if b == bits {
      assert Deepest(done + {m}, d[m := bits], b) == Deepest(done, d, b) + {m};
    } else {
      assert Deepest(done + {m}, d[m := bits], b) == Deepest(done, d, b);
    }
  }

  lemma HandingOne(bl: seq<nat>, done: set<nat>, d: seq<nat>, max: nat, bits: nat, n: nat, m: nat)
    requires 1 <= bits && n >= 1 && Handing(bl, done, d, max, bits, n) && m !in done && m < |d|
    ensures Handing(bl, done + {m}, d[m := bits], max, bits, n - 1)
  {
    hide Deepest, Total;
    forall b | 1 <= b <= max
      ensures |Deepest(done + {m}, d[m := bits], b)| == if b > bits then bl[b]
        else if b == bits then bl[b] - (n - 1) else 0
    {
      assert |Deepest(done, d, b)| == if b > bits then bl[b] else if b == bits then bl[b] - n else 0;
      DeepestMore(done, d, m, bits, b);
    }
    assert |done + {m}| == |done| + 1;
    forall x | x in done + {m} ensures x < |d| && 1 <= d[m := bits][x] <= max { assert x != m ==> x in done; }
  }

  lemma HandingNotAll(bl: seq<nat>, done: set<nat>, d: seq<nat>, max: nat, bits: nat, n: nat, leaves: set<nat>)
    requires n >= 1 && Handing(bl, done, d, max, bits, n) && Total(bl, max) == |leaves|
    ensures done != leaves
  {
  }

  /** A node's bits change with its length. */
  lemma DynamicChange(desc: StaticDesc, freq: seq<nat>, d: seq<nat>, leaves: set<nat>, m: nat, bits: nat)
    requires |d| == |freq| && m in leaves && m < |d|
    ensures Sum(leaves, DynCosts(desc, freq, d[m := bits])) ==
      Sum(leaves, DynCosts(desc, freq, d)) + (bits - d[m]) * freq[m]
  {
    hide Sum;
    var e := d[m := bits];
    SumOut(leaves, DynCosts(desc, freq, d), m);
    SumOut(leaves, DynCosts(desc, freq, e), m);
    SumEq(leaves - {m}, DynCosts(desc, freq, d), DynCosts(desc, freq, e));
    Difference(freq[m], bits, d[m], ExtraOf(desc, m));
  }

  lemma Difference(f: nat, a: nat, b: nat, x: nat)
    ensures f * (a + x) == f * (b + x) + (a - b) * f
  {
  }

  /** Second pass: all lengths handed out anew, the longest to the least frequent leaves. */
  method HandOut(b: Builder, tree: array<CtData>, desc: StaticDesc, maxCode: nat, ghost r: seq<nat>,
                 ghost freq: seq<nat>)
    requires b.Valid() && 1 <= desc.maxLength <= MAXBITS && Stacked(b.heap[..], b.heapMax, r) && Distinct(r)
    requires tree.Length == |freq| && (forall x :: 0 <= x < tree.Length ==> tree[x].fc == freq[x])
    requires (forall x :: x in r ==> x < tree.Length) && |r| <= HEAP_SIZE
    requires Total(b.blCount[..], desc.maxLength) == |LeavesFrom(r, 0, maxCode)|
    requires Rising(r, freq)
    modifies b, tree
    ensures b.heapMax == old(b.heapMax) && b.heapLen == old(b.heapLen) && b.staticLen == old(b.staticLen)
    ensures forall x :: 0 <= x < tree.Length ==> tree[x].fc == freq[x]
    ensures forall x :: 0 <= x < tree.Length && (x > maxCode || x !in r) ==> tree[x] == old(tree[x])
    ensures Handing(b.blCount[..], LeavesFrom(r, 0, maxCode), Lens(tree[..], tree.Length), desc.maxLength, 0, 0)
    ensures Graded(LeavesFrom(r, 0, maxCode), Lens(tree[..], tree.Length), freq)
    ensures b.optLen - Sum(LeavesFrom(r, 0, maxCode), DynCosts(desc, freq, Lens(tree[..], tree.Length)))
      == old(b.optLen - Sum(LeavesFrom(r, 0, maxCode), DynCosts(desc, freq, Lens(tree[..], tree.Length))))
  {
    hide Stacked, Distinct, Handing, LeavesUpTo, LeavesFrom, Total, Sum, DynCosts, Falling, Rising, Graded;
    ghost var leaves := LeavesFrom(r, 0, maxCode);
    var h: nat := HEAP_SIZE;
    var bits := desc.maxLength;
    HandingStart(b.blCount[..], Lens(tree[..], tree.Length), desc.maxLength);
    assert forall u :: 0 <= u < |r| ==> r[u] in r;
    FallingStart(r, maxCode, Lens(tree[..], tree.Length), desc.maxLength);
    UpToStart(r, maxCode);
    while bits != 0
      invariant b.heapMax == old(b.heapMax) && b.heapLen == old(b.heapLen) && b.staticLen == old(b.staticLen)
      invariant 0 <= bits <= desc.maxLength && HEAP_SIZE - |r| <= h <= HEAP_SIZE
      invariant forall x :: 0 <= x < tree.Length ==> tree[x].fc == freq[x]
      invariant forall x :: 0 <= x < tree.Length && (x > maxCode || x !in r) ==> tree[x] == old(tree[x])
      invariant Handing(b.blCount[..], LeavesUpTo(r, HEAP_SIZE - h, maxCode), Lens(tree[..], tree.Length),
        desc.maxLength, bits,
                        if bits == 0 then 0 else b.blCount[bits])
      invariant Falling(r, HEAP_SIZE - h, maxCode, Lens(tree[..], tree.Length), bits)
      invariant b.optLen - Sum(leaves, DynCosts(desc, freq, Lens(tree[..], tree.Length)))
        == old(b.optLen - Sum(LeavesFrom(r, 0, maxCode), DynCosts(desc, freq, Lens(tree[..], tree.Length))))
    {
      h := HandOutLength(b, tree, desc, maxCode, bits, h, r, freq);
      HandingNext(b.blCount[..], LeavesUpTo(r, HEAP_SIZE - h, maxCode), Lens(tree[..], tree.Length), desc.maxLength,
        bits);
      FallingNext(r, HEAP_SIZE - h, maxCode, Lens(tree[..], tree.Length), bits);
      bits := bits - 1;
    }
    HandingAll(b.blCount[..], r, HEAP_SIZE - h, maxCode, Lens(tree[..], tree.Length), desc.maxLength);
    FallingGraded(r, HEAP_SIZE - h, maxCode, Lens(tree[..], tree.Length), freq);
  }

  /** All leaves are among the first t nodes: the rarer, the longer. */
  lemma FallingGraded(r: seq<nat>, t: nat, maxCode: nat, d: seq<nat>, freq: seq<nat>)
    requires Falling(r, t, maxCode, d, 0) && LeavesUpTo(r, t, maxCode) == LeavesFrom(r, 0, maxCode)
    requires Rising(r, freq)
    ensures Graded(LeavesFrom(r, 0, maxCode), d, freq)
  {
    forall x, y | x in LeavesFrom(r, 0, maxCode) && y in LeavesFrom(r, 0, maxCode)
      ensures x < |d| && y < |d| && x < |freq| && y < |freq| && (freq[x] < freq[y] ==> d[x] >= d[y])
    {
      var u :| 0 <= u < t && u < |r| && r[u] <= maxCode && r[u] == x;
      var v :| 0 <= v < t && v < |r| && r[v] <= maxCode && r[v] == y;
    }
  }

  lemma UpToStart(r: seq<nat>, maxCode: nat)
    ensures LeavesUpTo(r, 0, maxCode) == {}
  {
  }

  /** When everything has been handed out, no leaf is left out. */
  lemma HandingAll(bl: seq<nat>, r: seq<nat>, t: nat, maxCode: nat, d: seq<nat>, max: nat)
    requires t <= |r| && Handing(bl, LeavesUpTo(r, t, maxCode), d, max, 0, 0)
    requires Total(bl, max) == |LeavesFrom(r, 0, maxCode)|
    ensures Handing(bl, LeavesFrom(r, 0, maxCode), d, max, 0, 0)
    ensures LeavesUpTo(r, t, maxCode) == LeavesFrom(r, 0, maxCode)
  {
    UpToAll(r, t, maxCode);
    SameSize(LeavesUpTo(r, t, maxCode), LeavesFrom(r, 0, maxCode));
  }

  lemma SameSize(a: set<nat>, b: set<nat>)
    requires a <= b && |a| == |b|
    ensures a == b
  {
    if x :| x in b && x !in a {
      CardMono(a, b - {x});
    }
  }

  /** The leaves of one length. */
  method HandOutLength(b: Builder, tree: array<CtData>, desc: StaticDesc, maxCode: nat, bits: nat, h0: nat,
                       ghost r: seq<nat>, ghost freq: seq<nat>) returns (h: nat)
    requires b.Valid() && 1 <= bits <= desc.maxLength <= MAXBITS && Stacked(b.heap[..], b.heapMax, r) && Distinct(r)
    requires tree.Length == |freq| && (forall x :: 0 <= x < tree.Length ==> tree[x].fc == freq[x])
    requires (forall x :: x in r ==> x < tree.Length) && 0 <= HEAP_SIZE - |r| <= h0 <= HEAP_SIZE
    requires Total(b.blCount[..], desc.maxLength) == |LeavesFrom(r, 0, maxCode)|
    requires Handing(b.blCount[..], LeavesUpTo(r, HEAP_SIZE - h0, maxCode), Lens(tree[..], tree.Length), desc.maxLength,
      bits, b.blCount[bits])
    requires Falling(r, HEAP_SIZE - h0, maxCode, Lens(tree[..], tree.Length), bits)
    modifies b, tree
    ensures HEAP_SIZE - |r| <= h <= HEAP_SIZE
    ensures b.heapMax == old(b.heapMax) && b.heapLen == old(b.heapLen) && b.staticLen == old(b.staticLen)
    ensures forall x :: 0 <= x < tree.Length ==> tree[x].fc == freq[x]
    ensures forall x :: 0 <= x < tree.Length && (x > maxCode || x !in r) ==> tree[x] == old(tree[x])
    ensures Handing(b.blCount[..], LeavesUpTo(r, HEAP_SIZE - h, maxCode), Lens(tree[..], tree.Length), desc.maxLength,
      bits, 0)
    ensures Falling(r, HEAP_SIZE - h, maxCode, Lens(tree[..], tree.Length), bits)
    ensures b.optLen - Sum(LeavesFrom(r, 0, maxCode), DynCosts(desc, freq, Lens(tree[..], tree.Length)))
      == old(b.optLen - Sum(LeavesFrom(r, 0, maxCode), DynCosts(desc, freq, Lens(tree[..], tree.Length))))
  {
    hide Stacked, Distinct, Handing, LeavesUpTo, LeavesFrom, Total, Sum, DynCosts, Falling, Rising, Graded;
    h := h0;
    var n := b.blCount[bits];
    ghost var leaves := LeavesFrom(r, 0, maxCode);
    UpToAll(r, |r|, maxCode);
    while n != 0
      invariant b.heapMax == old(b.heapMax) && b.heapLen == old(b.heapLen) && b.staticLen == old(b.staticLen)
      invariant HEAP_SIZE - |r| <= h <= HEAP_SIZE
      invariant forall x :: 0 <= x < tree.Length ==> tree[x].fc == freq[x]
      invariant forall x :: 0 <= x < tree.Length && (x > maxCode || x !in r) ==> tree[x] == old(tree[x])
      invariant Handing(b.blCount[..], LeavesUpTo(r, HEAP_SIZE - h, maxCode), Lens(tree[..], tree.Length),
        desc.maxLength, bits, n)
      invariant Falling(r, HEAP_SIZE - h, maxCode, Lens(tree[..], tree.Length), bits)
      invariant b.optLen - Sum(leaves, DynCosts(desc, freq, Lens(tree[..], tree.Length)))
        == old(b.optLen - Sum(LeavesFrom(r, 0, maxCode), DynCosts(desc, freq, Lens(tree[..], tree.Length))))
      decreases h
    {
      ghost var t := HEAP_SIZE - h;
      HandingNotAll(b.blCount[..], LeavesUpTo(r, t, maxCode), Lens(tree[..], tree.Length), desc.maxLength, bits, n,
        leaves);
      assert t < |r|;
      UpToStep(r, t, maxCode);
      h := h - 1;
      var m := b.heap[h];
      NodeAt(b.heap[..], b.heapMax, r, t);
      assert m == r[t] && m in r;
      FallingOne(r, t, maxCode, Lens(tree[..], tree.Length), bits);
      if m > maxCode { continue; }
      ghost var was, d := tree[..], Lens(tree[..], tree.Length);
      HandingOne(b.blCount[..], LeavesUpTo(r, t, maxCode), d, desc.maxLength, bits, n, m);
      if tree[m].dl != bits {
        DynamicChange(desc, freq, d, leaves, m, bits);
        b.optLen := b.optLen + (bits - tree[m].dl) * tree[m].fc;
        tree[m] := tree[m].(dl := bits);
      }
      assert Lens(tree[..], tree.Length) == d[m := bits];
      n := n - 1;
    }
  }

  // ------------------------------------------------------------- gen_bitlen

  /** The symbols with a length are the leaves, and d is that length. */
  ghost predicate LengthsOf(lens: seq<nat>, leaves: set<nat>, d: seq<nat>, max: nat) {
    && (forall x :: x in leaves ==> x < |lens| && x < |d| && lens[x] == d[x] && 1 <= d[x] <= max)
    && (forall x :: 0 <= x < |lens| && x !in leaves ==> lens[x] == 0)
  }

  lemma {:induction false} ScaledIsUsed(bl: seq<nat>, lens: seq<nat>, n: nat)
    requires n < |bl| && forall l :: 1 <= l <= n ==> bl[l] == Count(lens, l)
    ensures Scaled(bl, n) == Used(lens, n)
  {
    hide Count;
    if n > 0 { ScaledIsUsed(bl, lens, n - 1); }
  }

  lemma {:induction false} TotalIsSize(bl: seq<nat>, lens: seq<nat>, n: nat)
    requires n < |bl| && forall l :: 1 <= l <= n ==> bl[l] == Count(lens, l)
    ensures Total(bl, n) == |InUse(lens, n)|
  {
    hide Count;
    if n > 0 {
      TotalIsSize(bl, lens, n - 1);
      CountIsSize(lens, n);
      assert InUse(lens, n) == InUse(lens, n - 1) + Exactly(lens, n);
    } else {
      assert InUse(lens, 0) == {};
    }
  }

  /** Leaf counts are length counts; their Kraft sum is that of the leaves. */
  lemma CountsAgree(bl: seq<nat>, lens: seq<nat>, leaves: set<nat>, d: seq<nat>, max: nat)
    requires max <= MAXBITS && LengthsOf(lens, leaves, d, max) && LeafCounts(bl, leaves, d)
    ensures bl[0] == 0 && (forall l :: 1 <= l <= MAXBITS ==> bl[l] == Count(lens, l))
    ensures forall l :: max < l <= MAXBITS ==> Count(lens, l) == 0
    ensures Scaled(bl, max) == Used(lens, max) == Kraft(leaves, d, max) && Total(bl, max) == |leaves|
  {
    hide Sum, Used, Count, Scaled, Total, Share;
    forall l | 0 <= l <= MAXBITS
      ensures l > 0 ==> bl[l] == Count(lens, l)
      ensures l == 0 || l > max ==> bl[l] == 0
    {
      CountIsSize(lens, l);
      if l > 0 { assert Exactly(lens, l) == Deepest(leaves, d, l); }
      if l == 0 || l > max { assert Deepest(leaves, d, l) == {}; }
    }
    ScaledIsUsed(bl, lens, max);
    TotalIsSize(bl, lens, max);
    assert InUse(lens, max) == leaves;
    UsedIsKraft(lens, max);
    SumEq(leaves, Shares(lens, max), Shares(d, max));
  }

  /** Lengths gone through as a whole: those of a complete code. */
  lemma CompleteFrom(lens: seq<nat>, max: nat)
    requires max <= MAXBITS && Used(lens, max) == Pow2(max)
    requires forall l :: max < l <= MAXBITS ==> Count(lens, l) == 0
    ensures Complete(lens)
  {
    UsedJump(lens, max, MAXBITS);
    Pow2Sum(max, MAXBITS - max);
    assert max + (MAXBITS - max) == MAXBITS;
  }

  lemma {:induction false} SizeBound(a: set<nat>, n: nat)
    requires forall x :: x in a ==> x < n
    ensures |a| <= n
    decreases n
  {
    if n > 0 {
      SizeBound(a - {n - 1}, n - 1);
      assert n - 1 in a ==> a == (a - {n - 1}) + {n - 1};
      assert n - 1 !in a ==> a == a - {n - 1};
    }
  }

  /** What the leaves' lengths must be. */
  ghost predicate GoodLengths(lens: seq<nat>, leaves: set<nat>, max: nat) {
    && (forall x :: 0 <= x < |lens| ==> lens[x] <= max && (lens[x] != 0 <==> x in leaves))
    && Complete(lens)
  }

  lemma DepthsReady(b: Builder, tree: seq<CtData>, desc: StaticDesc, maxCode: nat, g: Merges, d: seq<nat>)
    requires b.Valid() && DescOk(desc) && maxCode < desc.elems == g.elems && |g.acts| >= 2
    requires Distinct(g.removed) && DescendsFrom(g, d, desc.maxLength, 0)
    requires Stacked(b.heap[..], b.heapMax, g.removed) && |tree| == |g.freq|
    requires forall x :: 0 <= x < |tree| ==> tree[x].fc == g.freq[x]
    requires forall u :: 0 <= u < |g.removed| && g.removed[u] < |tree| ==>
      tree[g.removed[u]].dl == g.elems + u / 2 || u == |g.removed| - 1
    ensures g.elems < |g.freq| && 7 <= desc.maxLength <= MAXBITS && forall x :: x in g.removed ==> x < |g.freq|
    ensures |d| == |g.freq| && Descends(g, d, desc.maxLength) && Ready(b, tree, desc, maxCode, g, d, |g.removed|)
  {
    hide OneMerge, Sons;
  }

  lemma NotRemoved(r: seq<nat>, maxCode: nat)
    ensures forall x :: 0 <= x <= maxCode && x !in LeavesFrom(r, 0, maxCode) ==> x !in r
    ensures forall x :: x in LeavesFrom(r, 0, maxCode) ==> x in r
  {
  }

  lemma FirstLengths(tree: seq<CtData>, g: Merges, d: seq<nat>, desc: StaticDesc, maxCode: nat, leaves: set<nat>)
    requires Descends(g, d, desc.maxLength) && Linked(tree, g, d, 0) && maxCode < |tree| && |g.acts| >= 2
    requires leaves == g.acts[0] == LeavesFrom(g.removed, 0, maxCode) && forall x :: x in leaves ==> x <= maxCode
    requires forall x :: 0 <= x <= maxCode && x !in leaves ==> tree[x].dl == 0
    ensures LengthsOf(Lens(tree, maxCode + 1), leaves, d, desc.maxLength)
    ensures forall x :: x in leaves ==> x < |d| && tree[x].dl == d[x]
  {
    hide OneMerge, Sons;
    LengthsWithin(g, d, desc.maxLength, 0);
    forall x | x in leaves ensures x < |d| && tree[x].dl == d[x] && 1 <= d[x] <= desc.maxLength {
      var u :| 0 <= u < |g.removed| && g.removed[u] <= maxCode && g.removed[u] == x;
    }
  }

  lemma SameDynamic(desc: StaticDesc, freq: seq<nat>, leaves: set<nat>, d: seq<nat>, e: seq<nat>)
    requires |d| == |freq| == |e| && forall x :: x in leaves ==> x < |d| && d[x] == e[x]
    ensures Sum(leaves, DynCosts(desc, freq, d)) == Sum(leaves, DynCosts(desc, freq, e))
  {
    hide Sum;
    SumEq(leaves, DynCosts(desc, freq, d), DynCosts(desc, freq, e));
  }

  lemma SameOptimal(leaves: set<nat>, d: seq<nat>, e: seq<nat>, freq: seq<nat>)
    requires |d| == |freq| == |e| && (forall x :: x in leaves ==> x < |d| && d[x] == e[x]) && Optimal(leaves, d, freq)
    ensures Optimal(leaves, e, freq)
  {
    hide Sum, PrefixCode;
    SumEq(leaves, Costs(d, freq), Costs(e, freq));
  }

  lemma GoodFrom(lens: seq<nat>, leaves: set<nat>, d: seq<nat>, max: nat)
    requires LengthsOf(lens, leaves, d, max) && Complete(lens)
    ensures GoodLengths(lens, leaves, max)
  {
  }

  lemma LengthsAttain(lens: seq<nat>, leaves: set<nat>, d: seq<nat>, e: seq<nat>, freq: seq<nat>, max: nat)
    requires LengthsOf(lens, leaves, d, max) && Kraft(leaves, d, max) == Pow2(max) && |d| == |e| == |freq|
    requires forall x :: x in leaves ==> d[x] == e[x]
    ensures Optimal(leaves, e, freq) ==> Attainable(leaves, freq, max)
  {
    hide Sum, Optimal, Attainable, Share, Pow2;
    SumEq(leaves, Shares(d, max), Shares(e, max));
    Attains(leaves, e, freq, max);
  }

  lemma LeavesFew(desc: StaticDesc, leaves: set<nat>, maxCode: nat)
    requires DescOk(desc) && maxCode < desc.elems && forall x :: x in leaves ==> x <= maxCode
    ensures |leaves| <= Pow2(desc.maxLength) && 7 <= desc.maxLength <= MAXBITS
  {
    hide Pow2;
    SizeBound(leaves, maxCode + 1);
  }

  lemma AtLimit(bl: seq<nat>, leaves: set<nat>, d: seq<nat>, max: nat)
    requires LeafCounts(bl, leaves, d) && max <= MAXBITS
    ensures bl[max] == |Deepest(leaves, d, max)|
  {
  }

  lemma HandedOut(bl: seq<nat>, lens: seq<nat>, leaves: set<nat>, d: seq<nat>, max: nat)
    requires Handing(bl, leaves, d, max, 0, 0) && |lens| <= |d| && (forall x :: 0 <= x < |lens| ==> lens[x] == d[x])
    requires forall x :: 0 <= x < |lens| && x !in leaves ==> lens[x] == 0
    requires (forall x :: x in leaves ==> x < |lens|) && bl[0] == 0 && forall b :: max < b <= MAXBITS ==> bl[b] == 0
    ensures LengthsOf(lens, leaves, d, max) && LeafCounts(bl, leaves, d)
  {
    hide Total;
    forall b | 0 <= b <= MAXBITS ensures bl[b] == |Deepest(leaves, d, b)| {
      if b == 0 || b > max { assert Deepest(leaves, d, b) == {}; }
    }
  }

  /** The counts are those of the depths cut at the limit, repaired as often as needed. */
  ghost predicate RepairedDepths(g: Merges, leaves: set<nat>, now: seq<nat>, max: nat) {
    exists d: seq<nat>, bl: seq<nat> ::
      && Descends(g, d, max) && LeafCounts(bl, leaves, d) && |bl| == |now|
      && Repairs(bl, now, max, TooDeep(g, d, max, 0))
  }

  lemma RepairedNow(g: Merges, leaves: set<nat>, d: seq<nat>, bl: seq<nat>, now: seq<nat>, max: nat)
    requires Descends(g, d, max) && LeafCounts(bl, leaves, d) && |bl| == |now|
    requires Repairs(bl, now, max, TooDeep(g, d, max, 0))
    ensures RepairedDepths(g, leaves, now, max)
  {
    hide Descends, LeafCounts, Repairs, TooDeep;
  }

  /** No father was too deep: the lengths are the depths. */
  lemma NotLimited(g: Merges, d: seq<nat>, max: nat, lens: seq<nat>, full: seq<nat>)
    requires Descends(g, d, max) && TooDeep(g, d, max, 0) == 0 && max <= MAXBITS && |full| == |d|
    requires LengthsOf(lens, g.acts[0], d, max) && (forall x :: x in g.acts[0] ==> x < |d| && full[x] == d[x])
    requires Kraft(g.acts[0], d, max) == Used(lens, max) == Pow2(max)
    requires forall l :: max < l <= MAXBITS ==> Count(lens, l) == 0
    ensures GoodLengths(lens, g.acts[0], max) && Finest(g.acts[0], full, g.freq, max)
    ensures Graded(g.acts[0], full, g.freq)
  {
    hide OneMerge, SonsAt, TooDeep, Sum, Kraft, Used, Count, Pow2, Optimal, Attainable, Rare, GoodLengths, Complete;
    hide LengthsOf, Finest, Graded;
    DepthsBest(g, d, max);
    DepthsGraded(g, d, max);
    SameGraded(g.acts[0], d, full, g.freq);
    SameOptimal(g.acts[0], d, full, g.freq);
    LengthsAttain(lens, g.acts[0], d, full, g.freq, max);
    FinestNow(g.acts[0], full, g.freq, max);
    CompleteFrom(lens, max);
    GoodFrom(lens, g.acts[0], d, max);
  }

  lemma DepthsGraded(g: Merges, d: seq<nat>, max: nat)
    requires Descends(g, d, max) && TooDeep(g, d, max, 0) == 0
    requires Kraft(g.acts[0], d, max) == Pow2(max)
    ensures Graded(g.acts[0], d, g.freq)
  {
    hide OneMerge, SonsAt, TooDeep, Kraft, Cost, Pow2, Graded, AtLeast;
    CostOfDepths(g, d, max, 0);
    BoundHolds(g, 0, max);
    LengthsWithin(g, d, max, 0);
    assert Feasible(g.acts[0], d, max);
    BestGraded(g.acts[0], d, g.freq, max);
  }

  lemma SameGraded(a: set<nat>, d: seq<nat>, e: seq<nat>, freq: seq<nat>)
    requires Graded(a, d, freq) && |e| == |d| && forall x :: x in a ==> x < |d| && e[x] == d[x]
    ensures Graded(a, e, freq)
  {
  }

  /** Some were: the lengths have been repaired. */
  lemma Limited(leaves: set<nat>, max: nat, lens: seq<nat>, full: seq<nat>, freq: seq<nat>)
    requires LengthsOf(lens, leaves, full, max) && max <= MAXBITS && |full| == |freq|
    requires Kraft(leaves, full, max) == Used(lens, max) == Pow2(max)
    requires forall l :: max < l <= MAXBITS ==> Count(lens, l) == 0
    requires !Attainable(leaves, freq, max) && !Rare(leaves, freq, max)
    ensures GoodLengths(lens, leaves, max) && Finest(leaves, full, freq, max)
  {
    hide Sum, Kraft, Used, Count, Pow2, Optimal, Attainable, Rare, GoodLengths, Complete, LengthsOf, Finest;
    CompleteFrom(lens, max);
    GoodFrom(lens, leaves, full, max);
    LengthsAttain(lens, leaves, full, full, freq, max);
    FinestNow(leaves, full, freq, max);
  }

  /** The counts repaired and the lengths handed out anew. */
  method LimitAll(b: Builder, tree: array<CtData>, desc: StaticDesc, maxCode: nat, ghost g: Merges,
                  ghost leaves: set<nat>, ghost d: seq<nat>, overflow: nat)
    requires b.Valid() && DescOk(desc) && maxCode < desc.elems == g.elems && |g.acts| >= 2
    requires ValidMerges(g) && Distinct(g.removed) && Stacked(b.heap[..], b.heapMax, g.removed)
    requires tree.Length == |g.freq| <= HEAP_SIZE && |g.removed| <= HEAP_SIZE
    requires forall x :: 0 <= x < tree.Length ==> tree[x].fc == g.freq[x]
    requires leaves == g.acts[0] == LeavesFrom(g.removed, 0, maxCode) && forall x :: x in leaves ==> x <= maxCode
    requires maxCode < tree.Length && forall x :: x in g.removed ==> x < tree.Length
    requires Levelled(g, b.depth[..]) && Descends(g, d, desc.maxLength)
    requires overflow == 2 * TooDeep(g, d, desc.maxLength, 0) > 0 && LeafCounts(b.blCount[..], leaves, d)
    requires LengthsOf(Lens(tree[..], maxCode + 1), leaves, d, desc.maxLength)
    modifies b, b.blCount, tree
    ensures forall x :: 0 <= x < tree.Length ==> tree[x].fc == g.freq[x]
    ensures forall x :: 0 <= x < tree.Length && (x > maxCode || x !in g.removed) ==> tree[x] == old(tree[x])
    ensures GoodLengths(Lens(tree[..], maxCode + 1), leaves, desc.maxLength)
    ensures b.blCount[0] == 0 && forall l :: 1 <= l <= MAXBITS ==> b.blCount[l] == Count(Lens(tree[..], maxCode + 1), l)
    ensures b.staticLen == old(b.staticLen)
    ensures b.optLen - Sum(leaves, DynCosts(desc, g.freq, Lens(tree[..], tree.Length)))
      == old(b.optLen - Sum(leaves, DynCosts(desc, g.freq, Lens(tree[..], tree.Length))))
    ensures Finest(leaves, Lens(tree[..], tree.Length), g.freq, desc.maxLength)
    ensures Graded(leaves, Lens(tree[..], tree.Length), g.freq)
    ensures RepairedDepths(g, leaves, b.blCount[..], desc.maxLength)
  {
    hide Descends, ValidMerges, Distinct, Stacked, LeafCounts, LeavesFrom, Sum, Deepest, DescOk, DynCosts, Handing;
    hide StatCosts, Levelled, Attainable, Rare, Finest, Graded, Rising, Repairs, RepairedDepths, LengthsOf;
    hide Scaled, Total, Used, Count, Kraft, Pow2, Optimal, GoodLengths, Complete, TooDeep;
    var max := desc.maxLength;
    LeavesFew(desc, leaves, maxCode);
    ghost var lens, bl := Lens(tree[..], maxCode + 1), b.blCount[..];
    CountsAgree(bl, lens, leaves, d, max);
    NoLengths(lens, leaves, d, max);
    KraftOfDepths(g, d, max, 0);
    LimitNeeded(g, b.depth[..], d, max);
    EnoughAtMax(g, d, max, 0);
    AtLimit(bl, leaves, d, max);
    LimitLengths(b.blCount, max, overflow);
    RepairedNow(g, leaves, d, bl, b.blCount[..], max);
    RemovedRising(g);
    HandOut(b, tree, desc, maxCode, g.removed, g.freq);
    ghost var lens' := Lens(tree[..], maxCode + 1);
    NotRemoved(g.removed, maxCode);
    HandedOut(b.blCount[..], lens', leaves, Lens(tree[..], tree.Length), max);
    CountsAgree(b.blCount[..], lens', leaves, Lens(tree[..], tree.Length), max);
    Limited(leaves, max, lens', Lens(tree[..], tree.Length), g.freq);
  }

  lemma NoLengths(lens: seq<nat>, leaves: set<nat>, d: seq<nat>, max: nat)
    requires LengthsOf(lens, leaves, d, max)
    ensures forall x :: 0 <= x < |lens| && x !in leaves ==> lens[x] == 0
    ensures forall x :: x in leaves ==> x < |lens|
  {
  }

  /** gen_bitlen: lengths of a complete code for exactly the leaves, at most maxLength
      long, whose counts and costs are recorded; they are best whenever any lengths within
      the limit are, and so whenever the symbols are rare. */
  method GenBitlen(b: Builder, tree: array<CtData>, desc: StaticDesc, maxCode: nat, ghost g: Merges,
                   ghost leaves: set<nat>)
    requires b.Valid() && DescOk(desc) && maxCode < desc.elems == g.elems && |g.acts| >= 2
    requires ValidMerges(g) && Distinct(g.removed) && |g.removed| == 2 * |g.acts| - 1
    requires Stacked(b.heap[..], b.heapMax, g.removed) && tree.Length == |g.freq|
    requires forall x :: 0 <= x < tree.Length ==> tree[x].fc == g.freq[x]
    requires forall u :: 0 <= u < |g.removed| ==> tree[g.removed[u]].dl == g.elems + u / 2 || u == |g.removed| - 1
    requires leaves == g.acts[0] == LeavesFrom(g.removed, 0, maxCode) && forall x :: x in leaves ==> x <= maxCode
    requires forall x :: 0 <= x <= maxCode && x !in leaves ==> tree[x].dl == 0
    requires Levelled(g, b.depth[..]) && tree.Length <= HEAP_SIZE
    modifies b, b.blCount, tree
    ensures forall x :: 0 <= x < tree.Length ==> tree[x].fc == g.freq[x]
    ensures forall x :: maxCode < x < tree.Length && x !in g.removed ==> tree[x] == old(tree[x])
    ensures GoodLengths(Lens(tree[..], maxCode + 1), leaves, desc.maxLength)
    ensures b.blCount[0] == 0 && forall l :: 1 <= l <= MAXBITS ==> b.blCount[l] == Count(Lens(tree[..], maxCode + 1), l)
    ensures b.optLen == old(b.optLen) + Sum(leaves, DynCosts(desc, g.freq, Lens(tree[..], tree.Length)))
    ensures b.staticLen == old(b.staticLen) + Sum(leaves, StatCosts(desc, g.freq))
    ensures Finest(leaves, Lens(tree[..], tree.Length), g.freq, desc.maxLength)
    ensures Graded(leaves, Lens(tree[..], tree.Length), g.freq)
    ensures RepairedDepths(g, leaves, b.blCount[..], desc.maxLength)
  {
    hide Descends, ValidMerges, Distinct, Stacked, LeafCounts, LeavesFrom, Sum, Clamped, Deepest, DescOk, DynCosts;
    hide StatCosts, Handing, Levelled, Attainable, Rare, Finest, Graded, Rising, Repairs, RepairedDepths;
    hide Scaled, Total, Used, Count, Kraft, Pow2, Optimal, GoodLengths, Complete, LengthsOf, TooDeep;
    for bits := 0 to MAXBITS + 1
      invariant forall i :: 0 <= i < bits ==> b.blCount[i] == 0
      modifies b.blCount
    {
      b.blCount[bits] := 0;
    }
    var max := desc.maxLength;
    NotRemoved(g.removed, maxCode);
    ghost var d := DepthsExist(g, max, 0);
    DepthsReady(b, tree[..], desc, maxCode, g, d);
    var overflow := FirstPass(b, tree, desc, maxCode, g, d);
    ClampedPairs(g, d, max, 0);
    ghost var lens := Lens(tree[..], maxCode + 1);
    FirstLengths(tree[..], g, d, desc, maxCode, leaves);
    CountsAgree(b.blCount[..], lens, leaves, d, max);
    KraftOfDepths(g, d, max, 0);
    SameDynamic(desc, g.freq, leaves, d, Lens(tree[..], tree.Length));
    if overflow == 0 {
      NotLimited(g, d, max, lens, Lens(tree[..], tree.Length));
      NoRepair(b.blCount[..], max);
      RepairedNow(g, leaves, d, b.blCount[..], b.blCount[..], max);
      return;
    }
    LimitAll(b, tree, desc, maxCode, g, leaves, d, overflow);
  }
}
