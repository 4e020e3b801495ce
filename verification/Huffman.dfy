/** What merging the two least frequent nodes over and over achieves: the theory
behind build_tree and the first pass of gen_bitlen in trees.c. */
module Huffman {
  import opened Bits
  import opened Sums

  /** A run of the merge loop: removed[2 i] and removed[2 i + 1] are merged into node
      elems + i, acts[i] are the nodes in the heap before that, freq is of all nodes. */
  datatype Merges = Merges(elems: nat, removed: seq<nat>, acts: seq<set<nat>>, freq: seq<nat>)

  ghost predicate OneMerge(act: set<nat>, next: set<nat>, a: nat, b: nat, c: nat, freq: seq<nat>) {
    && a in act && b in act && a != b && c !in act
    && next == act - {a, b} + {c}
    && (forall x :: x in act || x == c ==> x < |freq|)
    && freq[c] == freq[a] + freq[b] && freq[a] <= freq[b]
    && (forall x :: x in act && x != a ==> freq[b] <= freq[x])
  }

  ghost predicate ValidMerges(g: Merges) {
    && |g.acts| >= 1 && |g.removed| == 2 * |g.acts| - 1
    && g.acts[|g.acts| - 1] == {g.removed[2 * |g.acts| - 2]}
    && (forall i {:trigger g.acts[i]} :: 0 <= i < |g.acts| - 1 ==>
          OneMerge(g.acts[i], g.acts[i + 1], g.removed[2 * i], g.removed[2 * i + 1], g.elems + i, g.freq))
    && (forall t :: 0 <= t < |g.removed| ==> g.removed[t] < |g.freq|)
    && g.elems + |g.acts| - 1 <= |g.freq|
  }

  /** Total frequency of the nodes made by merges from i on. */
  ghost function Merged(g: Merges, i: nat): nat
    requires ValidMerges(g) && i < |g.acts|
    decreases |g.acts| - i
  {
    if i == |g.acts| - 1 then 0 else g.freq[g.elems + i] + Merged(g, i + 1)
  }

  // --------------------------------------------------------- lengths and costs

  /** What a code of len bits takes up, in units of 2^-n. */
  function Share(len: nat, n: nat): nat {
    if len <= n then Pow2(n - len) else 0
  }

  ghost function Shares(len: seq<nat>, n: nat): (r: seq<nat>)
    ensures |r| == |len| && forall x :: 0 <= x < |r| ==> r[x] == Share(len[x], n)
  {
    seq(|len|, x requires 0 <= x < |len| => Share(len[x], n))
  }

  ghost function Costs(len: seq<nat>, freq: seq<nat>): (r: seq<nat>)
    requires |len| == |freq|
    ensures |r| == |len| && forall x :: 0 <= x < |r| ==> r[x] == freq[x] * len[x]
  {
    seq(|len|, x requires 0 <= x < |len| => freq[x] * len[x])
  }

  ghost function Kraft(a: set<nat>, len: seq<nat>, n: nat): nat {
    Sum(a, Shares(len, n))
  }

  ghost function Cost(a: set<nat>, len: seq<nat>, freq: seq<nat>): nat
    requires |len| == |freq|
  {
    Sum(a, Costs(len, freq))
  }

  /** Lengths of at most n bits that a prefix code can have. */
  ghost predicate Feasible(a: set<nat>, len: seq<nat>, n: nat) {
    (forall x :: x in a ==> x < |len| && len[x] <= n) && Kraft(a, len, n) <= Pow2(n)
  }

  function Swapped(len: seq<nat>, x: nat, y: nat): seq<nat>
    requires x < |len| && y < |len|
  {
    len[x := len[y]][y := len[x]]
  }

  /** Exchanging two lengths keeps the Kraft sum. */
  lemma SwapFeasible(a: set<nat>, len: seq<nat>, n: nat, x: nat, y: nat)
    requires x in a && y in a && x != y && Feasible(a, len, n)
    ensures Feasible(a, Swapped(len, x, y), n)
  {
    hide Share, Sum;
    var l := Swapped(len, x, y);
    SumTwo(a, Shares(len, n), x, y);
    SumTwo(a, Shares(l, n), x, y);
    SumEq(a - {x, y}, Shares(len, n), Shares(l, n));
  }

  /** It does not add to the cost if the longer one goes to the less frequent node. */
  lemma SwapCost(a: set<nat>, len: seq<nat>, freq: seq<nat>, x: nat, y: nat)
    requires x in a && y in a && x != y && |len| == |freq| && x < |len| && y < |len|
    requires len[x] <= len[y] && freq[x] <= freq[y]
    ensures Cost(a, Swapped(len, x, y), freq) <= Cost(a, len, freq)
  {
    hide Sum;
    var l := Swapped(len, x, y);
    SumTwo(a, Costs(len, freq), x, y);
    SumTwo(a, Costs(l, freq), x, y);
    SumEq(a - {x, y}, Costs(len, freq), Costs(l, freq));
    Rearrange(freq[x], freq[y], len[x], len[y]);
  }

  lemma Rearrange(f: nat, g: nat, l: nat, m: nat)
    requires f <= g && l <= m
    ensures f * m + g * l <= f * l + g * m
  {
    assert (g - f) * (m - l) >= 0;
    assert (g - f) * (m - l) == g * m - g * l - f * m + f * l;
  }

  lemma ScaleShare(l: nat, k: nat, n: nat)
    requires l <= k <= n
    ensures Share(l, n) == Pow2(n - k) * Share(l, k)
  {
    Pow2Sum(n - k, k - l);
    assert n - k + (k - l) == n - l;
  }

  /** The other lengths leave room for a as long as the longest of them. */
  lemma RoomForLongest(act: set<nat>, len: seq<nat>, n: nat, a: nat, b: nat)
    requires a in act && b in act && a != b && Feasible(act, len, n) && len[b] <= len[a]
    requires forall x :: x in act && x != a ==> len[x] <= len[b]
    ensures 1 <= len[b] && Feasible(act, len[a := len[b]], n)
  {
    hide Share, Sum, Pow2;
    var k, rest := len[b], act - {a};
    var q := Pow2(n - k);
    forall x | x in rest ensures Shares(len, n)[x] == q * Shares(len, k)[x] { ScaleShare(len[x], k, n); }
    SumScale(rest, Shares(len, k), Shares(len, n), q);
    SumOut(act, Shares(len, n), a);
    SumOut(rest, Shares(len, k), b);
    RoomLeft(n, k, len[a], Sum(rest, Shares(len, k)), Sum(rest - {b}, Shares(len, k)));
    var l := len[a := k];
    SumOut(act, Shares(l, n), a);
    SumEq(rest, Shares(len, n), Shares(l, n));
  }

  lemma RoomLeft(n: nat, k: nat, la: nat, sum: nat, others: nat)
    requires k <= la <= n && Share(la, n) + Pow2(n - k) * sum <= Pow2(n)
    requires sum == Share(k, k) + others
    ensures 1 <= k && Share(k, n) + Pow2(n - k) * sum <= Pow2(n)
  {
    Pow2Sum(n - k, k);
    assert n - k + k == n;
    Rounding(Pow2(n - k), sum, Pow2(k), Share(la, n));
  }

  lemma Rounding(q: nat, s: nat, p: nat, extra: nat)
    requires extra >= 1 && extra + q * s <= q * p
    ensures s < p && q + q * s <= q * p
  {
    if s >= p {
      MulMono(p, s, q);
    } else {
      MulMono(s + 1, p, q);
    }
  }

  /** The two least frequent nodes, given the two longest lengths. */
  lemma LongestToRarest(act: set<nat>, next: set<nat>, a: nat, b: nat, c: nat, freq: seq<nat>, len: seq<nat>, n: nat)
    returns (l: seq<nat>)
    requires OneMerge(act, next, a, b, c, freq) && |len| == |freq| && Feasible(act, len, n)
    ensures |l| == |freq| && Feasible(act, l, n) && Cost(act, l, freq) <= Cost(act, len, freq)
    ensures l[b] <= l[a] && forall x :: x in act && x != a ==> l[x] <= l[b]
  {
    hide Sum, Cost, Kraft;
    var x := ArgMax(act, len);
    l := len;
    if x != a {
      SwapFeasible(act, l, n, a, x);
      SwapCost(act, l, freq, a, x);
      l := Swapped(l, a, x);
    }
    assert forall z :: z in act ==> l[z] <= l[a];
    assert b in act - {a};
    var y := ArgMax(act - {a}, l);
    assert forall z :: z in act && z != a ==> l[z] <= l[y] by {
      forall z | z in act && z != a ensures l[z] <= l[y] { assert z in act - {a}; }
    }
    if y != b {
      SwapFeasible(act, l, n, b, y);
      SwapCost(act, l, freq, b, y);
      l := Swapped(l, b, y);
    }
  }

  lemma MergeTwo(fa: nat, fb: nat, la: nat, k: nat)
    requires 1 <= k <= la
    ensures (fa + fb) * (k - 1) + (fa + fb) <= fa * la + fb * k
  {
    assert fa * (la - k) >= 0;
    assert fa * la - fa * k == fa * (la - k);
  }

  /** The two longest lengths merged: the father's length is one less than the second. */
  lemma MergeLongest(act: set<nat>, next: set<nat>, a: nat, b: nat, c: nat, freq: seq<nat>, l: seq<nat>, n: nat)
    returns (l': seq<nat>)
    requires OneMerge(act, next, a, b, c, freq) && |l| == |freq| && Feasible(act, l, n)
    requires l[b] <= l[a] && forall x :: x in act && x != a ==> l[x] <= l[b]
    ensures 1 <= l[b] && l' == l[a := l[b]][c := l[b] - 1]
    ensures |l'| == |freq| && Feasible(next, l', n) && Cost(next, l', freq) + freq[c] <= Cost(act, l, freq)
  {
    hide Share, Sum, Pow2;
    RoomForLongest(act, l, n, a, b);
    var k := l[b];
    var m := l[a := k];
    l' := m[c := k - 1];
    var rest := act - {a, b};
    SumTwo(act, Shares(m, n), a, b);
    SumEq(rest, Shares(m, n), Shares(l', n));
    SumIn(rest, Shares(l', n), c);
    HalfShare(k, n);
    SumTwo(act, Costs(l, freq), a, b);
    SumEq(rest, Costs(l, freq), Costs(l', freq));
    SumIn(rest, Costs(l', freq), c);
    MergeTwo(freq[a], freq[b], l[a], k);
  }

  /** A merge makes the problem smaller at the price of the merged frequency: lengths for
      the nodes before it give lengths for the nodes after it that cost that much less. */
  lemma MergeSaves(act: set<nat>, next: set<nat>, a: nat, b: nat, c: nat, freq: seq<nat>, len: seq<nat>, n: nat)
    returns (l': seq<nat>)
    requires OneMerge(act, next, a, b, c, freq) && |len| == |freq| && Feasible(act, len, n)
    ensures |l'| == |freq| && Feasible(next, l', n) && Cost(next, l', freq) + freq[c] <= Cost(act, len, freq)
  {
    hide Cost, Kraft;
    var l := LongestToRarest(act, next, a, b, c, freq, len, n);
    l' := MergeLongest(act, next, a, b, c, freq, l, n);
  }

  lemma HalfShare(k: nat, n: nat)
    requires 1 <= k <= n
    ensures Share(k - 1, n) == 2 * Share(k, n)
  {
  }

  /** Whatever the lengths of the nodes before merge i, they cost at least all the
      frequencies merged from then on. */
  lemma {:induction false} MergedBound(g: Merges, i: nat, len: seq<nat>, n: nat)
    requires ValidMerges(g) && i < |g.acts| && |len| == |g.freq| && Feasible(g.acts[i], len, n)
    ensures Merged(g, i) <= Cost(g.acts[i], len, g.freq)
    decreases |g.acts| - i
  {
    hide Feasible, Cost, OneMerge;
    if i < |g.acts| - 1 {
      var l := MergeSaves(g.acts[i], g.acts[i + 1], g.removed[2 * i], g.removed[2 * i + 1], g.elems + i, g.freq, len,
        n);
      MergedBound(g, i + 1, l, n);
    }
  }

  // ------------------------------------------- lengths counted from the root

  /** Every node is one bit longer than its father, but no longer than max. */
  ghost predicate Descends(g: Merges, d: seq<nat>, max: nat) {
    && ValidMerges(g) && |d| == |g.freq| && 1 <= max
    && d[g.removed[2 * |g.acts| - 2]] == 0
    && forall i :: 0 <= i < |g.acts| - 1 ==> SonsAt(g, d, i, max)
  }

  ghost predicate SonsAt(g: Merges, d: seq<nat>, i: nat, max: nat) {
    2 * i + 1 < |g.removed| && Sons(d, g.removed[2 * i], g.removed[2 * i + 1], g.elems + i, max)
  }

  ghost predicate Sons(d: seq<nat>, a: nat, b: nat, c: nat, max: nat) {
    a < |d| && b < |d| && c < |d| && d[a] == d[b] == (if d[c] < max then d[c] + 1 else max)
  }

  /** How many fathers from merge i on are too deep for their sons. */
  ghost function TooDeep(g: Merges, d: seq<nat>, max: nat, i: nat): nat
    requires Descends(g, d, max) && i < |g.acts|
    decreases |g.acts| - i
  {
    if i == |g.acts| - 1 then 0 else (if d[g.elems + i] >= max then 1 else 0) + TooDeep(g, d, max, i + 1)
  }

  ghost predicate Within(act: set<nat>, d: seq<nat>, lo: nat, hi: nat) {
    forall x :: x in act ==> x < |d| && lo <= d[x] <= hi
  }

  lemma StepAt(g: Merges, d: seq<nat>, max: nat, i: nat)
    requires Descends(g, d, max) && i < |g.acts| - 1
    ensures OneMerge(g.acts[i], g.acts[i + 1], g.removed[2 * i], g.removed[2 * i + 1], g.elems + i, g.freq)
    ensures Sons(d, g.removed[2 * i], g.removed[2 * i + 1], g.elems + i, max)
    ensures g.elems + i in g.acts[i + 1]
  {
    assert g.acts[i] == g.acts[i];
    assert SonsAt(g, d, i, max);
  }

  lemma WithinStep(act: set<nat>, next: set<nat>, a: nat, b: nat, c: nat, freq: seq<nat>, d: seq<nat>, max: nat,
                   top: bool)
    requires OneMerge(act, next, a, b, c, freq) && Sons(d, a, b, c, max) && 1 <= max
    requires Within(next, d, if top then 0 else 1, max) && (top ==> next == {c})
    ensures Within(act, d, 1, max)
  {
    forall x | x in act ensures x < |d| && 1 <= d[x] <= max {
      if x != a && x != b { assert x in next && x != c; }
    }
  }

  lemma {:induction false} LengthsWithin(g: Merges, d: seq<nat>, max: nat, i: nat)
    requires Descends(g, d, max) && i < |g.acts|
    ensures Within(g.acts[i], d, if i == |g.acts| - 1 then 0 else 1, max)
    decreases |g.acts| - i
  {
    hide OneMerge, Sons, Within;
    var k := |g.acts| - 1;
    if i == k {
      OneWithin(g.removed[2 * k], d, max);
    } else {
      LengthsWithin(g, d, max, i + 1);
      StepAt(g, d, max, i);
      WithinStep(g.acts[i], g.acts[i + 1], g.removed[2 * i], g.removed[2 * i + 1], g.elems + i, g.freq, d, max,
        i + 1 == k);
    }
  }

  lemma OneWithin(x: nat, d: seq<nat>, max: nat)
    requires x < |d| && d[x] == 0
    ensures Within({x}, d, 0, max)
  {
  }

  /** The Kraft sum is exactly one and what clamping has added to it. */
  lemma {:induction false} KraftOfDepths(g: Merges, d: seq<nat>, max: nat, i: nat)
    requires Descends(g, d, max) && i < |g.acts|
    ensures Kraft(g.acts[i], d, max) == Pow2(max) + TooDeep(g, d, max, i)
    decreases |g.acts| - i
  {
    hide Pow2, OneMerge, Sons, Share, Kraft;
    if i == |g.acts| - 1 {
      KraftOne(g.removed[2 * i], d, max);
    } else {
      KraftOfDepths(g, d, max, i + 1);
      LengthsWithin(g, d, max, i + 1);
      StepAt(g, d, max, i);
      KraftSplit(g.acts[i], g.acts[i + 1], g.removed[2 * i], g.removed[2 * i + 1], g.elems + i, g.freq, d, max);
    }
  }

  lemma KraftOne(x: nat, d: seq<nat>, max: nat)
    requires x < |d| && d[x] == 0
    ensures Kraft({x}, d, max) == Pow2(max)
  {
    SumOut({x}, Shares(d, max), x);
    assert {x} - {x} == {};
  }

  lemma KraftSplit(act: set<nat>, next: set<nat>, a: nat, b: nat, c: nat, freq: seq<nat>, d: seq<nat>, max: nat)
    requires OneMerge(act, next, a, b, c, freq) && Sons(d, a, b, c, max) && d[c] <= max
    ensures Kraft(act, d, max) == Kraft(next, d, max) + (if d[c] >= max then 1 else 0)
  {
    hide Sum;
    var rest := act - {a, b};
    assert next == rest + {c};
    SumTwo(act, Shares(d, max), a, b);
    SumIn(rest, Shares(d, max), c);
  }

  function Deepest(act: set<nat>, d: seq<nat>, max: nat): set<nat> {
    set x | x in act && x < |d| && d[x] == max
  }

  /** Nodes too deep leave one more than half their number as nodes at the limit. */
  lemma {:induction false} EnoughAtMax(g: Merges, d: seq<nat>, max: nat, i: nat)
    requires Descends(g, d, max) && i < |g.acts|
    ensures TooDeep(g, d, max, i) > 0 ==> |Deepest(g.acts[i], d, max)| > TooDeep(g, d, max, i)
    decreases |g.acts| - i
  {
    hide OneMerge, Sons;
    if i < |g.acts| - 1 {
      EnoughAtMax(g, d, max, i + 1);
      LengthsWithin(g, d, max, i + 1);
      StepAt(g, d, max, i);
      DeepestSplit(g.acts[i], g.acts[i + 1], g.removed[2 * i], g.removed[2 * i + 1], g.elems + i, g.freq, d, max);
    }
  }

  lemma DeepestSplit(act: set<nat>, next: set<nat>, a: nat, b: nat, c: nat, freq: seq<nat>, d: seq<nat>, max: nat)
    requires OneMerge(act, next, a, b, c, freq) && Sons(d, a, b, c, max) && d[c] <= max
    ensures |Deepest(act, d, max)| >= |Deepest(next, d, max)| + (if d[c] == max then 1 else 0)
    ensures d[c] == max ==> |Deepest(next, d, max)| >= 1
  {
    var rest := Deepest(act - {a, b}, d, max);
    if d[c] == max {
      assert Deepest(next, d, max) == rest + {c};
      assert Deepest(act, d, max) == rest + {a} + {b};
    } else {
      assert Deepest(next, d, max) == rest;
      assert rest <= Deepest(act, d, max);
      CardMono(rest, Deepest(act, d, max));
    }
  }

  lemma {:induction false} CardMono(a: set<nat>, b: set<nat>)
    requires a <= b
    ensures |a| <= |b|
    decreases |a|
  {
    if x :| x in a {
      CardMono(a - {x}, b - {x});
    }
  }

  /** Without clamping the cost is what was merged. */
  lemma {:induction false} CostOfDepths(g: Merges, d: seq<nat>, max: nat, i: nat)
    requires Descends(g, d, max) && i < |g.acts| && TooDeep(g, d, max, i) == 0
    ensures Cost(g.acts[i], d, g.freq) == Merged(g, i)
    decreases |g.acts| - i
  {
    hide OneMerge, Sons;
    if i == |g.acts| - 1 {
      var x := g.removed[2 * i];
      SumOut({x}, Costs(d, g.freq), x);
      assert {x} - {x} == {};
    } else {
      CostOfDepths(g, d, max, i + 1);
      StepAt(g, d, max, i);
      CostSplit(g.acts[i], g.acts[i + 1], g.removed[2 * i], g.removed[2 * i + 1], g.elems + i, g.freq, d, max);
    }
  }

  lemma CostSplit(act: set<nat>, next: set<nat>, a: nat, b: nat, c: nat, freq: seq<nat>, d: seq<nat>, max: nat)
    requires OneMerge(act, next, a, b, c, freq) && |d| == |freq| && Sons(d, a, b, c, max) && d[c] < max
    ensures Cost(act, d, freq) == Cost(next, d, freq) + freq[c]
  {
    hide Sum;
    var rest := act - {a, b};
    assert next == rest + {c};
    SumTwo(act, Costs(d, freq), a, b);
    SumIn(rest, Costs(d, freq), c);
    OneBitMore(freq[a], freq[b], d[c]);
  }

  lemma OneBitMore(fa: nat, fb: nat, l: nat)
    ensures fa * (l + 1) + fb * (l + 1) == (fa + fb) * l + (fa + fb)
  {
  }

  /** If no length had to be limited, no lengths any prefix code has cost less. */
  lemma DepthsOptimal(g: Merges, d: seq<nat>, max: nat, len: seq<nat>, n: nat)
    requires Descends(g, d, max) && TooDeep(g, d, max, 0) == 0
    requires |len| == |g.freq| && Feasible(g.acts[0], len, n)
    ensures Cost(g.acts[0], d, g.freq) <= Cost(g.acts[0], len, g.freq)
  {
    CostOfDepths(g, d, max, 0);
    MergedBound(g, 0, len, n);
  }

  // ------------------------------------------------------- merges under way

  /** The merges so far: as ValidMerges, but nodes may be left to merge. */
  ghost predicate Merging(g: Merges) {
    && |g.acts| >= 1 && |g.removed| == 2 * |g.acts| - 2 && g.elems + |g.acts| - 1 <= |g.freq|
    && AllMerged(g) && AllBelow(g)
    && Gone(g.removed, g.acts[|g.acts| - 1], g.elems + |g.acts| - 1)
    && Distinct(g.removed)
  }

  ghost predicate AllMerged(g: Merges)
    requires |g.removed| >= 2 * |g.acts| - 2
  {
    forall i {:trigger g.acts[i]} :: 0 <= i < |g.acts| - 1 ==>
      OneMerge(g.acts[i], g.acts[i + 1], g.removed[2 * i], g.removed[2 * i + 1], g.elems + i, g.freq)
  }

  ghost predicate AllBelow(g: Merges) {
    forall i {:trigger g.acts[i]} :: 0 <= i < |g.acts| ==> Below(g.acts[i], g.elems + i)
  }

  /** No removed node is in the heap. */
  ghost predicate Gone(r: seq<nat>, act: set<nat>, n: nat) {
    forall t :: 0 <= t < |r| ==> r[t] !in act && r[t] < n
  }

  ghost predicate Distinct(s: seq<nat>) {
    forall t, u :: 0 <= t < u < |s| ==> s[t] != s[u]
  }

  ghost predicate Below(a: set<nat>, n: nat) {
    forall x :: x in a ==> x < n
  }

  /** The two least frequent of the nodes in act, in order. */
  ghost predicate Least(act: set<nat>, a: nat, b: nat, freq: seq<nat>) {
    && a in act && b in act && a != b && (forall x :: x in act ==> x < |freq|)
    && freq[a] <= freq[b] && forall x :: x in act && x != a ==> freq[b] <= freq[x]
  }

  function After(g: Merges, a: nat, b: nat): Merges
    requires |g.acts| >= 1
  {
    var c := g.elems + |g.acts| - 1;
    var act := g.acts[|g.acts| - 1];
    if c < |g.freq| && a < |g.freq| && b < |g.freq| then
      Merges(g.elems, g.removed + [a, b], g.acts + [act - {a, b} + {c}], g.freq[c := g.freq[a] + g.freq[b]])
    else g
  }

  lemma MergeKept(act: set<nat>, next: set<nat>, a: nat, b: nat, c: nat, freq: seq<nat>, n: nat, v: nat)
    requires OneMerge(act, next, a, b, c, freq) && n < |freq| && n !in act && n != c
    ensures OneMerge(act, next, a, b, c, freq[n := v])
  {
  }

  lemma NewMerge(act: set<nat>, a: nat, b: nat, c: nat, freq: seq<nat>)
    requires Least(act, a, b, freq) && c < |freq| && c !in act
    ensures OneMerge(act, act - {a, b} + {c}, a, b, c, freq[c := freq[a] + freq[b]])
  {
  }

  /** One more merge of the two least frequent nodes. */
  lemma MergingStep(g: Merges, a: nat, b: nat)
    requires Merging(g) && g.elems + |g.acts| - 1 < |g.freq|
    requires Least(g.acts[|g.acts| - 1], a, b, g.freq)
    ensures a < |g.freq| && b < |g.freq| && Merging(After(g, a, b))
  {
    hide Least, AllMerged, AllBelow, Gone, Distinct;
    var h, n := After(g, a, b), |g.acts|;
    var act := g.acts[n - 1];
    LastBelow(g);
    LeastFacts(act, a, b, g.freq, g.elems + n - 1);
    MergingKept(g, a, b);
    RemovedStep(g.removed, h.removed, act, h.acts[n], a, b, g.elems + n - 1);
    BelowStep(g, a, b);
  }

  lemma LastBelow(g: Merges)
    requires |g.acts| >= 1 && AllBelow(g)
    ensures Below(g.acts[|g.acts| - 1], g.elems + |g.acts| - 1)
  {
  }

  lemma LeastFacts(act: set<nat>, a: nat, b: nat, freq: seq<nat>, n: nat)
    requires Least(act, a, b, freq) && Below(act, n)
    ensures a < |freq| && b < |freq| && a in act && b in act && a != b && a < n && b < n
  {
  }

  lemma BelowStep(g: Merges, a: nat, b: nat)
    requires |g.acts| >= 1 && AllBelow(g)
    ensures AllBelow(After(g, a, b))
  {
  }

  lemma RemovedStep(r: seq<nat>, r': seq<nat>, act: set<nat>, next: set<nat>, a: nat, b: nat, c: nat)
    requires r' == r + [a, b] && next == act - {a, b} + {c} && a != b && a in act && b in act && a < c && b < c
    requires Gone(r, act, c) && Distinct(r)
    ensures Gone(r', next, c + 1) && Distinct(r')
  {
  }

  lemma MergingKept(g: Merges, a: nat, b: nat)
    requires Merging(g) && g.elems + |g.acts| - 1 < |g.freq|
    requires a < |g.freq| && b < |g.freq| && Least(g.acts[|g.acts| - 1], a, b, g.freq)
    ensures AllMerged(After(g, a, b))
  {
    hide OneMerge, Least;
    var h, n := After(g, a, b), |g.acts|;
    var c := g.elems + n - 1;
    forall i {:trigger h.acts[i]} | 0 <= i < |h.acts| - 1
      ensures OneMerge(h.acts[i], h.acts[i + 1], h.removed[2 * i], h.removed[2 * i + 1], h.elems + i, h.freq)
    {
      assert Below(g.acts[i], g.elems + i);
      if i == n - 1 {
        NewMerge(g.acts[i], a, b, c, g.freq);
      } else {
        MergeKept(g.acts[i], g.acts[i + 1], g.removed[2 * i], g.removed[2 * i + 1], g.elems + i, g.freq, c,
          g.freq[a] + g.freq[b]);
      }
    }
  }

  /** The last node is the root. */
  lemma MergingDone(g: Merges, root: nat)
    requires Merging(g) && g.acts[|g.acts| - 1] == {root} && root < |g.freq|
    ensures ValidMerges(g.(removed := g.removed + [root]))
  {
    hide OneMerge;
    var h := g.(removed := g.removed + [root]);
    forall t | 0 <= t < |h.removed|
      ensures h.removed[t] < |h.freq|
    {
    }
  }

  // ---------------------------------------------- the depths, and who is a leaf

  /** A node in the heap before merge i is removed by merge i or later. */
  lemma {:induction false} RemovedLater(g: Merges, i: nat, x: nat) returns (u: nat)
    requires ValidMerges(g) && i < |g.acts| && x in g.acts[i]
    ensures 2 * i <= u < |g.removed| && g.removed[u] == x
    decreases |g.acts| - i
  {
    hide OneMerge;
    if i == |g.acts| - 1 {
      u := 2 * i;
    } else if x == g.removed[2 * i] {
      u := 2 * i;
    } else if x == g.removed[2 * i + 1] {
      u := 2 * i + 1;
    } else {
      StillHeld(g, i, x);
      u := RemovedLater(g, i + 1, x);
    }
  }

  lemma StillHeld(g: Merges, i: nat, x: nat)
    requires ValidMerges(g) && i < |g.acts| - 1 && x in g.acts[i]
    ensures g.elems + i in g.acts[i + 1]
    ensures x != g.removed[2 * i] && x != g.removed[2 * i + 1] ==> x in g.acts[i + 1]
  {
    assert g.acts[i] == g.acts[i];
  }

  /** A father is removed after its sons. */
  lemma FatherLater(g: Merges, i: nat) returns (u: nat)
    requires ValidMerges(g) && i < |g.acts| - 1
    ensures 2 * i + 2 <= u < |g.removed| && g.removed[u] == g.elems + i
  {
    assert OneMerge(g.acts[i], g.acts[i + 1], g.removed[2 * i], g.removed[2 * i + 1], g.elems + i, g.freq) by {
      assert g.acts[i] == g.acts[i];
    }
    u := RemovedLater(g, i + 1, g.elems + i);
  }

  /** Fathers from merge i on have their sons' depths right. */
  ghost predicate DescendsFrom(g: Merges, d: seq<nat>, max: nat, i: nat) {
    ValidMerges(g) && |d| == |g.freq| && d[g.removed[2 * |g.acts| - 2]] == 0 &&
    forall j :: i <= j < |g.acts| - 1 ==> SonsAt(g, d, j, max)
  }

  /** Depths can be given to all nodes from the root down. */
  lemma {:induction false} DepthsExist(g: Merges, max: nat, i: nat) returns (d: seq<nat>)
    requires ValidMerges(g) && Distinct(g.removed) && i < |g.acts|
    ensures DescendsFrom(g, d, max, i)
    decreases |g.acts| - i
  {
    hide OneMerge, Distinct;
    if i == |g.acts| - 1 {
      d := seq(|g.freq|, _ => 0);
    } else {
      var e := DepthsExist(g, max, i + 1);
      d := DepthsDown(g, e, max, i);
    }
  }

  lemma DepthsDown(g: Merges, e: seq<nat>, max: nat, i: nat) returns (d: seq<nat>)
    requires Distinct(g.removed) && i < |g.acts| - 1 && DescendsFrom(g, e, max, i + 1)
    ensures DescendsFrom(g, d, max, i)
  {
    hide OneMerge;
    var a, b, c := g.removed[2 * i], g.removed[2 * i + 1], g.elems + i;
    var l := if e[c] < max then e[c] + 1 else max;
    assert a < |e| && b < |e|;
    d := e[a := l][b := l];
    assert d[g.removed[2 * |g.acts| - 2]] == 0;
    forall j | i <= j < |g.acts| - 1
      ensures SonsAt(g, d, j, max)
    {
      var u := FatherLater(g, j);
      assert g.elems + j != a && g.elems + j != b;
      assert j > i ==> SonsAt(g, e, j, max);
    }
  }

  /** The leaves among the nodes removed from t on. */
  ghost function LeavesFrom(r: seq<nat>, t: nat, maxCode: nat): set<nat> {
    set u | t <= u < |r| && r[u] <= maxCode :: r[u]
  }

  lemma LeavesStep(r: seq<nat>, t: nat, maxCode: nat)
    requires Distinct(r) && t < |r|
    ensures r[t] !in LeavesFrom(r, t + 1, maxCode)
    ensures LeavesFrom(r, t, maxCode) == if r[t] <= maxCode then LeavesFrom(r, t + 1, maxCode) + {r[t]}
      else LeavesFrom(r, t + 1, maxCode)
  {
    var a, b := LeavesFrom(r, t, maxCode), LeavesFrom(r, t + 1, maxCode);
    forall x | x in a ensures x in b || x == r[t] {
      var u :| t <= u < |r| && r[u] <= maxCode && r[u] == x;
    }
    assert r[t] <= maxCode ==> r[t] in a;
  }

  lemma AllLeaves(g: Merges, maxCode: nat)
    requires ValidMerges(g) && maxCode < g.elems && (forall x :: x in g.acts[0] ==> x <= maxCode)
    requires forall t :: 0 <= t < |g.removed| && g.removed[t] <= maxCode ==> g.removed[t] in g.acts[0]
    ensures LeavesFrom(g.removed, 0, maxCode) == g.acts[0]
  {
    hide OneMerge;
    forall x | x in g.acts[0] ensures x in LeavesFrom(g.removed, 0, maxCode) {
      var u := RemovedLater(g, 0, x);
      assert g.removed[u] in LeavesFrom(g.removed, 0, maxCode);
    }
    forall x | x in LeavesFrom(g.removed, 0, maxCode) ensures x in g.acts[0] {
      var u :| 0 <= u < |g.removed| && g.removed[u] <= maxCode && g.removed[u] == x;
    }
  }

  /** Sons in turn whose father is at the limit already. */
  ghost function Clamped(g: Merges, d: seq<nat>, max: nat, t: nat): nat
    requires Descends(g, d, max) && t <= 2 * |g.acts| - 2
    decreases 2 * |g.acts| - t
  {
    if t == 2 * |g.acts| - 2 then 0
    else (if Father(g, d, t) >= max then 1 else 0) + Clamped(g, d, max, t + 1)
  }

  /** The depth of the father of the node removed at t. */
  ghost function Father(g: Merges, d: seq<nat>, t: nat): nat
    requires |d| == |g.freq| && ValidMerges(g) && t < 2 * |g.acts| - 2
  {
    d[g.elems + t / 2]
  }

  lemma {:induction false} ClampedPairs(g: Merges, d: seq<nat>, max: nat, i: nat)
    requires Descends(g, d, max) && i < |g.acts|
    ensures Clamped(g, d, max, 2 * i) == 2 * TooDeep(g, d, max, i)
    decreases |g.acts| - i
  {
    hide Descends, ValidMerges;
    if i < |g.acts| - 1 {
      ClampedPairs(g, d, max, i + 1);
      assert 2 * i + 1 + 1 == 2 * (i + 1);
      assert (2 * i + 1) / 2 == i;
    }
  }
}
