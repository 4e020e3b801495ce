/** When the limit on the lengths costs nothing: nodes of equal frequency are merged in
order of their depth, so that no best code is shorter at its longest than build_tree's. */
module TreeDepths {
  import opened Bits
  import opened Sums
  import opened Huffman
  import opened KraftSums

  /** No lengths a prefix code for a can have cost less than len. */
  ghost predicate Optimal(a: set<nat>, len: seq<nat>, freq: seq<nat>)
    requires |len| == |freq|
  {
    forall words: seq<seq<bool>> :: |words| == |freq| && PrefixCode(a, words) ==>
      Cost(a, len, freq) <= Cost(a, Lengths(words), freq)
  }

  /** Some lengths of at most max bits are as good as those of any prefix code. */
  ghost predicate Attainable(a: set<nat>, freq: seq<nat>, max: nat) {
    exists len: seq<nat> :: |len| == |freq| && Feasible(a, len, max) && Optimal(a, len, freq)
  }

  lemma DepthsBest(g: Merges, d: seq<nat>, max: nat)
    requires Descends(g, d, max) && TooDeep(g, d, max, 0) == 0
    ensures Optimal(g.acts[0], d, g.freq)
  {
    hide Cost, OneMerge, PrefixCode;
    forall words: seq<seq<bool>> | |words| == |g.freq| && PrefixCode(g.acts[0], words)
      ensures Cost(g.acts[0], d, g.freq) <= Cost(g.acts[0], Lengths(words), g.freq)
    {
      var n := Longest(words);
      PrefixSymbols(g.acts[0], words, n);
      KraftInequality(g.acts[0], words, n);
      DepthsOptimal(g, d, max, Lengths(words), n);
    }
  }

  lemma PrefixSymbols(a: set<nat>, words: seq<seq<bool>>, n: nat)
    requires PrefixCode(a, words) && forall x :: 0 <= x < |words| ==> |words[x]| <= n
    ensures forall x :: x in a ==> x < |words| && |words[x]| <= n
  {
  }

  lemma {:induction false} Longest(words: seq<seq<bool>>) returns (n: nat)
    ensures forall x :: 0 <= x < |words| ==> |words[x]| <= n
  {
    n := 0;
    if |words| > 0 {
      n := Longest(words[..|words| - 1]);
      if n < |words[|words| - 1]| { n := |words[|words| - 1]|; }
    }
  }

  /** A more frequent symbol never has the longer word. */
  ghost predicate Graded(a: set<nat>, len: seq<nat>, freq: seq<nat>) {
    forall x, y :: x in a && y in a ==>
      x < |len| && y < |len| && x < |freq| && y < |freq| && (freq[x] < freq[y] ==> len[x] >= len[y])
  }

  /** Frequencies do not fall along r. */
  ghost predicate Rising(r: seq<nat>, freq: seq<nat>) {
    (forall u :: 0 <= u < |r| ==> r[u] < |freq|) && forall u, v :: 0 <= u < v < |r| ==> freq[r[u]] <= freq[r[v]]
  }

  /** Nodes are removed in order of their frequencies. */
  lemma RemovedRising(g: Merges)
    requires ValidMerges(g)
    ensures Rising(g.removed, g.freq)
  {
    hide OneMerge;
    forall u, v | 0 <= u < v < |g.removed| ensures g.freq[g.removed[u]] <= g.freq[g.removed[v]] {
      RisingTo(g, u, v);
    }
  }

  lemma {:induction false} RisingTo(g: Merges, u: nat, v: nat)
    requires ValidMerges(g) && u <= v < |g.removed|
    ensures g.freq[g.removed[u]] <= g.freq[g.removed[v]]
    decreases v
  {
    hide OneMerge;
    if u < v {
      RisingTo(g, u, v - 1);
      RisingNext(g, v - 1);
    }
  }

  lemma RisingNext(g: Merges, t: nat)
    requires ValidMerges(g) && t + 1 < |g.removed|
    ensures g.freq[g.removed[t]] <= g.freq[g.removed[t + 1]]
  {
    var i := t / 2;
    assert g.acts[i] == g.acts[i];
    if t % 2 == 1 {
      assert t == 2 * i + 1 && t + 1 == 2 * (i + 1);
      assert g.acts[i + 1] == g.acts[i + 1];
      assert g.removed[t + 1] in g.acts[i + 1];
    } else {
      assert t == 2 * i;
    }
  }

  /** Best lengths are graded: otherwise an exchange would cost less. */
  lemma BestGraded(a: set<nat>, len: seq<nat>, freq: seq<nat>, n: nat)
    requires |len| == |freq| && Feasible(a, len, n) && AtLeast(a, freq, n, Cost(a, len, freq))
    ensures Graded(a, len, freq)
  {
    hide Cost, Kraft;
    forall x, y | x in a && y in a && freq[x] < freq[y] ensures len[x] >= len[y] {
      if len[x] < len[y] {
        SwapFeasible(a, len, n, x, y);
        SwapExact(a, len, freq, x, y);
        Gain(freq[y] - freq[x], len[y] - len[x]);
      }
    }
  }

  /** As many symbols of each length. */
  ghost predicate SameCounts(a: set<nat>, len: seq<nat>, other: seq<nat>) {
    forall b :: 0 <= b ==> |Deepest(a, len, b)| == |Deepest(a, other, b)|
  }

  /** No other way to give out the same lengths costs less than a graded one. */
  lemma {:induction false} GradedBest(a: set<nat>, len: seq<nat>, other: seq<nat>, freq: seq<nat>)
    requires |len| == |other| == |freq| && (forall x :: x in a ==> x < |freq|)
    requires Graded(a, len, freq) && SameCounts(a, len, other)
    ensures Cost(a, len, freq) <= Cost(a, other, freq)
    decreases |a|
  {
    hide Cost, Deepest, SameCounts, Graded;
    if a == {} {
      NoCost(len, other, freq);
    } else {
      var z := RarestLongest(a, len, freq);
      var w := OfLength(a, len, other, z);
      var o := if w == z then other else Swapped(other, w, z);
      if w != z {
        SwapCounts(a, len, other, w, z);
        LongestIn(a, len, other, z);
        SwapCost(a, other, freq, z, w);
        assert Swapped(other, z, w) == Swapped(other, w, z);
      }
      LessOne(a, len, o, freq, z);
      GradedBest(a - {z}, len, o, freq);
    }
  }

  lemma NoCost(len: seq<nat>, other: seq<nat>, freq: seq<nat>)
    requires |len| == |other| == |freq|
    ensures Cost({}, len, freq) == Cost({}, other, freq) == 0
  {
  }

  /** A rarest symbol among those of the greatest length. */
  lemma RarestLongest(a: set<nat>, len: seq<nat>, freq: seq<nat>) returns (z: nat)
    requires a != {} && (forall x :: x in a ==> x < |freq| == |len|) && Graded(a, len, freq)
    ensures z in a && forall x :: x in a ==> len[x] <= len[z] && freq[z] <= freq[x]
  {
    var y := ArgMax(a, len);
    var x := ArgMin(a, freq);
    z := if freq[x] < freq[y] then x else y;
  }

  lemma {:induction false} ArgMin(a: set<nat>, f: seq<nat>) returns (x: nat)
    requires a != {} && forall y :: y in a ==> y < |f|
    ensures x in a && forall y :: y in a ==> f[x] <= f[y]
    decreases |a|
  {
    var z :| z in a;
    if a == {z} {
      x := z;
    } else {
      x := ArgMin(a - {z}, f);
      assert forall y :: y in a ==> y == z || y in a - {z};
      if f[z] < f[x] { x := z; }
    }
  }

  /** Some symbol has the length of z in the other lengths, too. */
  lemma OfLength(a: set<nat>, len: seq<nat>, other: seq<nat>, z: nat) returns (w: nat)
    requires z in a && z < |len| && SameCounts(a, len, other)
    ensures w in a && w < |other| && other[w] == len[z]
  {
    assert z in Deepest(a, len, len[z]);
    assert |Deepest(a, other, len[z])| > 0;
    w :| w in Deepest(a, other, len[z]);
  }

  lemma LongestIn(a: set<nat>, len: seq<nat>, other: seq<nat>, z: nat)
    requires z in a && z < |other| == |len| && (forall x :: x in a ==> x < |len| && len[x] <= len[z])
    requires SameCounts(a, len, other)
    ensures other[z] <= len[z]
  {
    hide Deepest;
    var w := OfLength(a, other, len, z);
  }

  lemma DeepestOut(a: set<nat>, d: seq<nat>, b: nat, x: nat)
    requires x in a && x < |d|
    ensures |Deepest(a, d, b)| == |Deepest(a - {x}, d, b)| + (if d[x] == b then 1 else 0)
  {
    if d[x] == b {
      assert Deepest(a, d, b) == Deepest(a - {x}, d, b) + {x};
    } else {
      assert Deepest(a, d, b) == Deepest(a - {x}, d, b);
    }
  }

  lemma SwapCount(a: set<nat>, d: seq<nat>, w: nat, z: nat, b: nat)
    requires w in a && z in a && w != z && w < |d| && z < |d|
    ensures |Deepest(a, Swapped(d, w, z), b)| == |Deepest(a, d, b)|
  {
    var o := Swapped(d, w, z);
    assert Deepest(a - {w} - {z}, o, b) == Deepest(a - {w} - {z}, d, b);
    hide Deepest;
    DeepestOut(a, d, b, w);
    DeepestOut(a - {w}, d, b, z);
    DeepestOut(a, o, b, w);
    DeepestOut(a - {w}, o, b, z);
  }

  lemma SwapCounts(a: set<nat>, len: seq<nat>, other: seq<nat>, w: nat, z: nat)
    requires w in a && z in a && w != z && w < |other| && z < |other| && SameCounts(a, len, other)
    ensures SameCounts(a, len, Swapped(other, w, z))
  {
    hide Deepest, Swapped;
    forall b: int | 0 <= b ensures |Deepest(a, len, b)| == |Deepest(a, Swapped(other, w, z), b)| {
      SwapCount(a, other, w, z, b);
    }
  }

  lemma LessOne(a: set<nat>, len: seq<nat>, other: seq<nat>, freq: seq<nat>, z: nat)
    requires z in a && z < |freq| == |len| == |other| && len[z] == other[z] && SameCounts(a, len, other)
    requires Graded(a, len, freq)
    ensures SameCounts(a - {z}, len, other) && Graded(a - {z}, len, freq)
    ensures Cost(a, len, freq) - Cost(a - {z}, len, freq) == Cost(a, other, freq) - Cost(a - {z}, other, freq)
  {
    hide Sum, Deepest;
    SumOut(a, Costs(len, freq), z);
    SumOut(a, Costs(other, freq), z);
    forall b: int | 0 <= b ensures |Deepest(a - {z}, len, b)| == |Deepest(a - {z}, other, b)| {
      DeepestOut(a, len, b, z);
      DeepestOut(a, other, b, z);
    }
  }

  // ------------------------------------------------- the order of the merges

  /** smaller: by frequency, then by depth. */
  ghost predicate Earlier(freq: seq<nat>, h: seq<nat>, x: nat, y: nat) {
    x < |freq| && y < |freq| && x < |h| && y < |h| && (freq[x] < freq[y] || (freq[x] == freq[y] && h[x] <= h[y]))
  }

  /** a and b are the first two nodes in that order. */
  ghost predicate FirstTwo(act: set<nat>, a: nat, b: nat, freq: seq<nat>, h: seq<nat>) {
    Earlier(freq, h, a, b) && forall x :: x in act && x != a ==> Earlier(freq, h, b, x)
  }

  /** The depth of a father, in eight bits. */
  function Above(p: nat, q: nat): nat {
    ((if p >= q then p else q) + 1) % 256
  }

  ghost predicate Raised(act: set<nat>, a: nat, b: nat, c: nat, freq: seq<nat>, h: seq<nat>) {
    FirstTwo(act, a, b, freq, h) && c < |h| && h[c] == Above(h[a], h[b])
  }

  /** Leaves have no depth. */
  ghost predicate Flat(act: set<nat>, h: seq<nat>) {
    forall x :: x in act ==> x < |h| && h[x] == 0
  }

  /** Every merge so far joined the first two nodes, and h is the depth of all. */
  ghost predicate Levelled(g: Merges, h: seq<nat>) {
    && |g.acts| >= 1 && |g.removed| >= 2 * |g.acts| - 2
    && Flat(g.acts[0], h)
    && forall i {:trigger g.acts[i]} :: 0 <= i < |g.acts| - 1 ==>
         Raised(g.acts[i], g.removed[2 * i], g.removed[2 * i + 1], g.elems + i, g.freq, h)
  }

  lemma LevelAt(g: Merges, h: seq<nat>, i: nat)
    requires ValidMerges(g) && Levelled(g, h) && i < |g.acts| - 1
    ensures OneMerge(g.acts[i], g.acts[i + 1], g.removed[2 * i], g.removed[2 * i + 1], g.elems + i, g.freq)
    ensures Raised(g.acts[i], g.removed[2 * i], g.removed[2 * i + 1], g.elems + i, g.freq, h)
  {
    assert g.acts[i] == g.acts[i];
  }

  // ------------------------------ lengths together with the depths below them

  /** Every node's length and the depth below it stay within m. */
  ghost predicate Sits(act: set<nat>, len: seq<nat>, h: seq<nat>, m: nat) {
    forall x :: x in act ==> x < |len| && x < |h| && len[x] + h[x] <= m
  }

  /** No feasible lengths cost less than w. */
  ghost predicate AtLeast(act: set<nat>, freq: seq<nat>, n: nat, w: nat) {
    forall l: seq<nat> :: |l| == |freq| && Feasible(act, l, n) ==> w <= Cost(act, l, freq)
  }

  lemma SwapExact(a: set<nat>, len: seq<nat>, freq: seq<nat>, x: nat, y: nat)
    requires x in a && y in a && x != y && |len| == |freq| && x < |len| && y < |len|
    requires len[x] <= len[y] && freq[x] <= freq[y]
    ensures Cost(a, len, freq) - Cost(a, Swapped(len, x, y), freq) == (freq[y] - freq[x]) * (len[y] - len[x])
  {
    hide Sum;
    var l := Swapped(len, x, y);
    SumTwo(a, Costs(len, freq), x, y);
    SumTwo(a, Costs(l, freq), x, y);
    SumEq(a - {x, y}, Costs(len, freq), Costs(l, freq));
    Crossed(freq[x], freq[y], len[x], len[y]);
  }

  lemma Crossed(f: int, g: int, l: int, m: int)
    ensures (f * l + g * m) - (f * m + g * l) == (g - f) * (m - l)
  {
  }

  lemma Gain(p: int, q: int)
    requires p > 0 && q > 0
    ensures p * q > 0
  {
  }

  /** Of two nodes with lengths the wrong way round, the exchange is no loss at all if the
      lengths are best, so the frequencies are equal and the depths tell. */
  lemma SwapSits(act: set<nat>, freq: seq<nat>, len: seq<nat>, h: seq<nat>, n: nat, m: nat, w: nat, x: nat, y: nat)
    requires x in act && y in act && x != y && |len| == |freq| && Feasible(act, len, n) && Sits(act, len, h, m)
    requires AtLeast(act, freq, n, w) && Cost(act, len, freq) <= w
    requires Earlier(freq, h, x, y) && len[x] <= len[y]
    ensures Feasible(act, Swapped(len, x, y), n) && Sits(act, Swapped(len, x, y), h, m)
    ensures Cost(act, Swapped(len, x, y), freq) <= w
  {
    hide Cost, Kraft;
    SwapFeasible(act, len, n, x, y);
    SwapExact(act, len, freq, x, y);
    if len[x] == len[y] {
      assert Swapped(len, x, y) == len;
    } else {
      if freq[x] < freq[y] { Gain(freq[y] - freq[x], len[y] - len[x]); }
      assert freq[x] == freq[y];
    }
  }

  /** The first two nodes can have the two longest lengths, nothing getting deeper. */
  lemma LongestToFirst(act: set<nat>, a: nat, b: nat, freq: seq<nat>, h: seq<nat>, len: seq<nat>, n: nat, m: nat,
                       w: nat)
    returns (l: seq<nat>)
    requires a in act && b in act && a != b && FirstTwo(act, a, b, freq, h) && |len| == |freq|
    requires Feasible(act, len, n) && Sits(act, len, h, m) && AtLeast(act, freq, n, w) && Cost(act, len, freq) <= w
    ensures |l| == |freq| && Feasible(act, l, n) && Sits(act, l, h, m) && Cost(act, l, freq) <= w
    ensures l[b] <= l[a] && forall x :: x in act && x != a ==> l[x] <= l[b]
  {
    hide Cost, Kraft, AtLeast;
    l := len;
    var x := ArgMax(act, len);
    if x != a {
      FirstBefore(act, a, b, freq, h, x);
      SwapSits(act, freq, l, h, n, m, w, a, x);
      l := Swapped(l, a, x);
    }
    assert forall z :: z in act ==> l[z] <= l[a];
    assert b in act - {a};
    var y := ArgMax(act - {a}, l);
    assert forall z :: z in act && z != a ==> l[z] <= l[y] by {
      forall z | z in act && z != a ensures l[z] <= l[y] { assert z in act - {a}; }
    }
    if y != b {
      SwapSits(act, freq, l, h, n, m, w, b, y);
      l := Swapped(l, b, y);
    }
  }

  lemma FirstBefore(act: set<nat>, a: nat, b: nat, freq: seq<nat>, h: seq<nat>, x: nat)
    requires FirstTwo(act, a, b, freq, h) && x in act && x != a
    ensures Earlier(freq, h, a, x)
  {
    assert Earlier(freq, h, b, x);
  }

  /** Best lengths before a merge give lengths after it that cost the merged frequency
      less and leave the same room below, so the father is one above its sons. */
  lemma MergeSits(act: set<nat>, next: set<nat>, a: nat, b: nat, c: nat, freq: seq<nat>, h: seq<nat>, len: seq<nat>,
                  n: nat, m: nat, w: nat)
    returns (l': seq<nat>)
    requires OneMerge(act, next, a, b, c, freq) && Raised(act, a, b, c, freq, h) && |len| == |freq| && m < 256
    requires Feasible(act, len, n) && Sits(act, len, h, m) && AtLeast(act, freq, n, w) && Cost(act, len, freq) <= w
    ensures |l'| == |freq| && Feasible(next, l', n) && Sits(next, l', h, m) && Cost(next, l', freq) + freq[c] <= w
    ensures h[a] < h[c] && h[b] < h[c]
  {
    hide Cost, Kraft, AtLeast;
    var l := LongestToFirst(act, a, b, freq, h, len, n, m, w);
    l' := MergeLongest(act, next, a, b, c, freq, l, n);
    SitsNext(act, next, a, b, c, freq, h, l, l', m);
  }

  lemma SitsNext(act: set<nat>, next: set<nat>, a: nat, b: nat, c: nat, freq: seq<nat>, h: seq<nat>, l: seq<nat>,
                 l': seq<nat>, m: nat)
    requires OneMerge(act, next, a, b, c, freq) && Raised(act, a, b, c, freq, h) && |l| == |freq| && m < 256
    requires Sits(act, l, h, m) && 1 <= l[b] <= l[a] && l' == l[a := l[b]][c := l[b] - 1]
    ensures Sits(next, l', h, m) && h[a] < h[c] && h[b] < h[c]
  {
    assert l[a] + h[a] <= m && l[b] + h[b] <= m;
    assert h[c] == (if h[a] >= h[b] then h[a] else h[b]) + 1;
  }

  /** Every father from merge i on is above its sons. */
  ghost predicate RisesFrom(g: Merges, h: seq<nat>, i: nat)
    requires ValidMerges(g)
  {
    |h| >= |g.freq| && forall j :: i <= j < |g.acts| - 1 ==> RisesAt(g, h, j)
  }

  ghost predicate RisesAt(g: Merges, h: seq<nat>, j: nat)
    requires ValidMerges(g) && j < |g.acts| - 1 && |h| >= |g.freq|
  {
    h[g.removed[2 * j]] < h[g.elems + j] && h[g.removed[2 * j + 1]] < h[g.elems + j]
  }

  /** Best lengths of at most m bits leave no more than m levels between leaf and root. */
  lemma {:induction false} BestRises(g: Merges, h: seq<nat>, i: nat, len: seq<nat>, n: nat, m: nat)
    requires ValidMerges(g) && Levelled(g, h) && i < |g.acts| && |len| == |g.freq| <= |h| && m < 256
    requires Feasible(g.acts[i], len, n) && Sits(g.acts[i], len, h, m)
    requires Cost(g.acts[i], len, g.freq) <= Merged(g, i)
    ensures RisesFrom(g, h, i) && h[g.removed[2 * |g.acts| - 2]] <= m
    decreases |g.acts| - i
  {
    hide Feasible, Cost, OneMerge, Raised, Levelled;
    if i < |g.acts| - 1 {
      LevelAt(g, h, i);
      BoundHolds(g, i, n);
      var l := MergeSits(g.acts[i], g.acts[i + 1], g.removed[2 * i], g.removed[2 * i + 1], g.elems + i, g.freq, h, len,
        n, m, Merged(g, i));
      BestRises(g, h, i + 1, l, n, m);
      assert RisesAt(g, h, i);
    } else {
      assert g.removed[2 * i] in g.acts[i];
    }
  }

  lemma BoundHolds(g: Merges, i: nat, n: nat)
    requires ValidMerges(g) && i < |g.acts|
    ensures AtLeast(g.acts[i], g.freq, n, Merged(g, i))
  {
    hide Feasible, Cost, OneMerge, ValidMerges, Merged;
    forall l: seq<nat> | |l| == |g.freq| && Feasible(g.acts[i], l, n)
      ensures Merged(g, i) <= Cost(g.acts[i], l, g.freq)
    {
      MergedBound(g, i, l, n);
    }
  }

  /** If the root is at most top levels above all leaves, and they may be that deep, no
      father is too deep. */
  lemma {:induction false} NoneTooDeep(g: Merges, h: seq<nat>, d: seq<nat>, max: nat, i: nat, top: nat)
    requires Descends(g, d, max) && i < |g.acts|
    requires RisesFrom(g, h, i) && h[g.removed[2 * |g.acts| - 2]] <= top <= max
    ensures TooDeep(g, d, max, i) == 0 && forall x :: x in g.acts[i] ==> x < |d| && d[x] + h[x] <= top
    decreases |g.acts| - i
  {
    hide OneMerge, Sons;
    if i < |g.acts| - 1 {
      NoneTooDeep(g, h, d, max, i + 1, top);
      StepAt(g, d, max, i);
      assert RisesAt(g, h, i);
      OneShallow(g.acts[i], g.acts[i + 1], g.removed[2 * i], g.removed[2 * i + 1], g.elems + i, g.freq, h, d, max,
        top);
    }
  }

  lemma OneShallow(act: set<nat>, next: set<nat>, a: nat, b: nat, c: nat, freq: seq<nat>, h: seq<nat>, d: seq<nat>,
                   max: nat, top: nat)
    requires OneMerge(act, next, a, b, c, freq) && Sons(d, a, b, c, max) && |h| >= |freq| == |d| && top <= max
    requires h[a] < h[c] && h[b] < h[c] && forall x :: x in next ==> x < |d| && d[x] + h[x] <= top
    ensures d[c] < max && forall x :: x in act ==> x < |d| && d[x] + h[x] <= top
  {
    assert d[c] + h[c] <= top;
    forall x | x in act ensures x < |d| && d[x] + h[x] <= top {
      if x != a && x != b { assert x in next; }
    }
  }

  // ------------------------------------------------- the words of the tree

  /** Words can be given to the nodes from the root down: a prefix code that costs what
      was merged. */
  lemma {:induction false} WordsExist(g: Merges, i: nat) returns (words: seq<seq<bool>>)
    requires ValidMerges(g) && i < |g.acts|
    ensures |words| == |g.freq| && PrefixCode(g.acts[i], words)
    ensures Cost(g.acts[i], Lengths(words), g.freq) == Merged(g, i)
    decreases |g.acts| - i
  {
    hide OneMerge, Cost, PrefixCode;
    if i == |g.acts| - 1 {
      words := seq(|g.freq|, _ => []);
      RootWord(g.removed[2 * i], words, g.freq);
    } else {
      var w := WordsExist(g, i + 1);
      assert g.acts[i] == g.acts[i];
      words := SonsWords(g.acts[i], g.acts[i + 1], g.removed[2 * i], g.removed[2 * i + 1], g.elems + i, g.freq, w);
    }
  }

  lemma RootWord(x: nat, words: seq<seq<bool>>, freq: seq<nat>)
    requires x < |words| == |freq| && words[x] == []
    ensures PrefixCode({x}, words) && Cost({x}, Lengths(words), freq) == 0
  {
    SumOut({x}, Costs(Lengths(words), freq), x);
    assert {x} - {x} == {};
  }

  lemma SonsWords(act: set<nat>, next: set<nat>, a: nat, b: nat, c: nat, freq: seq<nat>, w: seq<seq<bool>>)
    returns (words: seq<seq<bool>>)
    requires OneMerge(act, next, a, b, c, freq) && |w| == |freq| && PrefixCode(next, w)
    ensures |words| == |freq| && PrefixCode(act, words)
    ensures Cost(act, Lengths(words), freq) == Cost(next, Lengths(w), freq) + freq[c]
  {
    hide Sum;
    words := w[a := w[c] + [false]][b := w[c] + [true]];
    var rest := act - {a, b};
    assert next == rest + {c};
    forall x, y | x in act && y in act && x != y ensures !(words[x] <= words[y]) {
      LongerWords(w, words, next, a, b, c, x, y);
    }
    SumTwo(act, Costs(Lengths(words), freq), a, b);
    SumEq(rest, Costs(Lengths(words), freq), Costs(Lengths(w), freq));
    SumIn(rest, Costs(Lengths(w), freq), c);
    OneBitMore(freq[a], freq[b], |w[c]|);
  }

  lemma LongerWords(w: seq<seq<bool>>, words: seq<seq<bool>>, next: set<nat>, a: nat, b: nat, c: nat, x: nat, y: nat)
    requires PrefixCode(next, w) && a < |w| && b < |w| && a != b && c in next && c != a && c != b && x != y
    requires words == w[a := w[c] + [false]][b := w[c] + [true]]
    requires x == a || x == b || (x in next && x != c)
    requires y == a || y == b || (y in next && y != c)
    requires a !in next && b !in next
    ensures !(words[x] <= words[y])
  {
    var u := if x == a || x == b then c else x;
    var v := if y == a || y == b then c else y;
    if u != v {
      assert !(w[u] <= w[v]) && !(w[v] <= w[u]);
      if words[x] <= words[y] {
        assert w[u] <= words[y];
        OneBitLonger(w[u], w[v], words[y]);
      }
    } else {
      assert words[x][|w[c]|] != words[y][|w[c]|];
    }
  }

  lemma OneBitLonger(u: seq<bool>, v: seq<bool>, v': seq<bool>)
    requires v <= v' && |v'| <= |v| + 1 && u <= v'
    ensures u <= v || v <= u
  {
    if |u| <= |v| {
      assert u == v'[..|u|] && v == v'[..|v|];
      assert u == v[..|u|];
    } else {
      assert u == v';
    }
  }

  /** The tie-break keeps the longest length as small as it can be: no best prefix code has
      all its words shorter than the longest of the tree. */
  lemma MinimizesLongest(g: Merges, h: seq<nat>, d: seq<nat>, max: nat, words: seq<seq<bool>>, m: nat)
    requires Descends(g, d, max) && Levelled(g, h) && |g.freq| <= |h| && m < 256 && m <= max
    requires |words| == |g.freq| && PrefixCode(g.acts[0], words) && Optimal(g.acts[0], Lengths(words), g.freq)
    requires forall x :: x in g.acts[0] ==> |words[x]| <= m
    ensures TooDeep(g, d, max, 0) == 0 && forall x :: x in g.acts[0] ==> x < |d| && d[x] <= m
  {
    hide Cost, Kraft, OneMerge, SonsAt, PrefixCode;
    KraftInequality(g.acts[0], words, m);
    var tree := WordsExist(g, 0);
    assert Cost(g.acts[0], Lengths(words), g.freq) <= Cost(g.acts[0], Lengths(tree), g.freq);
    BestRises(g, h, 0, Lengths(words), m, m);
    NoneTooDeep(g, h, d, max, 0, m);
  }

  /** The limit costs nothing if any lengths within it are best. */
  lemma AttainableFits(g: Merges, h: seq<nat>, d: seq<nat>, max: nat)
    requires Descends(g, d, max) && Levelled(g, h) && |g.freq| <= |h| && max < 256
    requires Attainable(g.acts[0], g.freq, max)
    ensures TooDeep(g, d, max, 0) == 0
  {
    hide Cost, Kraft, OneMerge, SonsAt, PrefixCode;
    var len: seq<nat> :| |len| == |g.freq| && Feasible(g.acts[0], len, max) && Optimal(g.acts[0], len, g.freq);
    var words := WordsExist(g, 0);
    assert Cost(g.acts[0], len, g.freq) <= Cost(g.acts[0], Lengths(words), g.freq);
    BestRises(g, h, 0, len, max, max);
    NoneTooDeep(g, h, d, max, 0, max);
  }

  // ------------------------------------------- frequencies that never reach it

  /** The least frequency of a tree with h levels below its root. */
  function Fib(h: nat): (r: nat)
    ensures r >= 1
  {
    if h == 0 then 1 else if h == 1 then 2 else Fib(h - 1) + Fib(h - 2)
  }

  lemma {:induction false} FibMono(h: nat, k: nat)
    requires h <= k
    ensures Fib(h) <= Fib(k)
    decreases k
  {
    if h < k { FibMono(h, k - 1); }
  }

  /** Frequencies of nodes so deep, and of all nodes beside one so deep. */
  ghost predicate Grown(act: set<nat>, freq: seq<nat>, h: seq<nat>) {
    && (forall x :: x in act ==> x < |freq| && x < |h| && h[x] < 256 && freq[x] >= Fib(h[x]))
    && forall x, y :: x in act && y in act && h[x] >= 1 ==> freq[y] >= Fib(h[x] - 1)
  }

  lemma GrownStep(act: set<nat>, next: set<nat>, a: nat, b: nat, c: nat, freq: seq<nat>, h: seq<nat>)
    requires OneMerge(act, next, a, b, c, freq) && Raised(act, a, b, c, freq, h) && Grown(act, freq, h)
    ensures Grown(next, freq, h)
  {
    hide Fib;
    var m := if h[a] >= h[b] then h[a] else h[b];
    FibNext(m);
    assert freq[b] >= Fib(m);
    assert m >= 1 ==> freq[a] >= Fib(m - 1) && freq[b] >= Fib(m - 1);
    if m < 255 {
      assert h[c] == m + 1;
      assert freq[c] >= Fib(m + 1);
    } else {
      assert h[c] == 0;
    }
    forall x, y | x in next && y in next && h[x] >= 1 ensures freq[y] >= Fib(h[x] - 1) {
      if x == c { assert h[x] - 1 == m && freq[y] >= freq[b]; }
      else if y == c { assert freq[a] >= Fib(h[x] - 1); }
    }
  }

  lemma FibNext(m: nat)
    ensures Fib(m + 1) == Fib(m) + (if m == 0 then 1 else Fib(m - 1)) && Fib(0) == 1
    ensures Fib(m) >= 1
  {
  }

  /** A tree whose frequencies add up to less than that has no more levels. */
  lemma {:induction false} FewRise(g: Merges, h: seq<nat>, i: nat, max: nat)
    requires ValidMerges(g) && Levelled(g, h) && i < |g.acts| && |g.freq| <= |h| && max < 255
    requires Grown(g.acts[i], g.freq, h) && Sum(g.acts[i], g.freq) < Fib(max + 1)
    ensures RisesFrom(g, h, i) && h[g.removed[2 * |g.acts| - 2]] <= max
    decreases |g.acts| - i
  {
    hide OneMerge, Raised, Levelled, Fib, Grown, Sum;
    LowDepths(g.acts[i], g.freq, h, max);
    if i < |g.acts| - 1 {
      LevelAt(g, h, i);
      GrownStep(g.acts[i], g.acts[i + 1], g.removed[2 * i], g.removed[2 * i + 1], g.elems + i, g.freq, h);
      SumKept(g.acts[i], g.acts[i + 1], g.removed[2 * i], g.removed[2 * i + 1], g.elems + i, g.freq);
      FewRise(g, h, i + 1, max);
      RaisedLow(g.acts[i], g.acts[i + 1], g.removed[2 * i], g.removed[2 * i + 1], g.elems + i, g.freq, h, max);
      assert RisesAt(g, h, i);
    } else {
      assert g.removed[2 * i] in g.acts[i];
    }
  }

  lemma LowDepths(act: set<nat>, freq: seq<nat>, h: seq<nat>, max: nat)
    requires Grown(act, freq, h) && Sum(act, freq) < Fib(max + 1)
    ensures forall x :: x in act ==> x < |h| && h[x] <= max
  {
    hide Fib, Sum;
    forall x | x in act ensures x < |h| && h[x] <= max {
      SumOut(act, freq, x);
      if h[x] > max { FibMono(max + 1, h[x]); }
    }
  }

  lemma RaisedLow(act: set<nat>, next: set<nat>, a: nat, b: nat, c: nat, freq: seq<nat>, h: seq<nat>, max: nat)
    requires OneMerge(act, next, a, b, c, freq) && Raised(act, a, b, c, freq, h) && max < 255
    requires forall x :: x in act ==> x < |h| && h[x] <= max
    ensures h[a] < h[c] && h[b] < h[c]
  {
  }

  lemma SumKept(act: set<nat>, next: set<nat>, a: nat, b: nat, c: nat, freq: seq<nat>)
    requires OneMerge(act, next, a, b, c, freq)
    ensures Sum(act, freq) == Sum(next, freq)
  {
    hide Sum;
    SumTwo(act, freq, a, b);
    assert next == act - {a, b} + {c};
    SumIn(act - {a, b}, freq, c);
  }

  /** Symbols that occur so rarely that their tree cannot be too deep. */
  ghost predicate Rare(a: set<nat>, freq: seq<nat>, max: nat) {
    (forall x :: x in a ==> x < |freq| && freq[x] >= 1) && Sum(a, freq) < Fib(max + 1)
  }

  lemma LeavesGrown(g: Merges, h: seq<nat>)
    requires Levelled(g, h) && forall x :: x in g.acts[0] ==> x < |g.freq| && g.freq[x] >= 1
    ensures Grown(g.acts[0], g.freq, h)
  {
    hide Raised;
  }

  /** The limit is not reached by symbols that occur so rarely. */
  lemma RareFits(g: Merges, h: seq<nat>, d: seq<nat>, max: nat)
    requires Descends(g, d, max) && Levelled(g, h) && |g.freq| <= |h| && max < 255
    requires Rare(g.acts[0], g.freq, max)
    ensures TooDeep(g, d, max, 0) == 0
  {
    hide Sum, Fib, Grown, Levelled, SonsAt;
    LeavesGrown(g, h);
    FewRise(g, h, 0, max);
    NoneTooDeep(g, h, d, max, 0, max);
  }

  /** Lengths have to be limited only if no best code keeps to the limit. */
  lemma LimitNeeded(g: Merges, h: seq<nat>, d: seq<nat>, max: nat)
    requires Descends(g, d, max) && Levelled(g, h) && |g.freq| <= |h| && max < 255 && TooDeep(g, d, max, 0) > 0
    ensures !Attainable(g.acts[0], g.freq, max) && !Rare(g.acts[0], g.freq, max)
  {
    hide SonsAt, OneMerge, Levelled, Attainable, Rare, TooDeep;
    if Attainable(g.acts[0], g.freq, max) { AttainableFits(g, h, d, max); }
    if Rare(g.acts[0], g.freq, max) { RareFits(g, h, d, max); }
  }

  lemma Attains(a: set<nat>, len: seq<nat>, freq: seq<nat>, max: nat)
    requires |len| == |freq| && (forall x :: x in a ==> x < |len| && len[x] <= max) && Kraft(a, len, max) == Pow2(max)
    ensures Optimal(a, len, freq) ==> Attainable(a, freq, max)
  {
    hide Optimal, Kraft;
    assert Feasible(a, len, max);
  }

  /** Lengths as good as those of any prefix code exactly if any lengths within the limit
      are; and they are if the symbols are rare. */
  ghost predicate Finest(act: set<nat>, d: seq<nat>, freq: seq<nat>, max: nat) {
    |d| == |freq| && (Optimal(act, d, freq) <==> Attainable(act, freq, max))
    && (Rare(act, freq, max) ==> Optimal(act, d, freq))
  }

  lemma FinestNow(act: set<nat>, d: seq<nat>, freq: seq<nat>, max: nat)
    requires |d| == |freq| && (Optimal(act, d, freq) <==> Attainable(act, freq, max))
    requires Rare(act, freq, max) ==> Optimal(act, d, freq)
    ensures Finest(act, d, freq, max)
  {
  }

  lemma OptimalFreq(act: set<nat>, d: seq<nat>, full: seq<nat>, freq: seq<nat>)
    requires |full| == |freq| == |d| && Optimal(act, d, full) && forall x :: x in act ==>
      x < |freq| && full[x] == freq[x]
    ensures Optimal(act, d, freq)
  {
    hide Sum, PrefixCode;
    forall words: seq<seq<bool>> | |words| == |freq| && PrefixCode(act, words)
      ensures Cost(act, d, freq) <= Cost(act, Lengths(words), freq)
    {
      SumEq(act, Costs(d, full), Costs(d, freq));
      SumEq(act, Costs(Lengths(words), full), Costs(Lengths(words), freq));
    }
  }

  lemma AttainableFreq(act: set<nat>, full: seq<nat>, freq: seq<nat>, max: nat)
    requires |full| == |freq| && Attainable(act, full, max) && forall x :: x in act ==>
      x < |freq| && full[x] == freq[x]
    ensures Attainable(act, freq, max)
  {
    hide Optimal, Feasible;
    var len: seq<nat> :| |len| == |full| && Feasible(act, len, max) && Optimal(act, len, full);
    OptimalFreq(act, len, full, freq);
  }

  lemma RareFreq(act: set<nat>, full: seq<nat>, freq: seq<nat>, max: nat)
    requires |full| == |freq| && Rare(act, freq, max) && forall x :: x in act ==> x < |freq| && full[x] == freq[x]
    ensures Rare(act, full, max)
  {
    hide Sum, Fib;
    SumEq(act, full, freq);
  }

  lemma FinestFreq(act: set<nat>, d: seq<nat>, full: seq<nat>, freq: seq<nat>, max: nat)
    requires Finest(act, d, full, max) && |full| == |freq|
    requires forall x :: x in act ==> x < |freq| && full[x] == freq[x]
    ensures Finest(act, d, freq, max)
  {
    hide Optimal, Attainable, Rare;
    if Rare(act, freq, max) { RareFreq(act, full, freq, max); }
    if Attainable(act, freq, max) { AttainableFreq(act, freq, full, max); }
    if Optimal(act, d, full) {
      OptimalFreq(act, d, full, freq);
      AttainableFreq(act, full, freq, max);
    }
    if Optimal(act, d, freq) { OptimalFreq(act, d, freq, full); }
  }

  // ------------------------------------------------- one more merge

  lemma LevelledMore(g: Merges, h: seq<nat>, a: nat, b: nat, h': seq<nat>)
    requires Merging(g) && Levelled(g, h) && g.elems + |g.acts| - 1 < |g.freq| <= |h|
    requires a in g.acts[|g.acts| - 1] && b in g.acts[|g.acts| - 1] && a < |g.freq| && b < |g.freq|
    requires FirstTwo(g.acts[|g.acts| - 1], a, b, g.freq, h)
    requires h' == h[g.elems + |g.acts| - 1 := Above(h[a], h[b])]
    ensures Levelled(After(g, a, b), h')
  {
    hide OneMerge, Raised, FirstTwo, Above, Gone, Distinct;
    var k, n := After(g, a, b), |g.acts|;
    var c := g.elems + n - 1;
    forall i {:trigger k.acts[i]} | 0 <= i < |k.acts| - 1
      ensures Raised(k.acts[i], k.removed[2 * i], k.removed[2 * i + 1], k.elems + i, k.freq, h')
    {
      assert Below(g.acts[i], g.elems + i);
      if i == n - 1 {
        RaisedNew(g.acts[i], a, b, c, g.freq, h, k.freq, h');
      } else {
        var e := g.elems + i;
        assert OneMerge(g.acts[i], g.acts[i + 1], g.removed[2 * i], g.removed[2 * i + 1], e, g.freq);
        RaisedKept(g.acts[i], g.acts[i + 1], g.removed[2 * i], g.removed[2 * i + 1], e, g.freq, h, c, k.freq, h');
      }
    }
    assert Below(g.acts[0], g.elems);
  }

  lemma RaisedNew(act: set<nat>, a: nat, b: nat, c: nat, freq: seq<nat>, h: seq<nat>, freq': seq<nat>, h': seq<nat>)
    requires FirstTwo(act, a, b, freq, h) && a in act && b in act && Below(act, c) && c < |freq| <= |h|
    requires |freq'| == |freq| && freq' == freq[c := freq'[c]] && h' == h[c := Above(h[a], h[b])]
    ensures Raised(act, a, b, c, freq', h')
  {
  }

  lemma RaisedKept(act: set<nat>, next: set<nat>, a: nat, b: nat, c: nat, freq: seq<nat>, h: seq<nat>, n: nat,
                   freq': seq<nat>, h': seq<nat>)
    requires OneMerge(act, next, a, b, c, freq) && Raised(act, a, b, c, freq, h) && Below(act, c) && c < n
    requires n < |freq| == |freq'| && n < |h| == |h'| && freq' == freq[n := freq'[n]] && h' == h[n := h'[n]]
    ensures Raised(act, a, b, c, freq', h')
  {
  }

  lemma LevelledStart(elems: nat, act: set<nat>, freq: seq<nat>, h: seq<nat>)
    requires Flat(act, h)
    ensures Levelled(Merges(elems, [], [act], freq), h)
  {
  }

  lemma LevelledRoot(g: Merges, h: seq<nat>, root: nat)
    requires Levelled(g, h) && |g.removed| == 2 * |g.acts| - 2
    ensures Levelled(g.(removed := g.removed + [root]), h)
  {
    hide Raised;
    var f := g.(removed := g.removed + [root]);
    forall i {:trigger f.acts[i]} | 0 <= i < |f.acts| - 1
      ensures Raised(f.acts[i], f.removed[2 * i], f.removed[2 * i + 1], f.elems + i, f.freq, h)
    {
      assert g.acts[i] == g.acts[i];
    }
  }

  lemma FlatMore(act: set<nat>, node: nat, h: seq<nat>)
    requires Flat(act, h) && node < |h|
    ensures Flat(act + {node}, h[node := 0])
  {
  }

  // ------------------------------------------------- where the limit is felt

  /** Nine symbols that occur as often as Fibonacci numbers, and the nodes above them. */
  const FibSymbols: set<nat> := {0, 1, 2, 3, 4, 5, 6, 7, 8}
  const FibFreq: seq<nat> := [1, 1, 2, 3, 5, 8, 13, 21, 34]
  const FibNodes: seq<nat> := FibFreq + [2, 4, 7, 12, 20, 33, 54, 88]

  /** What is left after i merges: the symbols beyond i and the last node made. */
  function FibAct(i: nat): (r: set<nat>)
    ensures forall x: nat :: x in r <==> (if i == 0 then x <= 8 else i < x <= 8 || x == 8 + i)
  {
    (set x | x in FibSymbols && (i == 0 || i < x)) + (if i == 0 then {} else {8 + i})
  }

  /** Merge i takes symbol i + 1 and the last node made. */
  function FibTaken(t: nat): nat {
    if t < 2 then t else if t == 16 || t % 2 == 1 then 8 + t / 2 else t / 2 + 1
  }

  function FibMerges(): Merges {
    Merges(9, seq(17, t requires 0 <= t => FibTaken(t)), seq(9, i requires 0 <= i => FibAct(i)), FibNodes)
  }

  lemma FibSums(i: nat)
    requires i < 8
    ensures |FibNodes| == 17
    ensures FibNodes[9 + i] == FibNodes[i + 1] + FibNodes[if i == 0 then 0 else 8 + i]
    ensures FibNodes[if i == 0 then 0 else i + 1] <= FibNodes[if i == 0 then 1 else 8 + i]
    ensures forall x :: i + 1 < x <= 8 ==> FibNodes[if i == 0 then 1 else 8 + i] < FibNodes[x]
  {
  }

  lemma FibMerge(i: nat, a: nat, b: nat, h: seq<nat>)
    requires i < 8 && a == FibTaken(2 * i) && b == FibTaken(2 * i + 1)
    requires |h| == 17 && forall x :: 0 <= x < 17 ==> h[x] == if x < 9 then 0 else x - 8
    ensures OneMerge(FibAct(i), FibAct(i + 1), a, b, 9 + i, FibNodes)
    ensures Raised(FibAct(i), a, b, 9 + i, FibNodes, h)
  {
    hide FibNodes, FibAct;
    FibSums(i);
    assert if i == 0 then a == 0 && b == 1 else a == i + 1 && b == 8 + i;
    assert FibAct(i + 1) == FibAct(i) - {a, b} + {9 + i};
  }

  /** The merges, and the depths of the nodes cut at seven bits. */
  lemma FibValid(g: Merges, h: seq<nat>, d: seq<nat>)
    requires g == FibMerges() && |h| == |d| == 17 && forall x :: 0 <= x < 17 ==> h[x] == if x < 9 then 0 else x - 8
    requires forall x :: 0 <= x < 17 ==> d[x] == if x <= 2 then 7 else if x < 9 then 9 - x else 16 - x
    ensures Descends(g, d, 7) && Levelled(g, h) && TooDeep(g, d, 7, 0) > 0
  {
    hide OneMerge, Raised, FibNodes;
    FibSums(0);
    assert FibAct(8) == {16};
    forall i {:trigger g.acts[i]} | 0 <= i < |g.acts| - 1
      ensures OneMerge(g.acts[i], g.acts[i + 1], g.removed[2 * i], g.removed[2 * i + 1], g.elems + i, g.freq)
      ensures Raised(g.acts[i], g.removed[2 * i], g.removed[2 * i + 1], g.elems + i, g.freq, h)
    {
      FibMerge(i, g.removed[2 * i], g.removed[2 * i + 1], h);
    }
  }

  /** Seven bits, the limit on the codes of the bit lengths, are not enough for them: no
      lengths of at most seven bits are best. */
  lemma LimitFelt()
    ensures !Attainable(FibSymbols, FibFreq + [0, 0, 0, 0, 0, 0, 0, 0], 7)
  {
    hide Attainable, TooDeep, OneMerge, Raised, ValidMerges, SonsAt, Flat, FibNodes, FibSymbols;
    var g := FibMerges();
    var h := seq(17, x requires 0 <= x => if x < 9 then 0 else x - 8);
    var d := seq(17, x requires 0 <= x <= 16 => if x <= 2 then 7 else if x < 9 then 9 - x else 16 - x);
    FibValid(g, h, d);
    LimitNeeded(g, h, d, 7);
    FibLeaves(FibFreq + [0, 0, 0, 0, 0, 0, 0, 0]);
    if Attainable(FibSymbols, FibFreq + [0, 0, 0, 0, 0, 0, 0, 0], 7) {
      AttainableFreq(FibSymbols, FibFreq + [0, 0, 0, 0, 0, 0, 0, 0], g.freq, 7);
    }
  }

  lemma FibLeaves(freq: seq<nat>)
    requires freq == FibFreq + [0, 0, 0, 0, 0, 0, 0, 0]
    ensures FibAct(0) == FibSymbols && |FibNodes| == |freq|
    ensures forall x :: x in FibSymbols ==> x < |freq| && freq[x] == FibNodes[x]
  {
  }
}
