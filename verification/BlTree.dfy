/** trees.c: build_bl_tree, the code that the code lengths are sent in. */
module BlTree {
  import opened Bits
  import opened Canonical
  import opened Sums
  import opened BitStream
  import opened Format
  import opened FixedCodes
  import opened KraftSums
  import opened TreeCodes
  import opened TreeLengths
  import opened TreeDepths
  import opened BitLengths
  import opened TreeBuild
  import opened BlockOutput
  import opened BlockCost
  import opened InflateSpec
  import opened RoundTrip
  import InfTrees

  lemma {:induction false} ExpandsValid(acc: seq<nat>, ops: seq<Rle>, result: seq<nat>)
    requires Expands(acc, ops, result)
    ensures forall i :: 0 <= i < |ops| ==> ValidRle(ops[i])
    decreases |ops|
  {
    if |ops| > 0 {
      ExpandsValid(Append(acc, ops[0]), ops[1..], result);
      assert forall i :: 1 <= i < |ops| ==> ops[i] == ops[1..][i - 1];
    }
  }

  /** Occurrences of each symbol of the bit length alphabet. */
  ghost function OpFreq(ops: seq<Rle>, n: nat): (r: seq<nat>)
    ensures |r| == n && forall s :: 0 <= s < n ==> r[s] == if s < BL_CODES then Occurs(ops, s) else 0
  {
    seq(n, s requires 0 <= s < n => if s < BL_CODES then Occurs(ops, s) else 0)
  }

  lemma OpFreqStep(ops: seq<Rle>, n: nat)
    requires |ops| > 0 && ops[0].sym < BL_CODES <= n
    ensures OpFreq(ops, n) == Up(OpFreq(ops[1..], n), ops[0].sym)
  {
  }

  lemma OpBitsLength(blLens: seq<nat>, op: Rle)
    requires ValidRle(op) && op.sym < |blLens|
    ensures |OpBits(blLens, op)| == blLens[op.sym] + ExtraOf(BlDesc(), op.sym)
  {
    hide Word, ToBits;
  }

  /** The cost accounted for a run-length code is the bits it is sent in. */
  lemma {:induction false} OpsCost(ops: seq<Rle>, blLens: seq<nat>, d: seq<nat>)
    requires |blLens| == BL_CODES <= |d| && (forall x :: 0 <= x < BL_CODES ==> d[x] == blLens[x])
    requires forall i :: 0 <= i < |ops| ==> ValidRle(ops[i])
    ensures |OpsBits(blLens, ops)| == Sum(All(BL_CODES), DynCosts(BlDesc(), OpFreq(ops, |d|), d))
    decreases |ops|
  {
    hide Sum, DynCosts, OpBits, ExtraOf, Occurs, Up;
    if |ops| == 0 {
      NoOps(|d|);
      NoneYet(BlDesc(), d, BL_CODES);
    } else {
      OpsCost(ops[1..], blLens, d);
      OpFreqStep(ops, |d|);
      OpBitsLength(blLens, ops[0]);
      OneMore(BlDesc(), OpFreq(ops[1..], |d|), d, BL_CODES, ops[0].sym);
    }
  }

  lemma NoOps(n: nat)
    ensures OpFreq([], n) == seq(n, _ => 0)
  {
  }

  /** Every symbol in the code of the lengths has a code itself. */
  lemma OpsSendable(ops: seq<Rle>, blLens: seq<nat>)
    requires (forall i :: 0 <= i < |ops| ==> ValidRle(ops[i]))
    requires forall s :: 0 <= s < BL_CODES && Occurs(ops, s) != 0 ==> s < |blLens| && blLens[s] != 0
    ensures Sendable(blLens, ops)
  {
    forall i | 0 <= i < |ops| ensures ops[i].sym < |blLens| && blLens[ops[i].sym] != 0 { OccursAt(ops, i); }
  }

  lemma {:induction false} OccursAt(ops: seq<Rle>, i: nat)
    requires i < |ops|
    ensures Occurs(ops, ops[i].sym) != 0
    decreases |ops|
  {
    if i > 0 { OccursAt(ops[1..], i - 1); }
  }

  // ------------------------------------------------ symbols beyond the last

  /** Zero lengths at the end change neither the sums nor the codes. */
  lemma {:induction false} UsedPadded(lens: seq<nat>, k: nat, n: nat)
    ensures Used(lens + Repeat(0, k), n) == Used(lens, n)
  {
    hide Count;
    if n > 0 {
      UsedPadded(lens, k, n - 1);
      CountConcat(lens, Repeat(0, k), n);
      CountRepeat(0, k, n);
    }
  }

  lemma {:induction false} FirstCodePadded(lens: seq<nat>, k: nat, n: nat)
    ensures FirstCode(lens + Repeat(0, k), n) == FirstCode(lens, n)
  {
    hide Count;
    if n > 0 {
      FirstCodePadded(lens, k, n - 1);
      CountConcat(lens, Repeat(0, k), n - 1);
      CountRepeat(0, k, n - 1);
    }
  }

  lemma WordPadded(lens: seq<nat>, k: nat, s: nat)
    requires s < |lens|
    ensures Word(lens + Repeat(0, k), s) == Word(lens, s)
  {
    hide FirstCode, Count, Rev;
    FirstCodePadded(lens, k, lens[s]);
    assert (lens + Repeat(0, k))[..s] == lens[..s];
  }

  lemma CodedPadded(tree: seq<CtData>, lens: seq<nat>, k: nat)
    requires Coded(tree, lens) && |lens| + k <= |tree|
    ensures Coded(tree, lens + Repeat(0, k))
  {
    hide Word;
    forall s {:trigger tree[s]} | 0 <= s < |lens| + k && (lens + Repeat(0, k))[s] != 0
      ensures tree[s] == CtData(Word(lens + Repeat(0, k), s), (lens + Repeat(0, k))[s])
    {
      WordPadded(lens, k, s);
    }
  }

  // ---------------------------------------------------------- build_bl_tree

  /** Repeats alone only ever make zeros. */
  lemma {:induction false} ZerosOnly(acc: seq<nat>, ops: seq<Rle>, result: seq<nat>)
    requires Expands(acc, ops, result) && (forall i :: 0 <= i < |ops| ==> ops[i].sym >= 16)
    requires forall i :: 0 <= i < |acc| ==> acc[i] == 0
    ensures forall i :: 0 <= i < |result| ==> result[i] == 0
    decreases |ops|
  {
    if |ops| > 0 { ZerosOnly(Append(acc, ops[0]), ops[1..], result); }
  }

  /** Some length is sent as itself, so the search for the last index succeeds. */
  lemma SomeLiteral(ls: seq<nat>, blLens: seq<nat>) returns (i: nat)
    requires ValidLengths(ls) && |ls| > 0 && ls[|ls| - 1] != 0 && Sendable(blLens, TreeOps(ls)) && |blLens| == BL_CODES
    ensures 3 <= i < BL_CODES && blLens[BL_ORDER[i]] != 0
  {
    hide TreeOps;
    var ops := TreeOps(ls);
    TreeOpsExpand([], ls);
    assert [] + ls == ls;
    if forall k :: 0 <= k < |ops| ==> ops[k].sym >= 16 { ZerosOnly([], ops, ls); }
    var k :| 0 <= k < |ops| && ops[k].sym < 16;
    i := BL_RANK[ops[k].sym];
    RankInverse(ops[k].sym);
    RankOfLiteral(ops[k].sym);
  }

  lemma RankOfLiteral(s: nat)
    requires s < 16
    ensures 3 <= BL_RANK[s]
  {
  }

  /** The last bit length code to send. */
  method LastBlIndex(blTree: array<CtData>, ghost blLens: seq<nat>, ghost some: nat) returns (maxBlindex: nat)
    requires blTree.Length >= BL_CODES && blLens == Lens(blTree[..], BL_CODES)
    requires 3 <= some < BL_CODES && blLens[BL_ORDER[some]] != 0
    ensures 3 <= maxBlindex < BL_CODES && blLens[BL_ORDER[maxBlindex]] != 0
    ensures forall i :: maxBlindex < i < BL_CODES ==> blLens[BL_ORDER[i]] == 0
  {
    maxBlindex := BL_CODES - 1;
    while maxBlindex >= 3
      invariant some <= maxBlindex < BL_CODES
      invariant forall i :: maxBlindex < i < BL_CODES ==> blLens[BL_ORDER[i]] == 0
    {
      if blTree[BL_ORDER[maxBlindex]].dl != 0 { break; }
      maxBlindex := maxBlindex - 1;
    }
  }

  ghost predicate Fresh(blTree: seq<CtData>) {
    BL_CODES <= |blTree| && forall s :: 0 <= s < BL_CODES ==> blTree[s].fc == 0
  }

  /** After both scans the frequencies are the occurrences in both run-length codes. */
  lemma ScannedTwice(b0: seq<CtData>, b1: seq<CtData>, b2: seq<CtData>, ls: seq<nat>, ds: seq<nat>)
    requires Fresh(b0) && Tallied(b0, b1, TreeOps(ls)) && Tallied(b1, b2, TreeOps(ds))
    ensures |b2| == |b0| && forall s :: 0 <= s < BL_CODES ==> Freqs(b2)[s] == Occurs(TreeOps(ls) + TreeOps(ds), s)
  {
    hide Occurs, TreeOps;
    forall s | 0 <= s < BL_CODES ensures Freqs(b2)[s] == Occurs(TreeOps(ls) + TreeOps(ds), s) {
      OccursConcat(TreeOps(ls), TreeOps(ds), s);
      assert b2[s].fc == b1[s].fc + Occurs(TreeOps(ds), s) && b1[s].fc == b0[s].fc + Occurs(TreeOps(ls), s);
    }
  }

  lemma BlCoded(tree: seq<CtData>, maxCode: nat, act: set<nat>)
    requires maxCode < BL_CODES <= |tree| && Coded(tree, Lens(tree, maxCode + 1))
    requires GoodLengths(Lens(tree, maxCode + 1), act, MAX_BL_BITS)
    requires forall x :: maxCode < x < BL_CODES ==> tree[x] == CtData(0, 0)
    ensures Coded(tree, Lens(tree, BL_CODES)) && InfTrees.Acceptable(InfTrees.CODES, Lens(tree, BL_CODES))
    ensures AtMost(Lens(tree, BL_CODES), 7)
    ensures forall x :: x in act && x <= maxCode ==> Lens(tree, BL_CODES)[x] != 0
  {
    hide Coded, Used, Pow2;
    var lens, k := Lens(tree, maxCode + 1), BL_CODES - 1 - maxCode;
    assert Lens(tree, BL_CODES) == lens + Repeat(0, k);
    CodedPadded(tree, lens, k);
    UsedPadded(lens, k, MAXBITS);
  }

  /** All in all: every length can be sent, and the header costs what was accounted. */
  lemma BlTreeDone(was: seq<nat>, tree: seq<CtData>, freq: seq<nat>, act: set<nat>, maxCode: nat, ls: seq<nat>,
                   ds: seq<nat>)
    requires |tree| == 2 * BL_CODES + 1 == |was| && maxCode < BL_CODES && ValidLengths(ls) && ValidLengths(ds)
    requires forall s :: 0 <= s < BL_CODES ==> was[s] == Occurs(TreeOps(ls) + TreeOps(ds), s)
    requires TreeOf(BlDesc(), was, freq, act, Lens(tree, maxCode + 1)) && Coded(tree, Lens(tree, maxCode + 1))
    requires forall x :: maxCode < x < BL_CODES ==> tree[x] == CtData(0, 0)
    ensures var blLens := Lens(tree, BL_CODES);
      && Coded(tree, blLens) && InfTrees.Acceptable(InfTrees.CODES, blLens) && AtMost(blLens, 7)
      && Sendable(blLens, TreeOps(ls)) && Sendable(blLens, TreeOps(ds))
      && Sum(Occurring(was, BL_CODES), DynCosts(BlDesc(), was, Lens(tree, |tree|)))
         == |OpsBits(blLens, TreeOps(ls))| + |OpsBits(blLens, TreeOps(ds))|
      && Sum(Occurring(was, BL_CODES), StatCosts(BlDesc(), was)) == 0
  {
    hide Coded, TreeOps, Occurs, Sum, ValidLengths, OpsBits, GoodLengths, DynCosts, OpFreq, InfTrees.Acceptable;
    hide Sendable;
    var blLens := Lens(tree, BL_CODES);
    var ops := TreeOps(ls) + TreeOps(ds);
    BlCoded(tree, maxCode, act);
    BothValid(ls, ds);
    forall s | 0 <= s < BL_CODES && Occurs(ops, s) != 0 ensures blLens[s] != 0 {
      assert s in Occurring(was, BL_CODES);
    }
    OpsSendable(ops, blLens);
    SendableParts(blLens, TreeOps(ls), TreeOps(ds));
    OpsBitsConcat(blLens, TreeOps(ls), TreeOps(ds));
    OpsCost(ops, blLens, Lens(tree, |tree|));
    OnlyOccurring(BlDesc(), was, Lens(tree, |tree|), BL_CODES);
    SameFreq(was, OpFreq(ops, |tree|), Lens(tree, |tree|), BL_CODES);
    SumZero(Occurring(was, BL_CODES), StatCosts(BlDesc(), was));
  }

  lemma SameFreq(f: seq<nat>, g: seq<nat>, d: seq<nat>, n: nat)
    requires |f| == |g| == |d| && n <= |f| && forall s :: 0 <= s < n ==> f[s] == g[s]
    ensures Sum(All(n), DynCosts(BlDesc(), f, d)) == Sum(All(n), DynCosts(BlDesc(), g, d))
  {
    hide Sum;
    SumEq(All(n), DynCosts(BlDesc(), f, d), DynCosts(BlDesc(), g, d));
  }

  lemma BothValid(ls: seq<nat>, ds: seq<nat>)
    requires ValidLengths(ls) && ValidLengths(ds)
    ensures forall i :: 0 <= i < |TreeOps(ls) + TreeOps(ds)| ==> ValidRle((TreeOps(ls) + TreeOps(ds))[i])
  {
    hide TreeOps, ValidRle;
    TreeOpsExpand([], ls);
    ExpandsValid([], TreeOps(ls), [] + ls);
    TreeOpsExpand([], ds);
    ExpandsValid([], TreeOps(ds), [] + ds);
  }

  /** build_bl_tree: a code in which both trees' lengths can be sent, and the cost of the
      whole header, to the bit. */
  method BuildBlTree(b: Builder, ltree: array<CtData>, lMax: nat, dtree: array<CtData>, dMax: nat,
                     blTree: array<CtData>, ghost ls: seq<nat>, ghost ds: seq<nat>)
    returns (maxBlindex: nat, ghost blLens: seq<nat>)
    requires b.Valid() && ltree != dtree && ltree != blTree && dtree != blTree && blTree.Length == 2 * BL_CODES + 1
    requires lMax + 1 < ltree.Length && dMax + 1 < dtree.Length && 256 <= lMax < L_CODES && dMax < D_CODES
    requires ls == Lens(ltree[..], lMax + 1) && ds == Lens(dtree[..], dMax + 1) && ValidLengths(ls) && ValidLengths(ds)
    requires Fresh(blTree[..]) && ls[lMax] != 0
    modifies b, b.heap, b.depth, b.blCount, ltree, dtree, blTree
    ensures ltree[..] == old(ltree[..])[lMax + 1 := old(ltree[lMax + 1]).(dl := GUARD)]
    ensures dtree[..] == old(dtree[..])[dMax + 1 := old(dtree[dMax + 1]).(dl := GUARD)]
    ensures Announceable(maxBlindex + 1, blLens, ls, ds)
    ensures blLens == Lens(blTree[..], BL_CODES) && Coded(blTree[..], blLens)
    ensures b.optLen == old(b.optLen) + |HeaderBits(maxBlindex + 1, blLens, ls, ds)| && b.staticLen == old(b.staticLen)
  {
    hide TreeOps, Tallied, Fresh, ValidLengths, Coded, Sum, DynCosts, StatCosts, Occurring, TreeOf, Finest, Graded;
    hide Announceable, OpsBits, BlLensBits;
    DescsOk();
    ScanBoth(ltree, lMax, dtree, dMax, blTree, ls, ds);
    ghost var b2 := blTree[..];
    ghost var freq, act;
    var maxCode;
    maxCode, freq, act := BuildTree(b, blTree, BlDesc());
    blLens := Lens(blTree[..], BL_CODES);
    BlTreeDone(Freqs(b2), blTree[..], freq, act, maxCode, ls, ds);
    ghost var some := SomeLiteral(ls, blLens);
    maxBlindex := LastBlIndex(blTree, blLens, some);
    b.optLen := b.optLen + 3 * (maxBlindex + 1) + 5 + 5 + 4;
    HeaderLength(maxBlindex + 1, blLens, ls, ds);
    AnnounceableNow(maxBlindex + 1, blLens, ls, ds);
  }

  /** Both trees' lengths as symbols of the bit length tree. */
  method ScanBoth(ltree: array<CtData>, lMax: nat, dtree: array<CtData>, dMax: nat, blTree: array<CtData>,
                  ghost ls: seq<nat>, ghost ds: seq<nat>)
    requires ltree != dtree && ltree != blTree && dtree != blTree && blTree.Length == 2 * BL_CODES + 1
    requires lMax + 1 < ltree.Length && dMax + 1 < dtree.Length
    requires ls == Lens(ltree[..], lMax + 1) && ds == Lens(dtree[..], dMax + 1) && ValidLengths(ls) && ValidLengths(ds)
    requires Fresh(blTree[..])
    modifies ltree, dtree, blTree
    ensures ltree[..] == old(ltree[..])[lMax + 1 := old(ltree[lMax + 1]).(dl := GUARD)]
    ensures dtree[..] == old(dtree[..])[dMax + 1 := old(dtree[dMax + 1]).(dl := GUARD)]
    ensures forall s :: 0 <= s < BL_CODES ==> Freqs(blTree[..])[s] == Occurs(TreeOps(ls) + TreeOps(ds), s)
  {
    hide TreeOps, Tallied, Fresh, ValidLengths, Occurs;
    ghost var b0 := blTree[..];
    ScanTree(ltree, lMax, blTree, ls);
    ghost var b1 := blTree[..];
    ScanTree(dtree, dMax, blTree, ds);
    ScannedTwice(b0, b1, blTree[..], ls, ds);
  }

  lemma HeaderLength(blcodes: nat, blLens: seq<nat>, ls: seq<nat>, ds: seq<nat>)
    requires 4 <= blcodes <= BL_CODES == |blLens| && |ls| >= 257 && |ds| >= 1
    ensures |HeaderBits(blcodes, blLens, ls, ds)| ==
      14 + 3 * blcodes + |OpsBits(blLens, TreeOps(ls))| + |OpsBits(blLens, TreeOps(ds))|
  {
    hide OpsBits, TreeOps;
    BlLensBitsLength(blLens, blcodes);
  }

  lemma AnnounceableNow(blcodes: nat, blLens: seq<nat>, ls: seq<nat>, ds: seq<nat>)
    requires 4 <= blcodes <= BL_CODES == |blLens| && 257 <= |ls| <= L_CODES && 1 <= |ds| <= D_CODES
    requires AtMost(blLens, 7) && InfTrees.Acceptable(InfTrees.CODES, blLens) && ValidLengths(ls) && ValidLengths(ds)
    requires (forall i :: blcodes <= i < BL_CODES ==> blLens[BL_ORDER[i]] == 0)
    requires Sendable(blLens, TreeOps(ls)) && Sendable(blLens, TreeOps(ds))
    ensures Announceable(blcodes, blLens, ls, ds)
  {
    hide Sendable, TreeOps, InfTrees.Acceptable;
  }
}
