/** trees.c: sending the code lengths of a tree in run-length coded form. */
module TreeLengths {
  import opened Bits
  import opened Canonical
  import opened BitStream
  import opened BitOutput
  import opened Format
  import opened TreeCodes

  const GUARD := 0xffff

  /** ops, appended to acc, yield exactly result. */
  ghost predicate Expands(acc: seq<nat>, ops: seq<Rle>, result: seq<nat>)
    decreases |ops|
  {
    if |ops| == 0 then acc == result
    else ValidRle(ops[0]) && (ops[0].sym == REP_3_6 ==> |acc| > 0) && Expands(Append(acc, ops[0]), ops[1..], result)
  }

  lemma {:induction false} ExpandsConcat(acc: seq<nat>, a: seq<Rle>, mid: seq<nat>, b: seq<Rle>, result: seq<nat>)
    requires Expands(acc, a, mid) && Expands(mid, b, result)
    ensures Expands(acc, a + b, result)
    decreases |a|
  {
    if |a| == 0 {
      assert a + b == b;
    } else {
      assert (a + b)[1..] == a[1..] + b;
      ExpandsConcat(Append(acc, a[0]), a[1..], mid, b, result);
    }
  }

  // -------------------------------------------- the run-length coding decisions

  function MaxCount(prevlen: int, len: nat): nat {
    if len == 0 then 138 else if prevlen == len then 6 else 7
  }

  function MinCount(prevlen: int, len: nat): nat {
    if len == 0 then 3 else if prevlen == len then 3 else 4
  }

  /** The symbols for a run of count lengths that ends here. */
  function RunOps(prevlen: int, len: nat, count: nat): seq<Rle> {
    if count < MinCount(prevlen, len) then seq(count, _ => Rle(len, 0))
    else if len != 0 then
      if len != prevlen then [Rle(len, 0), Rle(REP_3_6, if count >= 4 then count - 4 else 0)]
      else [Rle(REP_3_6, if count >= 3 then count - 3 else 0)]
    else if count <= 10 then [Rle(REPZ_3_10, if count >= 3 then count - 3 else 0)]
    else [Rle(REPZ_11_138, count - 11)]
  }

  /** All symbols sent from position n on, count equal lengths being pending. */
  function OpsFrom(lens: seq<nat>, n: nat, count: nat, prevlen: int): seq<Rle>
    requires n <= |lens|
    decreases |lens| - n
  {
    if n == |lens| then []
    else
      var cur := lens[n];
      var next := if n + 1 < |lens| then lens[n + 1] else GUARD;
      if count + 1 < MaxCount(prevlen, cur) && cur == next then OpsFrom(lens, n + 1, count + 1, prevlen)
      else RunOps(prevlen, cur, count + 1) + OpsFrom(lens, n + 1, 0, cur)
  }

  /** The pending run: the last count lengths before n all equal the one at n. */
  ghost predicate PendingRun(lens: seq<nat>, n: nat, count: nat, prevlen: int) {
    count <= n <= |lens|
    && (count > 0 ==> n < |lens| && count < MaxCount(prevlen, lens[n]))
    && (count > 0 ==> forall i :: n - count <= i < n ==> lens[i] == lens[n])
    && prevlen == if n - count == 0 then -1 else lens[n - count - 1]
  }

  /** A run appended by its symbols, whatever came before it. */
  lemma RunExpands(acc: seq<nat>, prevlen: int, len: nat, count: nat)
    requires len <= MAXBITS && 1 <= count <= MaxCount(prevlen, len)
    requires prevlen == len ==> |acc| > 0 && acc[|acc| - 1] == len
    ensures Expands(acc, RunOps(prevlen, len, count), acc + Repeat(len, count))
  {
    Pow2Values();
    var ops := RunOps(prevlen, len, count);
    if count < MinCount(prevlen, len) {
      LiteralRun(acc, len, count);
    } else if |ops| == 2 {
      var mid := Append(acc, ops[0]);
      assert Append(mid, ops[1]) == acc + Repeat(len, count);
      assert ops[1..][1..] == [];
    } else {
      assert Append(acc, ops[0]) == acc + Repeat(len, count);
      assert ops[1..] == [];
    }
  }

  lemma {:induction false} LiteralRun(acc: seq<nat>, len: nat, count: nat)
    requires len <= MAXBITS
    ensures Expands(acc, seq(count, _ => Rle(len, 0)), acc + Repeat(len, count))
    decreases count
  {
    var ops := seq(count, _ => Rle(len, 0));
    if count == 0 {
      assert acc + Repeat(len, 0) == acc;
    } else {
      assert ops[1..] == seq(count - 1, _ => Rle(len, 0));
      LiteralRun(acc + [len], len, count - 1);
      assert acc + [len] + Repeat(len, count - 1) == acc + Repeat(len, count);
      assert Pow2(0) == 1;
    }
  }

  lemma NoOps(acc: seq<nat>)
    ensures Expands(acc, [], acc)
  {
  }

  /** Decoding what is sent gives the lengths back, after any lengths already decoded. */
  lemma {:induction false} OpsExpand(acc: seq<nat>, lens: seq<nat>, n: nat, count: nat, prevlen: int)
    requires ValidLengths(lens) && PendingRun(lens, n, count, prevlen)
    ensures Expands(acc + lens[..n - count], OpsFrom(lens, n, count, prevlen), acc + lens)
    decreases |lens| - n
  {
    hide RunOps, Expands;
    if n == |lens| {
      assert lens[..n] == lens;
      NoOps(acc + lens);
    } else {
      var cur := lens[n];
      var next := if n + 1 < |lens| then lens[n + 1] else GUARD;
      if count + 1 < MaxCount(prevlen, cur) && cur == next {
        OpsExpand(acc, lens, n + 1, count + 1, prevlen);
      } else {
        var pre := acc + lens[..n - count];
        RunExpands(pre, prevlen, cur, count + 1);
        assert pre + Repeat(cur, count + 1) == acc + lens[..n + 1];
        OpsExpand(acc, lens, n + 1, 0, cur);
        ExpandsConcat(pre, RunOps(prevlen, cur, count + 1), acc + lens[..n + 1], OpsFrom(lens, n + 1, 0, cur),
          acc + lens);
      }
    }
  }

  /** The run-length code of a tree's lengths. */
  function TreeOps(lens: seq<nat>): seq<Rle> {
    OpsFrom(lens, 0, 0, -1)
  }

  /** Nothing is lost, and no repeat reaches back before the first length sent,
      so a tree may follow another without a break. */
  lemma TreeOpsExpand(acc: seq<nat>, lens: seq<nat>)
    requires ValidLengths(lens)
    ensures Expands(acc, TreeOps(lens), acc + lens)
  {
    OpsExpand(acc, lens, 0, 0, -1);
    assert acc + lens[..0] == acc;
  }

  // ------------------------------------------------------------ sending them

  function OpBits(blLens: seq<nat>, op: Rle): seq<bool> {
    CodeBits(blLens, op.sym) + ToBits(op.extra, ExtraBlBits(op.sym))
  }

  ghost predicate Sendable(blLens: seq<nat>, ops: seq<Rle>) {
    forall i :: 0 <= i < |ops| ==> ValidRle(ops[i]) && ops[i].sym < |blLens| && blLens[ops[i].sym] != 0
  }

  function OpsBits(blLens: seq<nat>, ops: seq<Rle>): seq<bool> {
    if |ops| == 0 then [] else OpBits(blLens, ops[0]) + OpsBits(blLens, ops[1..])
  }

  lemma SendableParts(blLens: seq<nat>, a: seq<Rle>, b: seq<Rle>)
    requires Sendable(blLens, a + b)
    ensures Sendable(blLens, a) && Sendable(blLens, b)
  {
    assert forall i :: 0 <= i < |a| ==> (a + b)[i] == a[i];
    assert forall i :: 0 <= i < |b| ==> (a + b)[|a| + i] == b[i];
  }

  lemma {:induction false} OpsBitsConcat(blLens: seq<nat>, a: seq<Rle>, b: seq<Rle>)
    ensures OpsBits(blLens, a + b) == OpsBits(blLens, a) + OpsBits(blLens, b)
  {
    hide OpBits;
    if |a| == 0 {
      assert a + b == b;
    } else {
      assert (a + b)[1..] == a[1..] + b;
      OpsBitsConcat(blLens, a[1..], b);
    }
  }

  /** One symbol of the bit length alphabet and its repeat field. */
  method SendOp(o: Pending, op: Rle, blTree: array<CtData>, ghost blLens: seq<nat>)
    requires o.Valid() && ValidRle(op) && op.sym < |blLens| <= blTree.Length && blLens[op.sym] != 0
    requires ValidLengths(blLens) && Coded(blTree[..], blLens)
    requires o.Room(|OpBits(blLens, op)|)
    modifies o, o.pending_buf
    ensures o.Valid() && o.pending_buf == old(o.pending_buf)
    ensures o.Stream() == old(o.Stream()) + OpBits(blLens, op)
    ensures old(o.pending) <= o.pending
    ensures forall j :: o.pending <= j < o.pending_buf.Length ==> o.pending_buf[j] == old(o.pending_buf[j])
  {
    hide ToBits, Word, Pow2;
    SendCode(o, blTree, op.sym, blLens);
    if ExtraBlBits(op.sym) != 0 {
      o.SendBits(op.extra, ExtraBlBits(op.sym));
    }
  }

  /** What is left to send after done is the code of the lengths from position n on. */
  ghost predicate Progress(blLens: seq<nat>, lens: seq<nat>, done: seq<Rle>, n: nat, count: nat, prevlen: int) {
    n <= |lens| && Sendable(blLens, TreeOps(lens)) && done + OpsFrom(lens, n, count, prevlen) == TreeOps(lens)
  }

  /** The run that ends at n goes out as a whole. */
  lemma FlushRun(blLens: seq<nat>, lens: seq<nat>, done: seq<Rle>, n: nat, count: nat, prevlen: int)
    returns (run: seq<Rle>)
    requires n < |lens| && Progress(blLens, lens, done, n, count, prevlen)
    requires !(count + 1 < MaxCount(prevlen, lens[n]) && lens[n] == (if n + 1 < |lens| then lens[n + 1] else GUARD))
    ensures run == RunOps(prevlen, lens[n], count + 1)
    ensures Sendable(blLens, done) && Sendable(blLens, run) && Sendable(blLens, done + run)
    ensures Progress(blLens, lens, done + run, n + 1, 0, lens[n])
    ensures OpsBits(blLens, done + run) == OpsBits(blLens, done) + OpsBits(blLens, run)
    ensures |OpsBits(blLens, done + run)| <= |OpsBits(blLens, TreeOps(lens))|
  {
    hide RunOps, OpsBits, Sendable;
    run := RunOps(prevlen, lens[n], count + 1);
    var rest := OpsFrom(lens, n + 1, 0, lens[n]);
    assert TreeOps(lens) == done + run + rest;
    OpsBitsConcat(blLens, done + run, rest);
    OpsBitsConcat(blLens, done, run);
    SendableParts(blLens, done + run, rest);
    SendableParts(blLens, done, run);
  }

  lemma TwoOps(blLens: seq<nat>, ops: seq<Rle>)
    requires |ops| == 2
    ensures OpsBits(blLens, ops) == OpBits(blLens, ops[0]) + OpBits(blLens, ops[1])
  {
    hide OpBits;
    var tail := ops[1..];
    assert tail[1..] == [];
    assert OpsBits(blLens, tail) == OpBits(blLens, ops[1]) + [];
  }

  /** The sends for one run, as send_tree makes them. */
  method SendRun(o: Pending, prevlen: int, curlen: nat, count0: nat, minCount: nat, blTree: array<CtData>,
                 ghost blLens: seq<nat>)
    requires o.Valid() && |blLens| == BL_CODES <= blTree.Length
    requires ValidLengths(blLens) && Coded(blTree[..], blLens)
    requires 1 <= count0 <= MaxCount(prevlen, curlen) && minCount == MinCount(prevlen, curlen)
    requires Sendable(blLens, RunOps(prevlen, curlen, count0))
    requires o.Room(|OpsBits(blLens, RunOps(prevlen, curlen, count0))|)
    modifies o, o.pending_buf
    ensures o.Valid() && o.pending_buf == old(o.pending_buf)
    ensures o.Stream() == old(o.Stream()) + OpsBits(blLens, RunOps(prevlen, curlen, count0))
    ensures old(o.pending) <= o.pending
    ensures forall j :: o.pending <= j < o.pending_buf.Length ==> o.pending_buf[j] == old(o.pending_buf[j])
  {
    hide ToBits, Word, Pow2, OpBits;
    var count := count0;
    ghost var ops := RunOps(prevlen, curlen, count0);
    if count < minCount {
      SendLiterals(o, curlen, count, blTree, blLens);
    } else if curlen != 0 {
      if curlen != prevlen {
        TwoOps(blLens, ops);
        SendOp(o, Rle(curlen, 0), blTree, blLens);
        count := count - 1;
      } else {
        assert ops[1..] == [];
      }
      SendOp(o, Rle(REP_3_6, count - 3), blTree, blLens);
    } else if count <= 10 {
      assert ops[1..] == [];
      SendOp(o, Rle(REPZ_3_10, count - 3), blTree, blLens);
    } else {
      assert ops[1..] == [];
      SendOp(o, Rle(REPZ_11_138, count - 11), blTree, blLens);
    }
  }

  method SendLiterals(o: Pending, curlen: nat, count0: nat, blTree: array<CtData>, ghost blLens: seq<nat>)
    requires o.Valid() && |blLens| == BL_CODES <= blTree.Length
    requires ValidLengths(blLens) && Coded(blTree[..], blLens)
    requires count0 >= 1 && Sendable(blLens, seq(count0, _ => Rle(curlen, 0)))
    requires o.Room(|OpsBits(blLens, seq(count0, _ => Rle(curlen, 0)))|)
    modifies o, o.pending_buf
    ensures o.Valid() && o.pending_buf == old(o.pending_buf)
    ensures o.Stream() == old(o.Stream()) + OpsBits(blLens, seq(count0, _ => Rle(curlen, 0)))
    ensures old(o.pending) <= o.pending
    ensures forall j :: o.pending <= j < o.pending_buf.Length ==> o.pending_buf[j] == old(o.pending_buf[j])
  {
    hide ToBits, Word, Pow2, OpBits;
    var count := count0;
    while count != 0
      invariant count <= count0 && o.Valid() && o.pending_buf == old(o.pending_buf)
      invariant old(o.pending) <= o.pending
      invariant forall j :: o.pending <= j < o.pending_buf.Length ==> o.pending_buf[j] == old(o.pending_buf[j])
      invariant Sendable(blLens, seq(count, _ => Rle(curlen, 0)))
      invariant o.Room(|OpsBits(blLens, seq(count, _ => Rle(curlen, 0)))|)
      invariant o.Stream() + OpsBits(blLens, seq(count, _ => Rle(curlen, 0)))
        == old(o.Stream()) + OpsBits(blLens, seq(count0, _ => Rle(curlen, 0)))
    {
      ghost var ops := seq(count, _ => Rle(curlen, 0));
      assert ops == [Rle(curlen, 0)] + seq(count - 1, _ => Rle(curlen, 0));
      assert ops[1..] == seq(count - 1, _ => Rle(curlen, 0));
      SendableParts(blLens, [Rle(curlen, 0)], ops[1..]);
      assert ValidRle(ops[0]);
      SendOp(o, Rle(curlen, 0), blTree, blLens);
      count := count - 1;
    }
  }

  /** send_tree: the lengths of a tree in compressed form. */
  method SendTree(o: Pending, tree: array<CtData>, maxCode: nat, blTree: array<CtData>, ghost lens: seq<nat>,
                  ghost blLens: seq<nat>)
    requires o.Valid() && |blLens| == BL_CODES <= blTree.Length
    requires ValidLengths(blLens) && Coded(blTree[..], blLens)
    requires maxCode + 1 < tree.Length && lens == Lens(tree[..], maxCode + 1) && ValidLengths(lens)
    requires tree[maxCode + 1].dl == GUARD
    requires Sendable(blLens, TreeOps(lens)) && o.Room(|OpsBits(blLens, TreeOps(lens))|)
    modifies o, o.pending_buf
    ensures o.Valid() && o.pending_buf == old(o.pending_buf)
    ensures o.Stream() == old(o.Stream()) + OpsBits(blLens, TreeOps(lens))
    ensures old(o.pending) <= o.pending
    ensures forall j :: o.pending <= j < o.pending_buf.Length ==> o.pending_buf[j] == old(o.pending_buf[j])
  {
    hide ToBits, Word, Pow2, OpBits, RunOps, OpsBits, Sendable, Coded, BytesToBits;
    var prevlen: int := -1;
    var nextlen: nat := tree[0].dl;
    var count, maxCount, minCount := 0, 7, 4;
    if nextlen == 0 { maxCount, minCount := 138, 3; }
    ghost var done: seq<Rle> := [];
    ghost var s0 := o.Stream();
    NothingSent(blLens, lens);
    for n := 0 to maxCode + 1
      invariant o.Valid() && o.pending_buf == old(o.pending_buf)
      invariant old(o.pending) <= o.pending
      invariant forall j :: o.pending <= j < o.pending_buf.Length ==> o.pending_buf[j] == old(o.pending_buf[j])
      invariant nextlen == tree[n].dl
      invariant maxCount == MaxCount(prevlen, nextlen) && minCount == MinCount(prevlen, nextlen)
      invariant count == 0 || (n <= maxCode && count < maxCount)
      invariant Progress(blLens, lens, done, n, count, prevlen) && Sendable(blLens, done)
      invariant o.Stream() == s0 + OpsBits(blLens, done)
    {
      var curlen := nextlen;
      nextlen := tree[n + 1].dl;
      count := count + 1;
      assert curlen == lens[n] && nextlen == if n + 1 < |lens| then lens[n + 1] else GUARD;
      if count < maxCount && curlen == nextlen { continue; }
      ghost var run := FlushRun(blLens, lens, done, n, count - 1, prevlen);
      SendRun(o, prevlen, curlen, count, minCount, blTree, blLens);
      Glue(s0, OpsBits(blLens, done), OpsBits(blLens, run));
      done := done + run;
      count := 0;
      prevlen := curlen;
      if nextlen == 0 {
        maxCount, minCount := 138, 3;
      } else if curlen == nextlen {
        maxCount, minCount := 6, 3;
      } else {
        maxCount, minCount := 7, 4;
      }
    }
    assert done + [] == done;
  }

  lemma NothingSent(blLens: seq<nat>, lens: seq<nat>)
    requires Sendable(blLens, TreeOps(lens))
    ensures Sendable(blLens, []) && OpsBits(blLens, []) == []
    ensures Progress(blLens, lens, [], 0, 0, -1)
  {
    assert [] + TreeOps(lens) == TreeOps(lens);
  }

  // ------------------------------------------------------------ counting them

  /** How often a symbol occurs. */
  function Occurs(ops: seq<Rle>, sym: nat): nat {
    if |ops| == 0 then 0 else (if ops[0].sym == sym then 1 else 0) + Occurs(ops[1..], sym)
  }

  lemma {:induction false} OccursConcat(a: seq<Rle>, b: seq<Rle>, sym: nat)
    ensures Occurs(a + b, sym) == Occurs(a, sym) + Occurs(b, sym)
  {
    if |a| == 0 {
      assert a + b == b;
    } else {
      assert (a + b)[1..] == a[1..] + b;
      OccursConcat(a[1..], b, sym);
    }
  }

  lemma {:induction false} OccursLiterals(len: nat, n: nat, sym: nat)
    ensures Occurs(seq(n, _ => Rle(len, 0)), sym) == if sym == len then n else 0
  {
    if n > 0 {
      assert seq(n, _ => Rle(len, 0))[1..] == seq(n - 1, _ => Rle(len, 0));
      OccursLiterals(len, n - 1, sym);
    }
  }

  /** Frequencies with the occurrences in ops added. */
  ghost predicate Tallied(was: seq<CtData>, now: seq<CtData>, ops: seq<Rle>) {
    |was| == |now| && BL_CODES <= |was| &&
    forall s {:trigger now[s]} :: 0 <= s < BL_CODES ==>
      now[s].dl == was[s].dl && now[s].fc == was[s].fc + Occurs(ops, s)
  }

  lemma TwoOccurs(ops: seq<Rle>)
    requires |ops| == 2
    ensures forall s: nat :: Occurs(ops, s) == (if ops[0].sym == s then 1 else 0) + (if ops[1].sym == s then 1 else 0)
  {
    var tail := ops[1..];
    assert tail[1..] == [];
    assert forall s: nat :: Occurs(tail, s) == if ops[1].sym == s then 1 else 0;
  }

  lemma {:induction false} OccursBound(ops: seq<Rle>, sym: nat)
    ensures Occurs(ops, sym) <= |ops|
  {
    if |ops| > 0 { OccursBound(ops[1..], sym); }
  }

  /** The updates for one run, as scan_tree makes them. */
  method CountRun(prevlen: int, curlen: nat, count: nat, minCount: nat, blTree: array<CtData>)
    requires BL_CODES <= blTree.Length && curlen <= MAXBITS
    requires 1 <= count <= MaxCount(prevlen, curlen) && minCount == MinCount(prevlen, curlen)
    modifies blTree
    ensures Tallied(old(blTree[..]), blTree[..], RunOps(prevlen, curlen, count))
    ensures blTree[BL_CODES..] == old(blTree[BL_CODES..])
  {
    ghost var ops := RunOps(prevlen, curlen, count);
    if count < minCount {
      forall s ensures s >= 0 ==> Occurs(ops, s) == if s == curlen then count else 0 {
        if s >= 0 { OccursLiterals(curlen, count, s); }
      }
      blTree[curlen] := blTree[curlen].(fc := blTree[curlen].fc + count);
    } else if curlen != 0 {
      if curlen != prevlen {
        TwoOccurs(ops);
        blTree[curlen] := blTree[curlen].(fc := blTree[curlen].fc + 1);
      } else {
        assert ops[1..] == [];
      }
      blTree[REP_3_6] := blTree[REP_3_6].(fc := blTree[REP_3_6].fc + 1);
    } else if count <= 10 {
      assert ops[1..] == [];
      blTree[REPZ_3_10] := blTree[REPZ_3_10].(fc := blTree[REPZ_3_10].fc + 1);
    } else {
      assert ops[1..] == [];
      blTree[REPZ_11_138] := blTree[REPZ_11_138].(fc := blTree[REPZ_11_138].fc + 1);
    }
  }

  /** scan_tree: count the symbols send_tree will send, and set the guard. */
  method ScanTree(tree: array<CtData>, maxCode: nat, blTree: array<CtData>, ghost lens: seq<nat>)
    requires tree != blTree && BL_CODES <= blTree.Length
    requires maxCode + 1 < tree.Length && lens == Lens(tree[..], maxCode + 1) && ValidLengths(lens)
    modifies tree, blTree
    ensures tree[..] == old(tree[..])[maxCode + 1 := old(tree[maxCode + 1]).(dl := GUARD)]
    ensures Tallied(old(blTree[..]), blTree[..], TreeOps(lens))
    ensures blTree[BL_CODES..] == old(blTree[BL_CODES..])
  {
    hide RunOps, Occurs;
    var prevlen: int := -1;
    var nextlen: nat := tree[0].dl;
    var count, maxCount, minCount := 0, 7, 4;
    if nextlen == 0 { maxCount, minCount := 138, 3; }
    tree[maxCode + 1] := tree[maxCode + 1].(dl := GUARD);
    ghost var done: seq<Rle> := [];
    ghost var was := blTree[..];
    assert done + TreeOps(lens) == TreeOps(lens);
    TalliedNone(was);
    for n := 0 to maxCode + 1
      invariant tree[..] == old(tree[..])[maxCode + 1 := old(tree[maxCode + 1]).(dl := GUARD)]
      invariant nextlen == tree[n].dl
      invariant maxCount == MaxCount(prevlen, nextlen) && minCount == MinCount(prevlen, nextlen)
      invariant count == 0 || (n <= maxCode && count < maxCount)
      invariant done + OpsFrom(lens, n, count, prevlen) == TreeOps(lens)
      invariant Tallied(was, blTree[..], done)
      invariant blTree[BL_CODES..] == old(blTree[BL_CODES..])
    {
      var curlen := nextlen;
      nextlen := tree[n + 1].dl;
      count := count + 1;
      assert curlen == lens[n] && nextlen == if n + 1 < |lens| then lens[n + 1] else GUARD;
      if count < maxCount && curlen == nextlen { continue; }
      ghost var run := RunOps(prevlen, curlen, count);
      assert done + run + OpsFrom(lens, n + 1, 0, curlen) == TreeOps(lens);
      ghost var mid := blTree[..];
      CountRun(prevlen, curlen, count, minCount, blTree);
      TalliedMore(was, mid, blTree[..], done, run);
      done := done + run;
      count := 0;
      prevlen := curlen;
      if nextlen == 0 {
        maxCount, minCount := 138, 3;
      } else if curlen == nextlen {
        maxCount, minCount := 6, 3;
      } else {
        maxCount, minCount := 7, 4;
      }
    }
    assert done + [] == done;
  }

  lemma TalliedNone(was: seq<CtData>)
    requires BL_CODES <= |was|
    ensures Tallied(was, was, [])
  {
    assert forall s: nat :: Occurs([], s) == 0;
  }

  lemma TalliedMore(was: seq<CtData>, mid: seq<CtData>, now: seq<CtData>, a: seq<Rle>, b: seq<Rle>)
    requires Tallied(was, mid, a) && Tallied(mid, now, b)
    ensures Tallied(was, now, a + b)
  {
    hide Occurs;
    forall s | 0 <= s < BL_CODES
      ensures now[s].dl == was[s].dl && now[s].fc == was[s].fc + Occurs(a + b, s)
    {
      OccursConcat(a, b, s);
      assert mid[s].fc == was[s].fc + Occurs(a, s);
    }
  }
}
