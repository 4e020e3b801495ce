/** trees.c and deflate.h: tallying symbols and flushing them as a block of the cheapest kind. */
module BlockWriter {
  import opened Bits
  import opened Canonical
  import opened Sums
  import opened BitStream
  import opened BitOutput
  import opened Format
  import opened FixedCodes
  import opened TreeCodes
  import opened TreeLengths
  import opened TreeDepths
  import opened BitLengths
  import opened TreeBuild
  import opened BlockOutput
  import opened BlockCost
  import opened BlTree
  import opened RoundTrip
  import opened StreamRoundTrip

  /** tr_static_init */
  method StaticTables() returns (m: Maps, st: array<CtData>, sd: array<CtData>)
    ensures fresh(st) && fresh(sd) && st.Length == L_CODES + 2 && sd.Length == D_CODES
    ensures MapsOk(m) && Coded(st[..], FixedLitLens()) && DistCoded(sd[..], FixedDistLens())
  {
    hide MapsOk, Coded, DistCoded, FixedLitLens, FixedDistLens;
    m := StaticMaps();
    st := new CtData[L_CODES + 2](_ => CtData(0, 0));
    InitStaticLitTree(st);
    sd := new CtData[D_CODES](_ => CtData(0, 0));
    InitStaticDistTree(sd);
    StaticDistCoded(sd[..]);
  }

  method StaticMaps() returns (m: Maps)
    ensures MapsOk(m)
  {
    hide LengthMap, DistMap;
    var lengthCode, baseLength := new nat[256](_ => 0), new nat[LENGTH_CODES](_ => 0);
    InitLengths(lengthCode, baseLength);
    var distCode, baseDist := new nat[512](_ => 0), new nat[D_CODES](_ => 0);
    InitDistances(distCode, baseDist);
    m := Maps(lengthCode[..], baseLength[..], distCode[..], baseDist[..]);
  }

  /** The trees and the symbol buffer of deflate_state. */
  class Writer {
    const o: Pending
    const b: Builder
    const ltree: array<CtData>
    const dtree: array<CtData>
    const blTree: array<CtData>
    const sltree: array<CtData>
    const sdtree: array<CtData>
    const m: Maps
    const symBase: nat
    const symEnd: nat
    var symNext: nat
    var lMax: nat
    var dMax: nat
    ghost var ts: seq<Token>

    /** _tr_init: static tables set up, first block begun. */
    constructor (litBufsize: nat)
      requires 128 <= litBufsize <= 32768
      ensures Valid() && ts == [] && o.Stream() == [] && fresh(o) && fresh(o.pending_buf) && fresh(b)
      ensures fresh(b.heap) && fresh(b.depth) && fresh(b.blCount) && fresh(ltree) && fresh(dtree) && fresh(blTree)
      ensures symBase == litBufsize && symNext == 0 && fresh(sltree) && fresh(sdtree)
      ensures o.pending_buf.Length == 4 * litBufsize && symEnd == 3 * (litBufsize - 1)
    {
      hide MapsOk, Coded, DistCoded, FixedLitLens, FixedDistLens, LitFreq, DistFreq, SymbolsAt, Tallies, Fresh;
      var maps, st, sd := StaticTables();
      m, sltree, sdtree := maps, st, sd;
      o := new Pending(4 * litBufsize);
      b := new Builder();
      ltree := new CtData[HEAP_SIZE](_ => CtData(0, 0));
      dtree := new CtData[2 * D_CODES + 1](_ => CtData(0, 0));
      blTree := new CtData[2 * BL_CODES + 1](_ => CtData(0, 0));
      symBase, symEnd, symNext, ts, lMax, dMax := litBufsize, 3 * (litBufsize - 1), 0, [], 0, 0;
      new;
      InitBlock();
    }

    /** Objects that never change and are all different. */
    ghost predicate Shape()
      reads this, o
    {
      && b.Valid() && ltree.Length == HEAP_SIZE && dtree.Length == 2 * D_CODES + 1 && blTree.Length == 2 * BL_CODES + 1
      && sltree.Length == L_CODES + 2 && sdtree.Length == D_CODES
      && ltree != dtree && ltree != blTree && dtree != blTree
      && sltree != ltree && sltree != dtree && sltree != blTree && sdtree != ltree && sdtree != dtree
      && sdtree != blTree
      && symBase + symEnd + 3 <= o.pending_buf.Length && symEnd % 3 == 0 && 128 <= symBase
      && symEnd == 3 * (symBase - 1)
    }

    ghost predicate StaticOk()
      reads sltree, sdtree
    {
      MapsOk(m) && Coded(sltree[..], FixedLitLens()) && DistCoded(sdtree[..], FixedDistLens())
    }

    /** The symbol buffer holds the tokens tallied, the trees their frequencies. */
    ghost predicate Valid()
      reads this, o, o.pending_buf, b, ltree, dtree, blTree, sltree, sdtree
    {
      && Shape() && StaticOk() && o.Valid() && b.optLen == 0 && b.staticLen == 0
      && ValidTokens(ts) && symNext == 3 * |ts| <= symEnd && SymbolsAt(o.pending_buf[..], symBase, ts, 0)
      && Tallies(ltree[..], LitFreq(m, ts), L_CODES) && Tallies(dtree[..], DistFreq(m, ts), D_CODES)
      && Fresh(blTree[..])
    }

    /** init_block: no symbols, and end of block to be sent once. */
    method InitBlock()
      requires Shape() && StaticOk() && o.Valid()
      modifies this`symNext, this`ts, b`optLen, b`staticLen, ltree, dtree, blTree
      ensures Valid() && ts == []
    {
      hide MapsOk, Coded, DistCoded, LitFreq, DistFreq;
      for n := 0 to L_CODES
        invariant forall i :: 0 <= i < n ==> ltree[i].fc == 0
        modifies ltree
      { ltree[n] := ltree[n].(fc := 0); }
      for n := 0 to D_CODES
        invariant forall i :: 0 <= i < n ==> dtree[i].fc == 0
        modifies dtree
      { dtree[n] := dtree[n].(fc := 0); }
      for n := 0 to BL_CODES
        invariant forall i :: 0 <= i < n ==> blTree[i].fc == 0
        modifies blTree
      { blTree[n] := blTree[n].(fc := 0); }
      ltree[END_BLOCK] := ltree[END_BLOCK].(fc := 1);
      b.optLen, b.staticLen := 0, 0;
      symNext := 0;
      ts := [];
      StartTallies(m, ltree[..], dtree[..]);
    }

    method PutSymbol(x: byte)
      requires Shape() && o.Valid() && o.pending <= symBase && symNext < symEnd
      modifies this`symNext, o.pending_buf
      ensures symNext == old(symNext) + 1 && o.Valid() && o.Stream() == old(o.Stream())
      ensures o.pending_buf[..] == old(o.pending_buf[..])[symBase + old(symNext) := x]
    {
      o.pending_buf[symBase + symNext] := x;
      symNext := symNext + 1;
      assert o.pending_buf[..o.pending] == old(o.pending_buf[..o.pending]);
    }

    /** _tr_tally_lit: record a literal; true if the block must be flushed. */
    method TallyLit(c: byte) returns (flush: bool)
      requires Valid() && symNext < symEnd && o.pending <= symBase
      modifies this`symNext, this`ts, o.pending_buf, ltree
      ensures Valid() && ts == old(ts) + [Lit(c)] && o.Stream() == old(o.Stream())
      ensures flush <==> symNext == symEnd
    {
      hide MapsOk, Coded, DistCoded, LitFreq, DistFreq, SymbolsAt, Fresh;
      ghost var was := o.pending_buf[..];
      PutSymbol(0);
      PutSymbol(0);
      PutSymbol(c);
      SymbolAdded(was, o.pending_buf[..], symBase, ts, Lit(c));
      TalliedLit(m, ts, Lit(c), ltree[..], dtree[..], c as nat);
      ltree[c] := ltree[c].(fc := ltree[c].fc + 1);
      ts := ts + [Lit(c)];
      flush := symNext == symEnd;
    }

    /** _tr_tally_dist: record a match of length len + 3 at the given distance. */
    method TallyDist(distance: nat, len: nat) returns (flush: bool)
      requires Valid() && symNext < symEnd && o.pending <= symBase && 1 <= distance <= 32768 && len < 256
      modifies this`symNext, this`ts, o.pending_buf, ltree, dtree
      ensures Valid() && ts == old(ts) + [Match(len + 3, distance)] && o.Stream() == old(o.Stream())
      ensures flush <==> symNext == symEnd
    {
      hide Coded, DistCoded, LitFreq, DistFreq, SymbolsAt, MapsOk, Tallies, Fresh;
      MapsSizes(m);
      ghost var t := Match(len + 3, distance);
      PutMatch(distance, len);
      var dist := distance - 1;
      var ls := m.lengthCode[len] + LITERALS + 1;
      var d := DCode(m.distCode, dist);
      CountMatch(t, ls, d);
      ts := ts + [t];
      flush := symNext == symEnd;
    }

    method PutMatch(distance: nat, len: nat)
      requires Shape() && o.Valid() && o.pending <= symBase && symNext + 3 <= symBase + symEnd && symNext < symEnd
      requires symNext == 3 * |ts| && 1 <= distance <= 32768 && len < 256 && symEnd % 3 == 0
      requires SymbolsAt(o.pending_buf[..], symBase, ts, 0)
      modifies this`symNext, o.pending_buf
      ensures symNext == old(symNext) + 3 && o.Valid() && o.Stream() == old(o.Stream())
      ensures SymbolsAt(o.pending_buf[..], symBase, ts + [Match(len + 3, distance)], 0)
    {
      hide SymbolsAt;
      ghost var was := o.pending_buf[..];
      PutSymbol(distance % 256);
      PutSymbol(distance / 256 % 256);
      PutSymbol(len);
      TokenPut(was, o.pending_buf[..], symBase + 3 * |ts|, distance, len);
      SymbolAdded(was, o.pending_buf[..], symBase, ts, Match(len + 3, distance));
    }

    method CountMatch(ghost t: Token, ls: nat, d: nat)
      requires Shape() && StaticOk() && ValidTokens(ts) && t.Match? && ValidToken(t)
      requires ls == LitSym(m, t) && d == DCode(m.distCode, t.dist - 1)
      requires Tallies(ltree[..], LitFreq(m, ts), L_CODES) && Tallies(dtree[..], DistFreq(m, ts), D_CODES)
      modifies ltree, dtree
      ensures StaticOk() && ValidTokens(ts + [t])
      ensures Tallies(ltree[..], LitFreq(m, ts + [t]), L_CODES) && Tallies(dtree[..], DistFreq(m, ts + [t]), D_CODES)
    {
      hide Coded, DistCoded, LitFreq, DistFreq, MapsOk, Tallies, LitSym, DCode;
      MapsSizes(m);
      TalliedMatch(m, ts, t, ltree[..], dtree[..], ls, d);
      ltree[ls] := ltree[ls].(fc := ltree[ls].fc + 1);
      dtree[d] := dtree[d].(fc := dtree[d].fc + 1);
    }
  }

  /** The trees hold the codes of a dynamic block that could be sent now. */
  ghost predicate Planned(w: Writer, out: seq<byte>, dyn: Block, maxBlindex: nat)
    reads w, w.o, w.o.pending_buf, w.b, w.ltree, w.dtree, w.blTree, w.sltree, w.sdtree
  {
    hide Coded, DistCoded, Sendable, ValidLengths, Complete, AllHaveCodes, AllInReach;
    && w.Shape() && w.StaticOk() && w.o.Valid()
    && ValidTokens(w.ts) && w.symNext == 3 * |w.ts| <= w.symEnd && SymbolsAt(w.o.pending_buf[..], w.symBase, w.ts, 0)
    && dyn.Dynamic? && dyn.ts == w.ts && BlockMade(w.m, out, dyn) && dyn.blcodes == maxBlindex + 1
    && w.lMax < L_CODES && w.dMax < D_CODES && InTrees(dyn, w.ltree[..], w.dtree[..], w.blTree[..], w.lMax, w.dMax)
    && CostIs(w.m, dyn, w.b.optLen, w.b.staticLen)
  }

  ghost predicate InTrees(dyn: Block, l: seq<CtData>, d: seq<CtData>, bl: seq<CtData>, lMax: nat, dMax: nat)
    requires dyn.Dynamic? && lMax + 1 < |l| && dMax + 1 < |d| && BL_CODES <= |bl|
  {
    && dyn.ls == Lens(l, lMax + 1) && dyn.ds == Lens(d, dMax + 1) && dyn.blLens == Lens(bl, BL_CODES)
    && l[lMax + 1].dl == GUARD && d[dMax + 1].dl == GUARD && Coded(l, dyn.ls) && Coded(d, dyn.ds)
    && Coded(bl, dyn.blLens)
  }

  ghost predicate CostIs(m: Maps, dyn: Block, optLen: int, staticLen: int)
    requires MapsOk(m) && dyn.Dynamic? && ValidTokens(dyn.ts) && 4 <= dyn.blcodes <= BL_CODES == |dyn.blLens|
    requires |dyn.ls| >= 257 && |dyn.ds| >= 1
  {
    && optLen == |HeaderBits(dyn.blcodes, dyn.blLens, dyn.ls, dyn.ds)| + |CodedBits(m, dyn.ls, dyn.ds, dyn.ts)|
    && staticLen == |CodedBits(m, FixedLitLens(), FixedDistLens(), dyn.ts)|
  }

  /** The trees of the block, and what it would cost with them and with the static ones,
      exactly. */
  method PlanBlock(w: Writer, ghost out: seq<byte>) returns (maxBlindex: nat, ghost dyn: Block)
    requires w.Valid() && AllInReach(out, w.ts)
    modifies w`lMax, w`dMax, w.b, w.b.heap, w.b.depth, w.b.blCount, w.ltree, w.dtree, w.blTree
    ensures Planned(w, out, dyn, maxBlindex)
  {
    hide MapsOk, Coded, DistCoded, SymbolsAt, BlockMade, HeaderBits, CodedBits, ValidLengths, Fresh, FixedLitLens;
    hide FixedDistLens, Announceable, Complete, HasCodes, LitFreq, DistFreq, Occurring, Sendable;
    ghost var ls, ds := BuildBoth(w);
    ghost var lt, dt := w.ltree[..], w.dtree[..];
    ghost var blLens;
    maxBlindex, blLens := BuildBlTree(w.b, w.ltree, w.lMax, w.dtree, w.dMax, w.blTree, ls, ds);
    GuardKept(lt, w.ltree[..], w.lMax, ls);
    GuardKept(dt, w.dtree[..], w.dMax, ds);
    dyn := Dynamic(w.ts, maxBlindex + 1, blLens, ls, ds);
    PlanMade(w.m, out, dyn);
  }

  /** The two trees of a block, and what its tokens take up. */
  method BuildBoth(w: Writer) returns (ghost ls: seq<nat>, ghost ds: seq<nat>)
    requires w.Valid()
    modifies w`lMax, w`dMax, w.b, w.b.heap, w.b.depth, w.b.blCount, w.ltree, w.dtree
    ensures w.lMax < L_CODES && w.dMax < D_CODES
    ensures ls == Lens(w.ltree[..], w.lMax + 1) && ds == Lens(w.dtree[..], w.dMax + 1)
    ensures 257 <= |ls| && ls[END_BLOCK] != 0 && ls[|ls| - 1] != 0
    ensures Coded(w.ltree[..], ls) && Coded(w.dtree[..], ds)
    ensures ValidLengths(ls) && ValidLengths(ds) && Complete(ls) && Complete(ds) && ValidTokens(w.ts)
    ensures forall i :: 0 <= i < |w.ts| ==> HasCodes(ls, ds, w.m, w.ts[i])
    ensures w.b.optLen == old(w.b.optLen) + |CodedBits(w.m, ls, ds, w.ts)|
    ensures w.b.staticLen == old(w.b.staticLen) + |CodedBits(w.m, FixedLitLens(), FixedDistLens(), w.ts)|
  {
    hide MapsOk, Coded, DistCoded, LitFreq, DistFreq, SymbolsAt, Sum, DynCosts, StatCosts, TreeOf, Finest, Occurring;
    hide Graded;
    hide CodedBits, ValidLengths, Fresh, FixedLitLens, FixedDistLens, Complete, HasCodes;
    DescsOk();
    ghost var lf, df, la, da;
    ghost var lw, dw := Freqs(w.ltree[..]), Freqs(w.dtree[..]);
    w.lMax, lf, la := BuildTree(w.b, w.ltree, LDesc());
    ls := Lens(w.ltree[..], w.lMax + 1);
    ghost var l := Lens(w.ltree[..], HEAP_SIZE);
    w.dMax, df, da := BuildTree(w.b, w.dtree, DDesc());
    ds := Lens(w.dtree[..], w.dMax + 1);
    ghost var d := Lens(w.dtree[..], 2 * D_CODES + 1);
    TreesCost(w.m, w.ts, lw, dw, lf, df, la, da, ls, ds, l, d);
  }

  lemma GuardKept(was: seq<CtData>, now: seq<CtData>, max: nat, lens: seq<nat>)
    requires max + 1 < |was| == |now| && now == was[max + 1 := was[max + 1].(dl := GUARD)]
    requires lens == Lens(was, max + 1) && Coded(was, lens)
    ensures lens == Lens(now, max + 1) && Coded(now, lens) && now[max + 1].dl == GUARD
  {
    hide Word;
  }

  lemma PlanMade(m: Maps, out: seq<byte>, dyn: Block)
    requires MapsOk(m) && dyn.Dynamic? && ValidTokens(dyn.ts) && AllInReach(out, dyn.ts)
    requires Announceable(dyn.blcodes, dyn.blLens, dyn.ls, dyn.ds) && Complete(dyn.ls) && Complete(dyn.ds)
    requires END_BLOCK < |dyn.ls| && dyn.ls[END_BLOCK] != 0
    requires forall i :: 0 <= i < |dyn.ts| ==> HasCodes(dyn.ls, dyn.ds, m, dyn.ts[i])
    ensures BlockMade(m, out, dyn)
  {
    hide MapsOk, Complete, HasCodes, Announceable;
  }

  lemma TreeCovers(desc: StaticDesc, was: seq<nat>, f: seq<nat>, freq: seq<nat>, act: set<nat>, lens: seq<nat>)
    requires TreeOf(desc, was, freq, act, lens) && desc.maxLength <= MAXBITS && desc.elems <= |was| && desc.elems <= |f|
    requires forall x :: 0 <= x < desc.elems ==> was[x] == f[x]
    ensures Covers(f, desc.elems, lens) && ValidLengths(lens) && Complete(lens) && 1 <= |lens| <= desc.elems
    ensures lens[|lens| - 1] != 0
  {
    hide Complete;
    forall x | 0 <= x < desc.elems && f[x] != 0
      ensures x < |lens| && lens[x] != 0 { assert x in Occurring(was, desc.elems); }
  }

  lemma SameSums(desc: StaticDesc, f: seq<nat>, g: seq<nat>, d: seq<nat>)
    requires |f| == |g| == |d| && desc.elems <= |f| && forall x :: 0 <= x < desc.elems ==> f[x] == g[x]
    ensures Sum(Occurring(f, desc.elems), DynCosts(desc, f, d)) == Sum(All(desc.elems), DynCosts(desc, g, d))
    ensures Sum(Occurring(f, desc.elems), StatCosts(desc, f)) == Sum(All(desc.elems), StatCosts(desc, g))
  {
    hide Sum, Occurring;
    OnlyOccurring(desc, f, d, desc.elems);
    SumEq(All(desc.elems), DynCosts(desc, f, d), DynCosts(desc, g, d));
    SumEq(All(desc.elems), StatCosts(desc, f), StatCosts(desc, g));
  }

  /** The static costs are dynamic costs with the static lengths. */
  lemma StaticIsDynamic(desc: StaticDesc, f: seq<nat>, st: seq<nat>)
    requires |st| == |f| && desc.stree != [] && desc.elems <= |f| && desc.elems <= |desc.stree|
    requires forall x :: 0 <= x < desc.elems ==> st[x] == desc.stree[x]
    ensures Sum(All(desc.elems), StatCosts(desc, f)) == Sum(All(desc.elems), DynCosts(desc, f, st))
  {
    hide Sum;
    SumEq(All(desc.elems), StatCosts(desc, f), DynCosts(desc, f, st));
  }

  /** Both trees have all the codes the tokens need, and the costs are exact. */
  lemma TreesCost(m: Maps, ts: seq<Token>, lw: seq<nat>, dw: seq<nat>, lf: seq<nat>, df: seq<nat>, la: set<nat>,
                  da: set<nat>, ls: seq<nat>, ds: seq<nat>, l: seq<nat>, d: seq<nat>)
    requires MapsOk(m) && ValidTokens(ts) && |lw| == HEAP_SIZE == |l| && |dw| == 2 * D_CODES + 1 == |d|
    requires (forall x :: 0 <= x < L_CODES ==> lw[x] == LitFreq(m, ts)[x])
    requires (forall x :: 0 <= x < D_CODES ==> dw[x] == DistFreq(m, ts)[x])
    requires TreeOf(LDesc(), lw, lf, la, ls) && TreeOf(DDesc(), dw, df, da, ds)
    requires (forall x :: 0 <= x < |ls| ==> l[x] == ls[x]) && (forall x :: 0 <= x < |ds| ==> d[x] == ds[x])
    ensures 257 <= |ls| <= L_CODES && 1 <= |ds| <= D_CODES && ls[END_BLOCK] != 0 && ls[|ls| - 1] != 0
    ensures ValidLengths(ls) && ValidLengths(ds) && Complete(ls) && Complete(ds)
    ensures forall i :: 0 <= i < |ts| ==> HasCodes(ls, ds, m, ts[i])
    ensures Sum(Occurring(lw, L_CODES), DynCosts(LDesc(), lw, l))
      + Sum(Occurring(dw, D_CODES), DynCosts(DDesc(), dw, d))
      == |CodedBits(m, ls, ds, ts)|
    ensures Sum(Occurring(lw, L_CODES), StatCosts(LDesc(), lw)) + Sum(Occurring(dw, D_CODES), StatCosts(DDesc(), dw))
      == |CodedBits(m, FixedLitLens(), FixedDistLens(), ts)|
  {
    hide MapsOk, Sum, DynCosts, StatCosts, TreeOf, Occurring, LitFreq, DistFreq, FixedLitLens, FixedDistLens;
    hide TokensBits, Complete, Covers;
    TreeCovers(LDesc(), lw, LitFreq(m, ts), lf, la, ls);
    TreeCovers(DDesc(), dw, DistFreq(m, ts), df, da, ds);
    TalliedHaveCodes(m, ls, ds, ts);
    TokensCost(m, ls, ds, l, d, ts);
    SameSums(LDesc(), lw, LitFreq(m, ts), l);
    SameSums(DDesc(), dw, DistFreq(m, ts), d);
    FixedHasCodes(m, ts);
    FixedLengths();
    var sl, sd := Padded(FixedLitLens(), HEAP_SIZE), Padded(FixedDistLens(), 2 * D_CODES + 1);
    TokensCost(m, FixedLitLens(), FixedDistLens(), sl, sd, ts);
    StaticIsDynamic(LDesc(), LitFreq(m, ts), sl);
    StaticIsDynamic(DDesc(), DistFreq(m, ts), sd);
  }

  function Padded(s: seq<nat>, n: nat): (r: seq<nat>)
    requires |s| <= n
    ensures |r| == n && forall x :: 0 <= x < |s| ==> r[x] == s[x]
  {
    s + Repeat(0, n - |s|)
  }

  lemma StaticDistCoded(tree: seq<CtData>)
    requires |tree| == D_CODES
    requires forall n {:trigger tree[n]} :: 0 <= n < D_CODES ==> tree[n] == CtData(Word(FixedDistLens(), n), 5)
    ensures DistCoded(tree, FixedDistLens())
  {
    hide Word;
  }

  ghost predicate Tallies(tree: seq<CtData>, freq: seq<nat>, n: nat) {
    n <= |tree| && n <= |freq| && forall x :: 0 <= x < n ==> tree[x].fc == freq[x]
  }

  lemma StartTallies(m: Maps, l: seq<CtData>, d: seq<CtData>)
    requires MapsOk(m) && L_CODES <= |l| && D_CODES <= |d|
    requires forall x :: 0 <= x < L_CODES ==> l[x].fc == if x == END_BLOCK then 1 else 0
    requires forall x :: 0 <= x < D_CODES ==> d[x].fc == 0
    ensures Tallies(l, LitFreq(m, []), L_CODES) && Tallies(d, DistFreq(m, []), D_CODES)
  {
  }

  lemma MapsSizes(m: Maps)
    requires MapsOk(m)
    ensures |m.lengthCode| == 256 && |m.distCode| == 512
  {
    hide LengthMap, DistMap;
  }

  lemma TokenPut(was: seq<byte>, now: seq<byte>, at: nat, distance: nat, len: nat)
    requires at + 2 < |was| && 1 <= distance <= 32768 && len < 256
    requires now == was[at := distance % 256][at + 1 := distance / 256 % 256][at + 2 := len]
    ensures TokenAt(now, at) == Match(len + 3, distance) && forall j :: 0 <= j < at ==> now[j] == was[j]
  {
  }

  lemma SymbolAdded(was: seq<byte>, now: seq<byte>, base: nat, ts: seq<Token>, t: Token)
    requires base + 3 * |ts| + 3 <= |was| == |now| && SymbolsAt(was, base, ts, 0)
    requires forall j :: 0 <= j < base + 3 * |ts| ==> now[j] == was[j]
    requires TokenAt(now, base + 3 * |ts|) == t
    ensures SymbolsAt(now, base, ts + [t], 0)
  {
  }

  lemma TalliesUp(tree: seq<CtData>, freq: seq<nat>, n: nat, s: nat)
    requires Tallies(tree, freq, n) && s < n
    ensures Tallies(tree[s := tree[s].(fc := tree[s].fc + 1)], Up(freq, s), n)
  {
  }

  lemma TalliedLit(m: Maps, ts: seq<Token>, t: Token, l: seq<CtData>, d: seq<CtData>, c: nat)
    requires MapsOk(m) && ValidTokens(ts) && t == Lit(c) && c < 256
    requires Tallies(l, LitFreq(m, ts), L_CODES) && Tallies(d, DistFreq(m, ts), D_CODES)
    ensures ValidTokens(ts + [t]) && Tallies(l[c := l[c].(fc := l[c].fc + 1)], LitFreq(m, ts + [t]), L_CODES)
    ensures Tallies(d, DistFreq(m, ts + [t]), D_CODES)
  {
    hide MapsOk, Up, Tallies;
    assert (ts + [t])[..|ts|] == ts;
    TalliesUp(l, LitFreq(m, ts), L_CODES, c);
  }

  lemma TalliedMatch(m: Maps, ts: seq<Token>, t: Token, l: seq<CtData>, d: seq<CtData>, s: nat, c: nat)
    requires MapsOk(m) && ValidTokens(ts) && t.Match? && ValidToken(t)
    requires s == LitSym(m, t) && c == DCode(m.distCode, t.dist - 1)
    requires Tallies(l, LitFreq(m, ts), L_CODES) && Tallies(d, DistFreq(m, ts), D_CODES)
    ensures s < L_CODES && c < D_CODES && ValidTokens(ts + [t])
    ensures L_CODES <= |l| && D_CODES <= |d|
    ensures Tallies(l[s := l[s].(fc := l[s].fc + 1)], LitFreq(m, ts + [t]), L_CODES)
    ensures Tallies(d[c := d[c].(fc := d[c].fc + 1)], DistFreq(m, ts + [t]), D_CODES)
  {
    hide Up, LengthMap, DistMap, DCode;
    assert (ts + [t])[..|ts|] == ts;
    LitSymSmall(m, t);
    DistSymSmall(m, t.dist - 1);
    TalliesUp(l, LitFreq(m, ts), L_CODES, s);
    TalliesUp(d, DistFreq(m, ts), D_CODES, c);
  }

  // ----------------------------------------------------------- stored blocks

  /** Bytes that the header of a stored block takes, with the bits waiting before it. */
  function HeaderBytes(biValid: nat): nat { (biValid + 42) / 8 }

  lemma StoredMade(m: Maps, out: seq<byte>, data: seq<byte>)
    requires MapsOk(m) && |data| <= 0xffff
    ensures BlockMade(m, out, Stored(data)) && Meaning(out, Stored(data)) == out + data
  {
    hide MapsOk;
  }

  lemma StoredEmit(m: Maps, s: seq<bool>, out: seq<byte>, data: seq<byte>, last: bool)
    requires MapsOk(m) && |data| <= 0xffff && BlockMade(m, out, Stored(data))
    ensures Emit(m, s, out, Stored(data), last)
      == Aligned(s + TypeBits(0, last)) + (ToBits(|data|, 16) + ToBits(0xffff - |data|, 16)) + BytesToBits(data)
  {
    hide MapsOk, ToBits, BytesToBits, Aligned, TypeBits, BlockMade, CodedBits, HeaderBits, FixedLitLens;
    hide FixedDistLens, Pow2;
  }

  /** _tr_stored_block: the type, padding to a byte, the length twice, the bytes. */
  method StoredBlock(o: Pending, data: seq<byte>, last: bool, ghost m: Maps, ghost out: seq<byte>)
    requires MapsOk(m) && o.Valid() && |data| <= 0xffff && o.pending + 10 <= o.pending_buf.Length
    requires o.pending + HeaderBytes(o.bi_valid) + |data| <= o.pending_buf.Length
    modifies o, o.pending_buf
    ensures o.Valid() && o.pending_buf == old(o.pending_buf) && o.bi_valid == 0
    ensures o.pending == old(o.pending + HeaderBytes(o.bi_valid)) + |data|
    ensures BlockMade(m, out, Stored(data)) && o.Stream() == Emit(m, old(o.Stream()), out, Stored(data), last)
  {
    hide MapsOk, BytesToBits, ToBits, Pow2, Emit, BlockMade, Aligned;
    ghost var s0 := o.Stream();
    StoredMade(m, out, data);
    StoredHeader(o, |data|, last);
    PutBytes(o, data);
    StoredEmit(m, s0, out, data, last);
  }

  /** The type, padding to a byte, the length and its complement. */
  method StoredHeader(o: Pending, len: nat, last: bool)
    requires o.Valid() && len <= 0xffff && o.pending + 10 <= o.pending_buf.Length
    modifies o, o.pending_buf
    ensures o.Valid() && o.pending_buf == old(o.pending_buf) && o.bi_valid == 0
    ensures o.pending == old(o.pending + HeaderBytes(o.bi_valid))
    ensures o.Stream()
      == Aligned(old(o.Stream()) + TypeBits(0, last)) + (ToBits(len, 16) + ToBits(0xffff - len, 16))
  {
    hide BytesToBits, ToBits, Pow2, Aligned;
    ghost var s0 := o.Stream();
    Pow2Values();
    o.SendBits(if last then 1 else 0, 3);
    o.BiWindup();
    ghost var s1 := o.Stream();
    assert s1 == Aligned(s0 + TypeBits(0, last));
    BytesOnly(o);
    o.PutShort(len);
    o.PutShort(0xffff - len);
    BytesOnly(o);
    Glue(s1, ToBits(len, 16), ToBits(0xffff - len, 16));
  }

  /** zmemcpy into the pending buffer, with no bits waiting */
  method PutBytes(o: Pending, data: seq<byte>)
    requires o.Valid() && o.bi_valid == 0 && o.pending + |data| <= o.pending_buf.Length
    modifies o`pending, o.pending_buf
    ensures o.Valid() && o.bi_valid == 0 && o.pending == old(o.pending) + |data|
    ensures o.Stream() == old(o.Stream()) + BytesToBits(data)
  {
    hide BytesToBits;
    ghost var was := o.pending_buf[..o.pending];
    BytesOnly(o);
    forall i | 0 <= i < |data| { o.pending_buf[o.pending + i] := data[i]; }
    o.pending := o.pending + |data|;
    assert o.pending_buf[..o.pending] == was + data;
    BytesToBitsConcat(was, data);
    BytesOnly(o);
  }

  lemma BytesOnly(o: Pending)
    requires o.Valid() && o.bi_valid == 0
    ensures o.Stream() == BytesToBits(o.pending_buf[..o.pending]) && |o.Stream()| == 8 * o.pending
  {
  }

  // ------------------------------------------------------------ flush_block

  /** Size in bytes of a block of n bits with its type, rounded up. */
  function Bytes(n: int): int { (n + 3 + 7) / 8 }

  /** How the block is encoded: 0 stored, 1 with the static trees, 2 with its own.  Storing
      wins whenever it takes no more bytes than what is allowed beside it, and of the two
      kinds of trees the shorter, the static ones if neither is. */
  function Choose(optLen: int, staticLen: int, storedLen: nat, buf: bool, fixedOnly: bool): (kind: nat)
    ensures kind == 0 <==>
      buf && storedLen + 4 <= (staticLen + 10) / 8 && (fixedOnly || storedLen + 4 <= (optLen + 10) / 8)
    ensures kind == 1 ==> fixedOnly || (staticLen + 10) / 8 <= (optLen + 10) / 8
    ensures kind == 2 ==> !fixedOnly && (optLen + 10) / 8 < (staticLen + 10) / 8
    ensures kind <= 2
  {
    var staticLenb := Bytes(staticLen);
    var optLenb := if staticLenb <= Bytes(optLen) || fixedOnly then staticLenb else Bytes(optLen);
    if storedLen + 4 <= optLenb && buf then 0 else if staticLenb == optLenb then 1 else 2
  }

  /** The static encoding fits in what is left of the buffer, whatever the tokens. */
  lemma StaticFits(m: Maps, ts: seq<Token>)
    requires MapsOk(m) && ValidTokens(ts)
    ensures |CodedBits(m, FixedLitLens(), FixedDistLens(), ts)| <= 31 * |ts| + 7
  {
    hide TokensBits, MapsOk;
    FixedTokensCost(m, ts);
  }

  lemma StoredSize(m: Maps, s0: seq<bool>, out: seq<byte>, data: seq<byte>, last: bool)
    requires MapsOk(m) && |data| <= 0xffff && BlockMade(m, out, Stored(data))
    ensures |Emit(m, s0, out, Stored(data), last)| <= |s0| + 8 * (|data| + 4) + 10
  {
    hide MapsOk, BytesToBits, ToBits;
  }

  /** Symbols beyond the output written are still there. */
  lemma SymbolsBeyond(was: seq<byte>, now: seq<byte>, base: nat, ts: seq<Token>, pending: nat)
    requires SymbolsAt(was, base, ts, 0) && |was| == |now| && pending <= base
    requires forall j :: pending <= j < |was| ==> now[j] == was[j]
    ensures SymbolsAt(now, base, ts, 0)
  {
    forall k | 0 <= k < |ts| ensures TokenAt(now, base + 3 * k) == ts[k] {
      assert TokenAt(was, base + 3 * k) == ts[k];
    }
  }

  /** What both kinds of coded blocks start from. */
  ghost predicate Sendable2(w: Writer, ts: seq<Token>)
    reads w, w.o, w.o.pending_buf, w.sltree, w.sdtree
  {
    && w.Shape() && w.StaticOk() && w.o.Valid() && w.o.pending == 0 && w.o.bi_valid <= 7
    && w.o.pending_buf.Length == 4 * w.symBase && ts == w.ts && ValidTokens(ts)
    && w.symNext == 3 * |ts| <= w.symEnd && SymbolsAt(w.o.pending_buf[..], w.symBase, ts, 0)
  }

  method WriteFixed(w: Writer, last: bool, ghost out: seq<byte>)
    requires Sendable2(w, w.ts) && AllInReach(out, w.ts)
    modifies w.o, w.o.pending_buf
    ensures w.o.Valid() && w.o.pending_buf == old(w.o.pending_buf) && BlockMade(w.m, out, Fixed(w.ts))
    ensures w.o.Stream() == Emit(w.m, old(w.o.Stream()), out, Fixed(w.ts), last)
    ensures |w.o.Stream()| == |old(w.o.Stream())| + 3 + |CodedBits(w.m, FixedLitLens(), FixedDistLens(), w.ts)|
  {
    hide MapsOk, Coded, DistCoded, SymbolsAt, FixedLitLens, FixedDistLens, Pow2, ToBits, BytesToBits, AllInReach;
    hide ValidTokens, TokensBits;
    hide HasCodes, ValidLengths, OverlaySafe, Complete;
    ghost var ls, ds := FixedLitLens(), FixedDistLens();
    CodeBitsLength(ls, END_BLOCK);
    ghost var s0, was := w.o.Stream(), w.o.pending_buf[..];
    Pow2Values();
    FixedLitComplete();
    FixedDistComplete();
    FixedLengths();
    FixedHasCodes(w.m, w.ts);
    StaticFits(w.m, w.ts);
    w.o.SendBits(2 + (if last then 1 else 0), 3);
    assert w.o.Stream() == s0 + TypeBits(1, last);
    SymbolsBeyond(was, w.o.pending_buf[..], w.symBase, w.ts, w.o.pending);
    FixedOverlaySafe(w.m, w.ts, |w.o.Stream()|, w.symBase);
    CompressBlock(w.o, w.symBase, w.symNext, w.sltree, w.sdtree, w.m, ls, ds, w.ts);
    Glue(s0 + TypeBits(1, last), TokensBits(ls, ds, w.m, w.ts), CodeBits(ls, END_BLOCK));
  }

  method WriteDynamic(w: Writer, last: bool, maxBlindex: nat, ghost dyn: Block, ghost out: seq<byte>)
    requires Sendable2(w, w.ts) && Planned(w, out, dyn, maxBlindex)
    requires w.b.optLen + 10 < 8 * 4 * w.symBase - 32
    requires OverlaySafe(dyn.ls, dyn.ds, w.m, w.ts,
      |w.o.Stream()| + 3 + |HeaderBits(dyn.blcodes, dyn.blLens, dyn.ls, dyn.ds)|, w.symBase)
    modifies w.o, w.o.pending_buf
    ensures w.o.Valid() && w.o.pending_buf == old(w.o.pending_buf)
    ensures w.o.Stream() == Emit(w.m, old(w.o.Stream()), out, dyn, last)
    ensures |w.o.Stream()| == |old(w.o.Stream())| + 3 + w.b.optLen
  {
    hide MapsOk, Coded, DistCoded, SymbolsAt, Pow2, ToBits, BytesToBits, AllInReach, ValidTokens, TokensBits;
    hide HeaderBits;
    hide HasCodes, ValidLengths, OverlaySafe, Complete, Sendable, TreeOps;
    ghost var ls, ds := dyn.ls, dyn.ds;
    CodeBitsLength(ls, END_BLOCK);
    ghost var s0, h := w.o.Stream(), HeaderBits(dyn.blcodes, dyn.blLens, ls, ds);
    SendHeader(w, last, maxBlindex, dyn, out);
    DistCodedOf(w.dtree[..], ds);
    CompressBlock(w.o, w.symBase, w.symNext, w.ltree, w.dtree, w.m, ls, ds, w.ts);
    Glue(s0 + TypeBits(2, last) + h, TokensBits(ls, ds, w.m, w.ts), CodeBits(ls, END_BLOCK));
  }

  /** The type of a dynamic block and its trees. */
  method SendHeader(w: Writer, last: bool, maxBlindex: nat, ghost dyn: Block, ghost out: seq<byte>)
    requires Sendable2(w, w.ts) && Planned(w, out, dyn, maxBlindex) && w.b.optLen + 10 < 8 * 4 * w.symBase - 32
    requires OverlaySafe(dyn.ls, dyn.ds, w.m, w.ts,
      |w.o.Stream()| + 3 + |HeaderBits(dyn.blcodes, dyn.blLens, dyn.ls, dyn.ds)|, w.symBase)
    modifies w.o, w.o.pending_buf
    ensures w.o.Valid() && w.o.pending_buf == old(w.o.pending_buf)
    ensures w.o.Stream() == old(w.o.Stream()) + TypeBits(2, last) + HeaderBits(dyn.blcodes, dyn.blLens, dyn.ls, dyn.ds)
    ensures SymbolsAt(w.o.pending_buf[..], w.symBase, w.ts, 0)
  {
    hide MapsOk, Coded, DistCoded, SymbolsAt, Pow2, ToBits, BytesToBits, AllInReach, ValidTokens, TokensBits;
    hide HeaderBits;
    hide HasCodes, ValidLengths, OverlaySafe, Complete, Sendable, TreeOps, CodedBits;
    ghost var s0, was := w.o.Stream(), w.o.pending_buf[..];
    Pow2Values();
    w.o.SendBits(4 + (if last then 1 else 0), 3);
    assert w.o.Stream() == s0 + TypeBits(2, last);
    SendAllTrees(w.o, w.lMax + 1, w.dMax + 1, maxBlindex + 1, w.ltree, w.dtree, w.blTree, dyn.ls, dyn.ds, dyn.blLens);
    OverlayStart(dyn.ls, dyn.ds, w.m, w.ts, |w.o.Stream()|, w.symBase);
    SymbolsBeyond(was, w.o.pending_buf[..], w.symBase, w.ts, w.o.pending);
  }

  lemma OverlayStart(ls: seq<nat>, ds: seq<nat>, m: Maps, ts: seq<Token>, start: nat, base: nat)
    requires MapsOk(m) && ValidTokens(ts) && OverlaySafe(ls, ds, m, ts, start, base)
    ensures start < 8 * base
  {
    hide MapsOk;
    assert |TokensBits(ls, ds, m, ts[..0])| >= 0;
  }

  lemma DistCodedOf(tree: seq<CtData>, ds: seq<nat>)
    requires Coded(tree, ds)
    ensures DistCoded(tree, ds)
  {
    hide Word;
  }

  /** A block of n bits after its type takes no more bytes than any other way to encode it
      would, storing being possible if the bytes are at hand and only static trees allowed
      with Z_FIXED; a stored block is no bigger than what it replaces. */
  ghost predicate Cheapest(blk: Block, n: int, optLen: int, staticLen: int, storedLen: nat, buf: bool,
                           fixedOnly: bool) {
    && (fixedOnly ==> !blk.Dynamic?)
    && (!blk.Stored? ==>
          && (n + 10) / 8 <= (staticLen + 10) / 8 && (!fixedOnly ==> (n + 10) / 8 <= (optLen + 10) / 8)
          && (buf ==> (n + 10) / 8 < storedLen + 4))
    && (blk.Stored? ==>
          buf && storedLen + 4 <= (staticLen + 10) / 8 && (!fixedOnly ==> storedLen + 4 <= (optLen + 10) / 8))
  }

  /** _tr_flush_block, once the trees are planned: the tokens, as the cheapest block there
      is; if the bytes they stand for are at hand it costs no more than storing them. */
  method WriteBlock(w: Writer, buf: bool, data: seq<byte>, last: bool, fixedOnly: bool, maxBlindex: nat,
                    ghost dyn: Block, ghost out: seq<byte>) returns (ghost blk: Block)
    requires Planned(w, out, dyn, maxBlindex) && (buf ==> |data| <= 0xffff && Expand(out, w.ts) == out + data)
    requires w.o.pending == 0 && w.o.bi_valid <= 7 && w.o.pending_buf.Length == 4 * w.symBase && AllInReach(out, w.ts)
    requires Choose(w.b.optLen, w.b.staticLen, |data|, buf, fixedOnly) == 2 ==>
      OverlaySafe(dyn.ls, dyn.ds, w.m, w.ts, |w.o.Stream()| + 3 + |HeaderBits(dyn.blcodes, dyn.blLens, dyn.ls, dyn.ds)|,
        w.symBase)
    modifies w`symNext, w`ts, w.b`optLen, w.b`staticLen, w.ltree, w.dtree, w.blTree, w.o, w.o.pending_buf
    ensures w.Valid() && w.ts == [] && w.o.pending_buf == old(w.o.pending_buf)
    ensures w.o.bi_valid >= 8 ==> w.o.pending + 2 <= w.o.pending_buf.Length
    ensures BlockMade(w.m, out, blk) && Meaning(out, blk) == Expand(out, old(w.ts))
    ensures var s := Emit(w.m, old(w.o.Stream()), out, blk, last);
      && w.o.Stream() == (if last then Aligned(s) else s)
      && (buf ==> |s| <= |old(w.o.Stream())| + 8 * (|data| + 4) + 10)
      && (!blk.Stored? ==> |s| == |old(w.o.Stream())| + 3 + old(if blk.Fixed? then w.b.staticLen else w.b.optLen))
    ensures Cheapest(blk, |Emit(w.m, old(w.o.Stream()), out, blk, last)| - |old(w.o.Stream())| - 3, old(w.b.optLen),
      old(w.b.staticLen), |data|, buf, fixedOnly)
    ensures blk == match old(Choose(w.b.optLen, w.b.staticLen, |data|, buf, fixedOnly))
                   case 0 => Stored(data)
                   case 1 => Fixed(old(w.ts))
                   case _ => dyn
  {
    hide MapsOk, Coded, DistCoded, LitFreq, DistFreq, SymbolsAt, BlockMade, CodedBits, Expand, Emit, Fresh, Complete;
    hide OverlaySafe, FixedLitLens, FixedDistLens, Pow2, ToBits, BytesToBits, AllInReach, ValidTokens, InTrees, Aligned;
    hide Tallies, Announceable, Choose, HeaderBits, Cheapest;
    blk := WriteChosen(w, buf, data, last, fixedOnly, maxBlindex, dyn, out);
    w.InitBlock();
    if last { w.o.BiWindup(); }
    NoSymbols(w.o.pending_buf[..], w.symBase);
  }

  /** The block in the encoding chosen. */
  method WriteChosen(w: Writer, buf: bool, data: seq<byte>, last: bool, fixedOnly: bool, maxBlindex: nat,
                     ghost dyn: Block, ghost out: seq<byte>) returns (ghost blk: Block)
    requires Planned(w, out, dyn, maxBlindex) && (buf ==> |data| <= 0xffff && Expand(out, w.ts) == out + data)
    requires w.o.pending == 0 && w.o.bi_valid <= 7 && w.o.pending_buf.Length == 4 * w.symBase && AllInReach(out, w.ts)
    requires Choose(w.b.optLen, w.b.staticLen, |data|, buf, fixedOnly) == 2 ==>
      OverlaySafe(dyn.ls, dyn.ds, w.m, w.ts, |w.o.Stream()| + 3 + |HeaderBits(dyn.blcodes, dyn.blLens, dyn.ls, dyn.ds)|,
        w.symBase)
    modifies w.o, w.o.pending_buf
    ensures w.o.Valid() && w.o.pending_buf == old(w.o.pending_buf) && w.o.pending + 2 <= w.o.pending_buf.Length
    ensures BlockMade(w.m, out, blk) && Meaning(out, blk) == Expand(out, w.ts)
    ensures var s := Emit(w.m, old(w.o.Stream()), out, blk, last);
      && w.o.Stream() == s
      && (buf ==> |s| <= |old(w.o.Stream())| + 8 * (|data| + 4) + 10)
      && (!blk.Stored? ==> |s| == |old(w.o.Stream())| + 3 + if blk.Fixed? then w.b.staticLen else w.b.optLen)
    ensures Cheapest(blk, |Emit(w.m, old(w.o.Stream()), out, blk, last)| - |old(w.o.Stream())| - 3, w.b.optLen,
      w.b.staticLen, |data|, buf, fixedOnly)
    ensures blk == match Choose(w.b.optLen, w.b.staticLen, |data|, buf, fixedOnly)
                   case 0 => Stored(data)
                   case 1 => Fixed(w.ts)
                   case _ => dyn
  {
    hide MapsOk, Coded, DistCoded, LitFreq, DistFreq, SymbolsAt, BlockMade, HeaderBits, CodedBits, Expand, Emit;
    hide OverlaySafe, Fresh, TypeBits, StoredBits, Complete;
    hide FixedLitLens, FixedDistLens, Pow2, ToBits, BytesToBits, AllInReach, ValidTokens, InTrees, Tallies, Aligned;
    hide Announceable;
    ghost var s0 := w.o.Stream();
    var optLenb := Bytes(w.b.optLen);
    var staticLenb := Bytes(w.b.staticLen);
    StaticFits(w.m, w.ts);
    if staticLenb <= optLenb || fixedOnly { optLenb := staticLenb; }
    if |data| + 4 <= optLenb && buf {
      StoredBlock(w.o, data, last, w.m, out);
      blk := Stored(data);
      StoredSize(w.m, s0, out, data, last);
    } else if staticLenb == optLenb {
      blk := Fixed(w.ts);
      WriteFixed(w, last, out);
    } else {
      blk := dyn;
      WriteDynamic(w, last, maxBlindex, dyn, out);
    }
  }

  lemma NoSymbols(buf: seq<byte>, base: nat)
    requires base <= |buf|
    ensures SymbolsAt(buf, base, [], 0)
  {
  }
}
