/** trees.c: writing a block from the symbol buffer, which shares memory with the output. */
module BlockOutput {
  import opened Bits
  import opened Canonical
  import opened BitStream
  import opened BitOutput
  import opened Format
  import opened TreeCodes
  import opened TreeLengths

  /** The four constant tables compress_block reads. */
  datatype Maps = Maps(lengthCode: seq<nat>, baseLength: seq<nat>, distCode: seq<nat>, baseDist: seq<nat>)

  ghost predicate MapsOk(m: Maps) {
    && |m.lengthCode| == 256 && |m.baseLength| == LENGTH_CODES && |m.distCode| == 512 && |m.baseDist| == D_CODES
    && LengthMap(m.lengthCode, m.baseLength) && DistMap(m.distCode, m.baseDist)
  }

  /** The offset of v from the base of its code, on the n extra bits of the code. */
  function ExtraField(v: nat, base: nat, n: nat): seq<bool> {
    if n == 0 || v < base then [] else ToBits(v - base, n)
  }

  ghost function LengthBits(ls: seq<nat>, m: Maps, lc: nat): seq<bool>
    requires MapsOk(m) && lc < 256
  {
    LengthFacts(m, lc);
    var c := m.lengthCode[lc];
    CodeBits(ls, LITERALS + 1 + c) + ExtraField(lc, m.baseLength[c], EXTRA_LBITS[c])
  }

  ghost function DistBits(ds: seq<nat>, m: Maps, d: nat): seq<bool>
    requires MapsOk(m) && d < 32768
  {
    DistFacts(m, d);
    var c := DCode(m.distCode, d);
    CodeBits(ds, c) + ExtraField(d, m.baseDist[c], EXTRA_DBITS[c])
  }

  /** One token in the given literal/length and distance codes. */
  ghost function TokenBits(ls: seq<nat>, ds: seq<nat>, m: Maps, t: Token): seq<bool>
    requires MapsOk(m) && ValidToken(t)
  {
    match t
    case Lit(c) => CodeBits(ls, c)
    case Match(len, dist) => LengthBits(ls, m, len - 3) + DistBits(ds, m, dist - 1)
  }

  ghost function TokensBits(ls: seq<nat>, ds: seq<nat>, m: Maps, ts: seq<Token>): seq<bool>
    requires MapsOk(m) && ValidTokens(ts)
  {
    if |ts| == 0 then []
    else TokensBits(ls, ds, m, ts[..|ts| - 1]) + TokenBits(ls, ds, m, ts[|ts| - 1])
  }

  /** Both codes have a word for everything the token needs. */
  ghost predicate HasCodes(ls: seq<nat>, ds: seq<nat>, m: Maps, t: Token)
    requires MapsOk(m) && ValidToken(t)
  {
    match t
    case Lit(c) => c < |ls| && ls[c] != 0
    case Match(len, dist) =>
      var c, d := LITERALS + 1 + m.lengthCode[len - 3], DCode(m.distCode, dist - 1);
      c < |ls| && ls[c] != 0 && d < |ds| && ds[d] != 0
  }

  // -------------------------------------------------------- the symbol buffer

  /** The token that three bytes of the symbol buffer stand for. */
  function TokenAt(buf: seq<byte>, at: nat): Token
    requires at + 3 <= |buf|
  {
    var dist := buf[at] as int + buf[at + 1] as int * 256;
    if dist == 0 then Lit(buf[at + 2]) else Match(buf[at + 2] as int + 3, dist)
  }

  ghost predicate SymbolsAt(buf: seq<byte>, base: nat, ts: seq<Token>, from: nat) {
    from <= |ts| && base + 3 * |ts| <= |buf| &&
    forall k :: from <= k < |ts| ==> TokenAt(buf, base + 3 * k) == ts[k]
  }

  /** How far the output may have grown when k tokens have been written: never past
      the symbols not read yet. */
  ghost predicate OverlaySafe(ls: seq<nat>, ds: seq<nat>, m: Maps, ts: seq<Token>, start: nat, base: nat)
    requires MapsOk(m) && ValidTokens(ts)
  {
    forall k :: 0 <= k <= |ts| ==> start + |TokensBits(ls, ds, m, ts[..k])| < 8 * (base + 3 * k)
  }

  // ---------------------------------------------------------- sending a block

  lemma LengthFacts(m: Maps, lc: nat)
    requires MapsOk(m) && lc < 256
    ensures var c := m.lengthCode[lc];
            c < LENGTH_CODES && EXTRA_LBITS[c] <= 5 &&
            (EXTRA_LBITS[c] != 0 ==> m.baseLength[c] <= lc < m.baseLength[c] + Pow2(EXTRA_LBITS[c]))
  {
    assert LengthEntry(lc, m.lengthCode[lc], m.baseLength);
    ExtraBitsAgree();
  }

  lemma DistFacts(m: Maps, d: nat)
    requires MapsOk(m) && d < 32768
    ensures var c := DCode(m.distCode, d);
            c < D_CODES && EXTRA_DBITS[c] <= 13 &&
            (EXTRA_DBITS[c] != 0 ==> m.baseDist[c] <= d < m.baseDist[c] + Pow2(EXTRA_DBITS[c]))
  {
    assert DistEntry(d, DCode(m.distCode, d), m.baseDist);
    ExtraBitsAgree();
  }

  method SendLength(o: Pending, lc: nat, ltree: array<CtData>, m: Maps, ghost ls: seq<nat>)
    requires o.Valid() && MapsOk(m) && lc < 256
    requires ValidLengths(ls) && Coded(ltree[..], ls)
    requires var c := LITERALS + 1 + m.lengthCode[lc]; c < |ls| && ls[c] != 0
    requires o.Room(|LengthBits(ls, m, lc)|)
    modifies o, o.pending_buf
    ensures o.Valid() && o.pending_buf == old(o.pending_buf)
    ensures o.Stream() == old(o.Stream()) + LengthBits(ls, m, lc)
    ensures old(o.pending) <= o.pending
    ensures forall j :: o.pending <= j < o.pending_buf.Length ==> o.pending_buf[j] == old(o.pending_buf[j])
  {
    hide ToBits, BytesToBits, Word, Pow2, Coded, DistMap, LengthMap, LengthEntry;
    var code := m.lengthCode[lc];
    LengthFacts(m, lc);
    CodedAt(ltree[..], ls, code + LITERALS + 1);
    SendCode(o, ltree, code + LITERALS + 1, ls);
    var extra := EXTRA_LBITS[code];
    if extra != 0 {
      o.SendBits(lc - m.baseLength[code], extra);
    }
  }

  method SendDistance(o: Pending, dist: nat, dtree: array<CtData>, m: Maps, ghost ds: seq<nat>)
    requires o.Valid() && MapsOk(m) && dist < 32768
    requires ValidLengths(ds)
    requires var c := DCode(m.distCode, dist);
      c < |ds| && ds[c] != 0 && c < dtree.Length && dtree[c] == CtData(Word(ds, c), ds[c])
    requires o.Room(|DistBits(ds, m, dist)|)
    modifies o, o.pending_buf
    ensures o.Valid() && o.pending_buf == old(o.pending_buf)
    ensures o.Stream() == old(o.Stream()) + DistBits(ds, m, dist)
    ensures old(o.pending) <= o.pending
    ensures forall j :: o.pending <= j < o.pending_buf.Length ==> o.pending_buf[j] == old(o.pending_buf[j])
  {
    hide ToBits, BytesToBits, Word, Pow2, LengthMap, DistMap, DistEntry;
    var code := DCode(m.distCode, dist);
    DistFacts(m, dist);
    SendCode(o, dtree, code, ds);
    var extra := EXTRA_DBITS[code];
    if extra != 0 {
      o.SendBits(dist - m.baseDist[code], extra);
    }
  }

  /** Every code the distance tree holds is in place. */
  ghost predicate DistCoded(dtree: seq<CtData>, ds: seq<nat>) {
    forall c {:trigger ds[c]} ::
      0 <= c < D_CODES && c < |ds| && ds[c] != 0 ==> c < |dtree| && dtree[c] == CtData(Word(ds, c), ds[c])
  }

  lemma CodedAt(tree: seq<CtData>, lens: seq<nat>, c: nat)
    requires Coded(tree, lens) && c < |lens| && lens[c] != 0
    ensures c < |tree| && tree[c] == CtData(Word(lens, c), lens[c])
  {
  }

  lemma DistCodedAt(dtree: seq<CtData>, ds: seq<nat>, m: Maps, d: nat)
    requires MapsOk(m) && d < 32768 && DistCoded(dtree, ds)
    requires var c := DCode(m.distCode, d); c < |ds| && ds[c] != 0
    ensures var c := DCode(m.distCode, d); c < |dtree| && dtree[c] == CtData(Word(ds, c), ds[c])
  {
    var c := DCode(m.distCode, d);
    assert DistEntry(d, c, m.baseDist);
  }

  method SendToken(o: Pending, dist: nat, lc: nat, ltree: array<CtData>, dtree: array<CtData>, m: Maps,
                   ghost ls: seq<nat>, ghost ds: seq<nat>, ghost t: Token)
    requires o.Valid() && MapsOk(m) && ValidToken(t) && lc < 256
    requires ValidLengths(ls) && Coded(ltree[..], ls) && ValidLengths(ds) && DistCoded(dtree[..], ds)
    requires HasCodes(ls, ds, m, t) && t == if dist == 0 then Lit(lc) else Match(lc + 3, dist)
    requires o.Room(|TokenBits(ls, ds, m, t)|)
    modifies o, o.pending_buf
    ensures o.Valid() && o.pending_buf == old(o.pending_buf)
    ensures o.Stream() == old(o.Stream()) + TokenBits(ls, ds, m, t)
    ensures old(o.pending) <= o.pending
    ensures forall j :: o.pending <= j < o.pending_buf.Length ==> o.pending_buf[j] == old(o.pending_buf[j])
  {
    hide ToBits, BytesToBits, Word, Pow2, LengthBits, DistBits, DistEntry, Coded, DistCoded, LengthMap, DistMap;
    if dist == 0 {
      CodedAt(ltree[..], ls, lc);
      SendCode(o, ltree, lc, ls);
    } else {
      DistCodedAt(dtree[..], ds, m, dist - 1);
      SendLength(o, lc, ltree, m, ls);
      SendDistance(o, dist - 1, dtree, m, ds);
    }
  }

  lemma TokensBitsStep(ls: seq<nat>, ds: seq<nat>, m: Maps, ts: seq<Token>, k: nat)
    requires MapsOk(m) && ValidTokens(ts) && k < |ts|
    ensures TokensBits(ls, ds, m, ts[..k + 1]) == TokensBits(ls, ds, m, ts[..k]) + TokenBits(ls, ds, m, ts[k])
  {
    assert ts[..k + 1][..k] == ts[..k];
  }

  lemma {:induction false} TokensBitsMono(ls: seq<nat>, ds: seq<nat>, m: Maps, ts: seq<Token>, k: nat)
    requires MapsOk(m) && ValidTokens(ts) && k <= |ts|
    ensures |TokensBits(ls, ds, m, ts[..k])| <= |TokensBits(ls, ds, m, ts)|
    decreases |ts| - k
  {
    if k == |ts| {
      assert ts[..k] == ts;
    } else {
      TokensBitsStep(ls, ds, m, ts, k);
      TokensBitsMono(ls, ds, m, ts, k + 1);
    }
  }

  /** compress_block: the tokens in the symbol buffer, then end of block.  The symbol
      buffer lies at base in the very buffer that is written. */
  method CompressBlock(o: Pending, base: nat, symNext: nat, ltree: array<CtData>, dtree: array<CtData>, m: Maps,
                       ghost ls: seq<nat>, ghost ds: seq<nat>, ghost ts: seq<Token>)
    requires o.Valid() && MapsOk(m) && ValidTokens(ts)
    requires ValidLengths(ls) && Coded(ltree[..], ls) && ValidLengths(ds) && DistCoded(dtree[..], ds)
    requires forall i :: 0 <= i < |ts| ==> HasCodes(ls, ds, m, ts[i])
    requires END_BLOCK < |ls| && ls[END_BLOCK] != 0
    requires symNext == 3 * |ts| && SymbolsAt(o.pending_buf[..], base, ts, 0)
    requires OverlaySafe(ls, ds, m, ts, |o.Stream()|, base)
    requires o.Room(|TokensBits(ls, ds, m, ts)| + ls[END_BLOCK])
    modifies o, o.pending_buf
    ensures o.Valid() && o.pending_buf == old(o.pending_buf)
    ensures o.Stream() == old(o.Stream()) + TokensBits(ls, ds, m, ts) + CodeBits(ls, END_BLOCK)
  {
    hide ToBits, BytesToBits, Word, Pow2, LengthBits, DistBits, TokenBits, TokensBits, HasCodes, ValidToken, MapsOk;
    hide Coded, DistCoded;
    ghost var s0 := o.Stream();
    var sx := 0;
    ghost var k := 0;
    assert TokensBits(ls, ds, m, ts[..0]) == [] by { NoTokens(ls, ds, m, ts); }
    while sx < symNext
      invariant o.Valid() && o.pending_buf == old(o.pending_buf)
      invariant 0 <= k <= |ts| && sx == 3 * k
      invariant o.Stream() == s0 + TokensBits(ls, ds, m, ts[..k])
      invariant SymbolsAt(o.pending_buf[..], base, ts, k)
    {
      assert o.pending < base + sx;
      ghost var was := o.pending_buf[..];
      var dist := o.pending_buf[base + sx] as int;
      dist := dist + o.pending_buf[base + sx + 1] as int * 256;
      var lc := o.pending_buf[base + sx + 2];
      sx := sx + 3;
      assert TokenAt(was, base + 3 * k) == ts[k];
      TokensBitsStep(ls, ds, m, ts, k);
      TokensBitsMono(ls, ds, m, ts, k + 1);
      SendToken(o, dist, lc, ltree, dtree, m, ls, ds, ts[k]);
      k := k + 1;
      assert o.pending < base + sx;
      SymbolsKept(was, o.pending_buf[..], base, ts, k, o.pending);
    }
    assert ts[..k] == ts;
    CodedAt(ltree[..], ls, END_BLOCK);
    SendCode(o, ltree, END_BLOCK, ls);
  }

  lemma NoTokens(ls: seq<nat>, ds: seq<nat>, m: Maps, ts: seq<Token>)
    requires MapsOk(m) && ValidTokens(ts)
    ensures TokensBits(ls, ds, m, ts[..0]) == []
  {
  }

  lemma SymbolsKept(was: seq<byte>, now: seq<byte>, base: nat, ts: seq<Token>, k: nat, pending: nat)
    requires 1 <= k <= |ts| && SymbolsAt(was, base, ts, k - 1)
    requires |was| == |now| && pending <= base + 3 * k
    requires forall j :: pending <= j < |was| ==> now[j] == was[j]
    ensures SymbolsAt(now, base, ts, k)
  {
    forall i | k <= i < |ts|
      ensures TokenAt(now, base + 3 * i) == ts[i]
    {
      assert TokenAt(was, base + 3 * i) == ts[i];
    }
  }

  // ----------------------------------------------------- dynamic block header

  /** The lengths of the bit length codes, three bits each, in bl_order. */
  ghost function BlLensBits(blLens: seq<nat>, n: nat): seq<bool>
    requires n <= BL_CODES == |blLens|
  {
    if n == 0 then [] else BlLensBits(blLens, n - 1) + ToBits(blLens[BL_ORDER[n - 1]], 3)
  }

  /** Everything between the block type and the first symbol of a dynamic block. */
  ghost function HeaderBits(blcodes: nat, blLens: seq<nat>, ls: seq<nat>, ds: seq<nat>): seq<bool>
    requires 4 <= blcodes <= BL_CODES == |blLens| && |ls| >= 257 && |ds| >= 1
  {
    ToBits(|ls| - 257, 5) + ToBits(|ds| - 1, 5) + ToBits(blcodes - 4, 4) + BlLensBits(blLens, blcodes)
    + OpsBits(blLens, TreeOps(ls)) + OpsBits(blLens, TreeOps(ds))
  }

  lemma {:induction false} BlLensBitsLength(blLens: seq<nat>, n: nat)
    requires n <= BL_CODES == |blLens|
    ensures |BlLensBits(blLens, n)| == 3 * n
  {
    if n > 0 { BlLensBitsLength(blLens, n - 1); }
  }

  method SendBlLens(o: Pending, blcodes: nat, blTree: array<CtData>, ghost blLens: seq<nat>)
    requires o.Valid() && blcodes <= BL_CODES == |blLens| && BL_CODES <= blTree.Length
    requires forall i :: 0 <= i < BL_CODES ==> blLens[i] <= 7 && blTree[i].dl == blLens[i]
    requires o.Room(3 * blcodes)
    modifies o, o.pending_buf
    ensures o.Valid() && o.pending_buf == old(o.pending_buf)
    ensures o.Stream() == old(o.Stream()) + BlLensBits(blLens, blcodes)
    ensures old(o.pending) <= o.pending
    ensures forall j :: o.pending <= j < o.pending_buf.Length ==> o.pending_buf[j] == old(o.pending_buf[j])
  {
    hide ToBits, BytesToBits, Pow2;
    for rank := 0 to blcodes
      invariant o.Valid() && o.pending_buf == old(o.pending_buf)
      invariant old(o.pending) <= o.pending
      invariant forall j :: o.pending <= j < o.pending_buf.Length ==> o.pending_buf[j] == old(o.pending_buf[j])
      invariant o.Stream() == old(o.Stream()) + BlLensBits(blLens, rank)
    {
      BlLensBitsLength(blLens, rank);
      Pow2Values();
      o.SendBits(blTree[BL_ORDER[rank]].dl, 3);
    }
  }

  method SendCounts(o: Pending, lcodes: nat, dcodes: nat, blcodes: nat)
    requires o.Valid() && o.Room(14)
    requires 257 <= lcodes <= L_CODES && 1 <= dcodes <= D_CODES && 4 <= blcodes <= BL_CODES
    modifies o, o.pending_buf
    ensures o.Valid() && o.pending_buf == old(o.pending_buf)
    ensures o.Stream() == old(o.Stream()) + (ToBits(lcodes - 257, 5) + ToBits(dcodes - 1, 5) + ToBits(blcodes - 4, 4))
    ensures old(o.pending) <= o.pending
    ensures forall j :: o.pending <= j < o.pending_buf.Length ==> o.pending_buf[j] == old(o.pending_buf[j])
  {
    hide ToBits, BytesToBits, Pow2;
    Pow2Values();
    o.SendBits(lcodes - 257, 5);
    o.SendBits(dcodes - 1, 5);
    o.SendBits(blcodes - 4, 4);
  }

  /** send_all_trees: the counts, the lengths of the bit length codes, both trees. */
  method SendAllTrees(o: Pending, lcodes: nat, dcodes: nat, blcodes: nat, ltree: array<CtData>, dtree: array<CtData>,
                      blTree: array<CtData>, ghost ls: seq<nat>, ghost ds: seq<nat>, ghost blLens: seq<nat>)
    requires o.Valid()
    requires 257 <= lcodes <= L_CODES && 1 <= dcodes <= D_CODES && 4 <= blcodes <= BL_CODES
    requires lcodes < ltree.Length && dcodes < dtree.Length && BL_CODES <= blTree.Length
    requires ls == Lens(ltree[..], lcodes) && ds == Lens(dtree[..], dcodes) && blLens == Lens(blTree[..], BL_CODES)
    requires ValidLengths(ls) && ValidLengths(ds) && forall i :: 0 <= i < BL_CODES ==> blLens[i] <= 7
    requires ltree[lcodes].dl == GUARD && dtree[dcodes].dl == GUARD && Coded(blTree[..], blLens)
    requires Sendable(blLens, TreeOps(ls)) && Sendable(blLens, TreeOps(ds))
    requires o.Room(|HeaderBits(blcodes, blLens, ls, ds)|)
    modifies o, o.pending_buf
    ensures o.Valid() && o.pending_buf == old(o.pending_buf)
    ensures o.Stream() == old(o.Stream()) + HeaderBits(blcodes, blLens, ls, ds)
    ensures old(o.pending) <= o.pending
    ensures forall j :: o.pending <= j < o.pending_buf.Length ==> o.pending_buf[j] == old(o.pending_buf[j])
  {
    hide ToBits, BytesToBits, Pow2, OpsBits, TreeOps, Coded, Sendable, BlLensBits;
    Pow2Values();
    BlLensBitsLength(blLens, blcodes);
    SendCounts(o, lcodes, dcodes, blcodes);
    SendBlLens(o, blcodes, blTree, blLens);
    assert ValidLengths(blLens);
    SendTree(o, ltree, lcodes - 1, blTree, ls, blLens);
    SendTree(o, dtree, dcodes - 1, blTree, ds, blLens);
  }

  // -------------------------------------------------------- overlay of buffers

  /** The longest fixed code pair is 31 bits. */
  lemma FixedTokenCost(m: Maps, t: Token)
    requires MapsOk(m) && ValidToken(t)
    ensures |TokenBits(FixedLitLens(), FixedDistLens(), m, t)| <= 31
  {
    hide LengthBits, DistBits;
    match t
    case Lit(c) =>
    case Match(len, dist) =>
      FixedLengthCost(m, len - 3);
      FixedDistCost(m, dist - 1);
  }

  /** At most eight bits and five extra bits. */
  lemma FixedLengthCost(m: Maps, lc: nat)
    requires MapsOk(m) && lc < 256
    ensures |LengthBits(FixedLitLens(), m, lc)| <= 13
  {
    hide LengthMap, DistMap, Word, ToBits;
    LengthFacts(m, lc);
  }

  /** Five bits and at most thirteen extra bits. */
  lemma FixedDistCost(m: Maps, d: nat)
    requires MapsOk(m) && d < 32768
    ensures |DistBits(FixedDistLens(), m, d)| <= 18
  {
    hide LengthMap, DistMap, Word, ToBits;
    DistFacts(m, d);
  }

  lemma {:induction false} FixedTokensCost(m: Maps, ts: seq<Token>)
    requires MapsOk(m) && ValidTokens(ts)
    ensures |TokensBits(FixedLitLens(), FixedDistLens(), m, ts)| <= 31 * |ts|
  {
    if |ts| > 0 {
      FixedTokensCost(m, ts[..|ts| - 1]);
      FixedTokenCost(m, ts[|ts| - 1]);
    }
  }

  /** A fixed-code block never overtakes the symbols it is made from: for any symbol
      buffer size and any tokens that fit in it, starting with at most ten bits. */
  lemma FixedOverlaySafe(m: Maps, ts: seq<Token>, start: nat, litBufsize: nat)
    requires MapsOk(m) && ValidTokens(ts)
    requires start <= 10 && litBufsize >= 128 && |ts| <= litBufsize - 1
    ensures OverlaySafe(FixedLitLens(), FixedDistLens(), m, ts, start, litBufsize)
  {
    hide TokensBits;
    forall k | 0 <= k <= |ts|
      ensures start + |TokensBits(FixedLitLens(), FixedDistLens(), m, ts[..k])| < 8 * (litBufsize + 3 * k)
    {
      FixedTokensCost(m, ts[..k]);
    }
  }
}
