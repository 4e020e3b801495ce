/** trees.c: assigning code values to a tree of code lengths, and the constant tables. */
module TreeCodes {
  import opened Bits
  import opened Canonical
  import opened BitStream
  import opened BitOutput
  import opened Format
  import opened FixedCodes
  import InfTrees

  const LENGTH_CODES := 29
  const LITERALS := 256
  const L_CODES := 286
  const D_CODES := 30
  const HEAP_SIZE := 573
  const END_BLOCK := 256

  /** ct_data: two unions, so one field for freq and code, one for dad and len. */
  datatype CtData = CtData(fc: nat, dl: nat)

  const EXTRA_LBITS: seq<nat> := [0, 0, 0, 0, 0, 0, 0, 0, 1, 1, 1, 1, 2, 2, 2, 2, 3, 3, 3, 3, 4, 4, 4, 4, 5, 5, 5, 5, 0]
  const EXTRA_DBITS: seq<nat> := [0, 0, 0, 0, 1, 1, 2, 2, 3, 3, 4, 4, 5, 5, 6, 6, 7, 7, 8, 8, 9, 9, 10, 10, 11, 11, 12,
    12, 13, 13]

  /** The code lengths held in the first n nodes. */
  ghost function Lens(tree: seq<CtData>, n: nat): (r: seq<nat>)
    requires n <= |tree|
    ensures |r| == n && forall i :: 0 <= i < n ==> r[i] == tree[i].dl
  {
    seq(n, i requires 0 <= i < n => tree[i].dl)
  }

  /** Every symbol in use has its canonical code, reversed. */
  ghost predicate Coded(tree: seq<CtData>, lens: seq<nat>) {
    |lens| <= |tree| &&
    forall s {:trigger tree[s]} {:trigger lens[s]} ::
      0 <= s < |lens| && lens[s] != 0 ==> tree[s] == CtData(Word(lens, s), lens[s])
  }

  /** The bits of the code of symbol s as they are sent. */
  function CodeBits(lens: seq<nat>, s: nat): seq<bool> {
    if s < |lens| then ToBits(Word(lens, s), lens[s]) else []
  }

  /** send_code: the code of a symbol of the given tree. */
  method SendCode(o: Pending, tree: array<CtData>, c: nat, ghost lens: seq<nat>)
    requires o.Valid() && c < |lens| && c < tree.Length && 0 < lens[c] <= MAXBITS
    requires tree[c] == CtData(Word(lens, c), lens[c])
    requires o.Room(lens[c])
    modifies o, o.pending_buf
    ensures o.Valid() && o.pending_buf == old(o.pending_buf)
    ensures o.Stream() == old(o.Stream()) + CodeBits(lens, c)
    ensures old(o.pending) <= o.pending
    ensures forall j :: o.pending <= j < o.pending_buf.Length ==> o.pending_buf[j] == old(o.pending_buf[j])
  {
    o.SendBits(tree[c].fc, tree[c].dl);
  }

  /** bi_reverse: the loop that shifts bits from one word to another. */
  method BiReverse(code: nat, len: nat) returns (r: nat)
    requires 1 <= len <= 15
    ensures r == Rev(len, code)
  {
    var res, c, l := 0, code, len;
    ghost var acc: nat := 0;
    while true
      invariant 1 <= l <= len && res == 2 * acc
      invariant acc * Pow2(l) + Rev(l, c) == Rev(len, code)
      decreases l
    {
      Horner(acc, l, c);
      res := if c % 2 == 1 then Or(res, 1) else res;
      assert res == 2 * acc + c % 2 by { OrOne(acc); }
      acc := 2 * acc + c % 2;
      c := c / 2;
      res := res * 2;
      l := l - 1;
      if l == 0 { break; }
    }
    r := res / 2;
  }

  lemma Horner(acc: nat, l: nat, c: nat)
    requires l >= 1
    ensures (2 * acc + c % 2) * Pow2(l - 1) + Rev(l - 1, c / 2) == acc * Pow2(l) + Rev(l, c)
  {
    var p := Pow2(l - 1);
    assert (2 * acc + c % 2) * p == acc * (2 * p) + (c % 2) * p;
  }

  lemma OrOne(a: nat)
    ensures Or(2 * a, 1) == 2 * a + 1
  {
    assert Or(a, 0) == a;
  }

  /** gen_codes: the first code of each length, then consecutive codes, each reversed. */
  method GenCodes(tree: array<CtData>, maxCode: nat, blCount: array<nat>)
    requires maxCode < tree.Length && blCount.Length == MAXBITS + 1
    requires var lens := Lens(tree[..], maxCode + 1); ValidLengths(lens) && NotOversubscribed(lens)
    requires var lens := Lens(tree[..], maxCode + 1);
      blCount[0] == 0 && forall l :: 1 <= l <= MAXBITS ==> blCount[l] == Count(lens, l)
    modifies tree
    ensures forall i :: 0 <= i < tree.Length ==> tree[i].dl == old(tree[i].dl)
    ensures forall i :: 0 <= i < tree.Length && (i > maxCode || tree[i].dl == 0) ==> tree[i] == old(tree[i])
    ensures Coded(tree[..], Lens(old(tree[..]), maxCode + 1))
  {
    hide Count, FirstCode, Rev, Pow2, Used;
    ghost var lens := Lens(tree[..], maxCode + 1);
    var nextCode := new nat[MAXBITS + 1];
    var code := 0;
    CodesStart(lens);
    for bits := 1 to MAXBITS + 1
      invariant code == FirstCode(lens, bits - 1) && tree[..] == old(tree[..])
      invariant forall l :: 1 <= l < bits ==> nextCode[l] == FirstCode(lens, l)
    {
      FirstCodeStep(lens, bits);
      code := (code + blCount[bits - 1]) * 2;
      nextCode[bits] := code % 65536;
    }
    for n := 0 to maxCode + 1
      invariant forall i :: 0 <= i < tree.Length ==> tree[i].dl == old(tree[i].dl)
      invariant forall i :: 0 <= i < tree.Length && (i >= n || tree[i].dl == 0) ==> tree[i] == old(tree[i])
      invariant forall i :: 0 <= i < n && lens[i] != 0 ==> tree[i].fc == Word(lens, i)
      invariant forall l {:trigger nextCode[l]} :: 1 <= l <= MAXBITS ==>
        nextCode[l] == FirstCode(lens, l) + Count(lens[..n], l)
    {
      forall l | 1 <= l <= MAXBITS
        ensures Count(lens[..n + 1], l) == Count(lens[..n], l) + (if lens[n] == l then 1 else 0)
      {
        CountSnoc(lens, n, l);
      }
      var len := tree[n].dl;
      if len == 0 { continue; }
      assert len == lens[n];
      CodeFits(lens, n);
      Pow2Mono(len, MAXBITS);
      var r := BiReverse(nextCode[len], len);
      nextCode[len] := nextCode[len] + 1;
      tree[n] := tree[n].(fc := r % 65536);
      WordFits(lens, n);
    }
  }

  lemma CodesStart(lens: seq<nat>)
    ensures FirstCode(lens, 0) == 0 && forall l :: Count(lens[..0], l) == 0
  {
  }

  lemma FirstCodeStep(lens: seq<nat>, bits: nat)
    requires 1 <= bits <= MAXBITS && NotOversubscribed(lens)
    ensures FirstCode(lens, bits) == 2 * (FirstCode(lens, bits - 1) + (if bits == 1 then 0 else Count(lens, bits - 1)))
    ensures FirstCode(lens, 0) == 0 && FirstCode(lens, bits) < 65536
  {
    FirstCodeUsed(lens, bits);
    UsedFits(lens, bits);
    Pow2Mono(bits, MAXBITS);
    Pow2Values();
  }

  lemma WordFits(lens: seq<nat>, s: nat)
    requires s < |lens| && lens[s] <= MAXBITS
    ensures Word(lens, s) < 32768
  {
    Pow2Mono(lens[s], MAXBITS);
    Pow2Values();
  }

  // ------------------------------------------------------- the constant tables

  /** The length code table: l stands for match length l + 3. */
  ghost predicate LengthMap(lengthCode: seq<nat>, baseLength: seq<nat>) {
    |lengthCode| == 256 && |baseLength| == LENGTH_CODES &&
    forall l {:trigger lengthCode[l]} :: 0 <= l < 256 ==> LengthEntry(l, lengthCode[l], baseLength)
  }

  ghost predicate LengthEntry(l: nat, c: nat, baseLength: seq<nat>) {
    c < LENGTH_CODES && |baseLength| == LENGTH_CODES &&
    if EXTRA_LBITS[c] == 0 then InfTrees.LBASE[c] == l + 3
    else baseLength[c] <= l < baseLength[c] + Pow2(EXTRA_LBITS[c]) && InfTrees.LBASE[c] == baseLength[c] + 3
  }

  /** d_code: the code of distance d + 1. */
  function DCode(distCode: seq<nat>, d: nat): nat
    requires |distCode| == 512 && d < 32768
  {
    if d < 256 then distCode[d] else distCode[256 + d / 128]
  }

  ghost predicate DistMap(distCode: seq<nat>, baseDist: seq<nat>) {
    |distCode| == 512 && |baseDist| == D_CODES &&
    forall d {:trigger DCode(distCode, d)} :: 0 <= d < 32768 ==> DistEntry(d, DCode(distCode, d), baseDist)
  }

  ghost predicate DistEntry(d: nat, c: nat, baseDist: seq<nat>) {
    c < D_CODES && |baseDist| == D_CODES &&
    if EXTRA_DBITS[c] == 0 then InfTrees.DBASE[c] == d + 1
    else baseDist[c] <= d < baseDist[c] + Pow2(EXTRA_DBITS[c]) && InfTrees.DBASE[c] == baseDist[c] + 1
  }

  /** The decoder's extra bit counts are the encoder's. */
  lemma ExtraBitsAgree()
    ensures forall c {:trigger EXTRA_LBITS[c]} :: 0 <= c < LENGTH_CODES ==>
      InfTrees.LEXT[c] == 16 + EXTRA_LBITS[c] && EXTRA_LBITS[c] <= 5
    ensures forall c {:trigger EXTRA_DBITS[c]} :: 0 <= c < D_CODES ==>
      InfTrees.DEXT[c] == 16 + EXTRA_DBITS[c] && EXTRA_DBITS[c] <= 13
  {
    hide EXTRA_LBITS, EXTRA_DBITS, InfTrees.LEXT, InfTrees.DEXT;
    ExtraLBitsAgree();
    ExtraDBitsAgree();
  }

  lemma ExtraLBitsAgree()
    ensures forall c {:trigger EXTRA_LBITS[c]} :: 0 <= c < LENGTH_CODES ==>
      InfTrees.LEXT[c] == 16 + EXTRA_LBITS[c] && EXTRA_LBITS[c] <= 5
  {
  }

  lemma ExtraDBitsAgree()
    ensures forall c {:trigger EXTRA_DBITS[c]} :: 0 <= c < D_CODES ==>
      InfTrees.DEXT[c] == 16 + EXTRA_DBITS[c] && EXTRA_DBITS[c] <= 13
  {
  }

  /** Consecutive length codes cover consecutive lengths. */
  lemma LengthBases()
    ensures InfTrees.LBASE[0] == 3 && InfTrees.LBASE[28] == 258 && EXTRA_LBITS[28] == 0
    ensures forall c {:trigger EXTRA_LBITS[c]} :: 0 <= c < 28 ==>
      InfTrees.LBASE[c] + Pow2(EXTRA_LBITS[c]) == if c == 27 then 259 else InfTrees.LBASE[c + 1]
  {
    Pow2Values();
  }

  /** Consecutive distance codes cover consecutive distances, by 128 from code 16 on. */
  lemma DistBases()
    ensures InfTrees.DBASE[0] == 1 && InfTrees.DBASE[16] == 257
    ensures forall c {:trigger EXTRA_DBITS[c]} :: 0 <= c < D_CODES ==>
      InfTrees.DBASE[c] + Pow2(EXTRA_DBITS[c]) == if c == 29 then 32769 else InfTrees.DBASE[c + 1]
  {
    Pow2Values();
  }

  lemma FarDistBases()
    ensures forall c {:trigger EXTRA_DBITS[c]} :: 16 <= c < D_CODES ==>
      7 <= EXTRA_DBITS[c] <= 13 && InfTrees.DBASE[c] % 128 == 1
  {
  }

  lemma FarSpan(e: nat)
    requires 7 <= e
    ensures Pow2(e) == 128 * Pow2(e - 7)
  {
    Pow2Sum(7, e - 7);
    Pow2Values();
    assert 7 + (e - 7) == e;
  }

  /** tr_static_init: the mapping from lengths to length codes. */
  method InitLengths(lengthCode: array<nat>, baseLength: array<nat>)
    requires lengthCode.Length == 256 && baseLength.Length == LENGTH_CODES && lengthCode != baseLength
    modifies lengthCode, baseLength
    ensures LengthMap(lengthCode[..], baseLength[..])
  {
    hide Pow2, LengthEntry;
    LengthBases();
    var length := 0;
    var code := 0;
    while code < LENGTH_CODES - 1
      invariant 0 <= code <= 28
      invariant length == if code == 28 then 256 else InfTrees.LBASE[code] - 3
      invariant forall l :: 0 <= l < length <= 256 ==>
        LengthEntry(l, lengthCode[l], baseLength[..]) && lengthCode[l] < code
    {
      ghost var start := length;
      ghost var was := baseLength[..];
      baseLength[code] := length;
      KeepLengths(lengthCode[..], was, baseLength[..], length, code);
      length := FillLengths(lengthCode, baseLength, code, length);
      code := code + 1;
    }
    lengthCode[length - 1] := code;
    LastLength(baseLength[..]);
  }

  /** The lengths of one code. */
  method FillLengths(lengthCode: array<nat>, baseLength: array<nat>, code: nat, start: nat) returns (length: nat)
    requires lengthCode.Length == 256 && baseLength.Length == LENGTH_CODES && lengthCode != baseLength
    requires code < 28 && baseLength[code] == start && start + Pow2(EXTRA_LBITS[code]) <= 256
    requires start == InfTrees.LBASE[code] - 3
    requires forall l :: 0 <= l < start ==> LengthEntry(l, lengthCode[l], baseLength[..]) && lengthCode[l] < code
    modifies lengthCode
    ensures length == start + Pow2(EXTRA_LBITS[code])
    ensures forall l :: 0 <= l < length ==> LengthEntry(l, lengthCode[l], baseLength[..]) && lengthCode[l] <= code
  {
    hide Pow2, LengthEntry;
    length := start;
    for n := 0 to Pow2(EXTRA_LBITS[code])
      invariant length == start + n
      invariant forall l :: 0 <= l < length ==> LengthEntry(l, lengthCode[l], baseLength[..]) && lengthCode[l] <= code
    {
      NewLength(length, code, baseLength[..], start);
      lengthCode[length] := code;
      length := length + 1;
    }
  }

  lemma KeepLengths(lengthCode: seq<nat>, was: seq<nat>, now: seq<nat>, n: nat, code: nat)
    requires n <= |lengthCode| && code < LENGTH_CODES == |was| == |now| && now == was[code := now[code]]
    requires forall l :: 0 <= l < n ==> LengthEntry(l, lengthCode[l], was) && lengthCode[l] < code
    ensures forall l :: 0 <= l < n ==> LengthEntry(l, lengthCode[l], now) && lengthCode[l] < code
  {
  }

  lemma NewLength(l: nat, code: nat, baseLength: seq<nat>, start: nat)
    requires |baseLength| == LENGTH_CODES && code < 28 && baseLength[code] == start == InfTrees.LBASE[code] - 3
    requires start <= l < start + Pow2(EXTRA_LBITS[code])
    ensures LengthEntry(l, code, baseLength)
  {
  }

  lemma LastLength(baseLength: seq<nat>)
    requires |baseLength| == LENGTH_CODES
    ensures LengthEntry(255, 28, baseLength)
  {
  }

  /** Distances above 256 are looked up by their high bits. */
  ghost predicate FarEntry(q: nat, c: nat, baseDist: seq<nat>) {
    forall d: nat :: 128 * q <= d < 128 * q + 128 ==> DistEntry(d, c, baseDist)
  }

  ghost predicate NearDone(distCode: seq<nat>, baseDist: seq<nat>, n: nat, code: nat) {
    |distCode| == 512 && forall i :: 0 <= i < n <= 256 ==> DistEntry(i, distCode[i], baseDist) && distCode[i] < code
  }

  ghost predicate FarDone(distCode: seq<nat>, baseDist: seq<nat>, n: nat, code: nat) {
    |distCode| == 512 &&
    forall i :: 258 <= i < 256 + n <= 512 ==> FarEntry(i - 256, distCode[i], baseDist) && distCode[i] < code
  }

  /** tr_static_init: the mapping from distances to distance codes. */
  method InitDistances(distCode: array<nat>, baseDist: array<nat>)
    requires distCode.Length == 512 && baseDist.Length == D_CODES && distCode != baseDist
    modifies distCode, baseDist
    ensures DistMap(distCode[..], baseDist[..])
  {
    hide Pow2, DistEntry, FarEntry, NearDone, FarDone, DistMap;
    DistBases();
    var dist: nat := 0;
    var code: nat := 0;
    NoneDone(distCode[..], baseDist[..]);
    while code < 16
      invariant 0 <= code <= 16 && dist == InfTrees.DBASE[code] - 1
      invariant NearDone(distCode[..], baseDist[..], dist, code)
    {
      ghost var start := dist;
      ghost var was := baseDist[..];
      NearBound(code);
      baseDist[code] := dist;
      KeepNear(distCode[..], was, baseDist[..], dist, code, code);
      for n := 0 to Pow2(EXTRA_DBITS[code])
        invariant dist == start + n && baseDist[code] == start
        invariant NearDone(distCode[..], baseDist[..], dist, code + 1)
      {
        ghost var before := distCode[..];
        NewDist(before, dist, code, baseDist[..], start);
        distCode[dist] := code;
        assert distCode[..] == before[dist := code];
        dist := dist + 1;
      }
      code := code + 1;
    }
    FarDistances(distCode, baseDist, dist);
    NearAndFar(distCode[..], baseDist[..]);
  }

  method FarDistances(distCode: array<nat>, baseDist: array<nat>, dist0: nat)
    requires distCode.Length == 512 && baseDist.Length == D_CODES && distCode != baseDist
    requires dist0 == 256 && NearDone(distCode[..], baseDist[..], 256, 16)
    modifies distCode, baseDist
    ensures NearDone(distCode[..], baseDist[..], 256, 16) && FarDone(distCode[..], baseDist[..], 256, D_CODES)
  {
    hide Pow2, DistEntry, FarEntry, NearDone, FarDone;
    DistBases();
    FarDistBases();
    var dist: nat := dist0 / 128;
    var code: nat := 16;
    NoneFar(distCode[..], baseDist[..]);
    while code < D_CODES
      invariant 16 <= code <= D_CODES && 128 * dist == if code == D_CODES then 32768 else InfTrees.DBASE[code] - 1
      invariant NearDone(distCode[..], baseDist[..], 256, 16) && FarDone(distCode[..], baseDist[..], dist, code)
    {
      ghost var start := dist;
      ghost var was := baseDist[..];
      FarSpan(EXTRA_DBITS[code]);
      FarBound(code);
      baseDist[code] := dist * 128;
      KeepNear(distCode[..], was, baseDist[..], 256, code, 16);
      KeepFar(distCode[..], was, baseDist[..], dist, code);
      for n := 0 to Pow2(EXTRA_DBITS[code] - 7)
        invariant dist == start + n && baseDist[code] == 128 * start
        invariant NearDone(distCode[..], baseDist[..], 256, 16) && FarDone(distCode[..], baseDist[..], dist, code + 1)
      {
        ghost var before := distCode[..];
        NewFar(before, dist, code, baseDist[..], start);
        distCode[256 + dist] := code;
        assert distCode[..] == before[256 + dist := code];
        dist := dist + 1;
      }
      code := code + 1;
    }
  }

  lemma NoneDone(distCode: seq<nat>, baseDist: seq<nat>)
    requires |distCode| == 512
    ensures NearDone(distCode, baseDist, 0, 0)
  {
  }

  lemma NoneFar(distCode: seq<nat>, baseDist: seq<nat>)
    requires |distCode| == 512
    ensures FarDone(distCode, baseDist, 2, 16)
  {
  }

  lemma NearBound(code: nat)
    requires code < 16
    ensures InfTrees.DBASE[code] - 1 + Pow2(EXTRA_DBITS[code]) <= 256
  {
    DistBases();
  }

  lemma FarBound(code: nat)
    requires 16 <= code < D_CODES
    ensures InfTrees.DBASE[code] - 1 + Pow2(EXTRA_DBITS[code]) <= 32768
    ensures InfTrees.DBASE[code] >= 257
  {
    DistBases();
  }

  /** Setting the base of a code not used yet keeps the entries made so far. */
  lemma KeepNear(distCode: seq<nat>, was: seq<nat>, now: seq<nat>, n: nat, code: nat, c: nat)
    requires code < D_CODES == |was| == |now| && now == was[code := now[code]] && n <= 256
    requires c <= code && NearDone(distCode, was, n, c)
    ensures NearDone(distCode, now, n, c) && NearDone(distCode, now, n, c + 1)
  {
  }

  lemma KeepFar(distCode: seq<nat>, was: seq<nat>, now: seq<nat>, n: nat, code: nat)
    requires code < D_CODES == |was| == |now| && now == was[code := now[code]]
    requires n <= 256 && FarDone(distCode, was, n, code)
    ensures FarDone(distCode, now, n, code + 1)
  {
    forall i | 258 <= i < 256 + n
      ensures FarEntry(i - 256, distCode[i], now)
    {
      forall d: nat {:trigger DistEntry(d, distCode[i], now)} | 128 * (i - 256) <= d < 128 * (i - 256) + 128
        ensures DistEntry(d, distCode[i], now)
      {
        assert FarEntry(i - 256, distCode[i], was);
        assert DistEntry(d, distCode[i], was);
      }
    }
  }

  lemma DistInSpan(d: nat, code: nat, baseDist: seq<nat>, start: nat)
    requires |baseDist| == D_CODES && code < D_CODES && baseDist[code] == start == InfTrees.DBASE[code] - 1
    requires start <= d < start + Pow2(EXTRA_DBITS[code])
    ensures DistEntry(d, code, baseDist)
  {
  }

  lemma NewDist(distCode: seq<nat>, d: nat, code: nat, baseDist: seq<nat>, start: nat)
    requires |baseDist| == D_CODES && code < 16 && baseDist[code] == start == InfTrees.DBASE[code] - 1
    requires start <= d < start + Pow2(EXTRA_DBITS[code]) <= 256
    requires NearDone(distCode, baseDist, d, code + 1)
    ensures d < |distCode| && NearDone(distCode[d := code], baseDist, d + 1, code + 1)
  {
    DistInSpan(d, code, baseDist, start);
  }

  lemma NewFar(distCode: seq<nat>, q: nat, code: nat, baseDist: seq<nat>, start: nat)
    requires |baseDist| == D_CODES && 16 <= code < D_CODES && baseDist[code] == 128 * start == InfTrees.DBASE[code] - 1
    requires 7 <= EXTRA_DBITS[code] && 2 <= start <= q < start + Pow2(EXTRA_DBITS[code] - 7) <= 256
    requires FarDone(distCode, baseDist, q, code + 1)
    requires NearDone(distCode, baseDist, 256, 16)
    ensures 256 + q < |distCode| && FarDone(distCode[256 + q := code], baseDist, q + 1, code + 1)
    ensures NearDone(distCode[256 + q := code], baseDist, 256, 16)
  {
    hide Pow2, DistEntry;
    FarSpan(EXTRA_DBITS[code]);
    forall d: nat | 128 * q <= d < 128 * q + 128
      ensures DistEntry(d, code, baseDist)
    {
      DistInSpan(d, code, baseDist, 128 * start);
    }
  }

  lemma NearAndFar(distCode: seq<nat>, baseDist: seq<nat>)
    requires |baseDist| == D_CODES
    requires NearDone(distCode, baseDist, 256, 16) && FarDone(distCode, baseDist, 256, D_CODES)
    ensures DistMap(distCode, baseDist)
  {
    hide DistEntry;
    forall d: nat {:trigger DCode(distCode, d)} | d < 32768
      ensures DistEntry(d, DCode(distCode, d), baseDist)
    {
      if d >= 256 {
        var i := 256 + d / 128;
        assert FarEntry(i - 256, distCode[i], baseDist);
      }
    }
  }

  /** Running counts of the lengths of the first n nodes. */
  ghost predicate Counted(tree: seq<CtData>, n: nat, blCount: seq<nat>) {
    n <= |tree| && |blCount| == MAXBITS + 1 &&
    forall l {:trigger blCount[l]} :: 0 <= l <= MAXBITS ==> blCount[l] == Count(Lens(tree, n), l)
  }

  lemma CountedStep(tree: seq<CtData>, n: nat, blCount: seq<nat>, len: nat)
    requires n < |tree| && len <= MAXBITS && Counted(tree, n, blCount)
    ensures Counted(tree[n := tree[n].(dl := len)], n + 1, blCount[len := blCount[len] + 1])
  {
    var u := tree[n := tree[n].(dl := len)];
    assert Lens(u, n + 1)[..n] == Lens(tree, n);
    forall l | 0 <= l <= MAXBITS
      ensures Count(Lens(u, n + 1), l) == Count(Lens(tree, n), l) + (if len == l then 1 else 0)
    {
      CountSnoc(Lens(u, n + 1), n, l);
      assert Lens(u, n + 1)[..n + 1] == Lens(u, n + 1);
    }
  }

  /** One of the loops that set a run of lengths and count them. */
  method SetRun(tree: array<CtData>, n0: nat, upTo: nat, len: nat, blCount: array<nat>) returns (n: nat)
    requires n0 <= upTo + 1 <= tree.Length && len <= MAXBITS && blCount.Length == MAXBITS + 1
    requires Counted(tree[..], n0, blCount[..])
    modifies tree, blCount
    ensures n == upTo + 1
    ensures Counted(tree[..], n, blCount[..])
    ensures Lens(tree[..], n) == Lens(old(tree[..]), n0) + seq(n - n0, _ => len)
    ensures blCount[..] == old(blCount[..])[len := old(blCount[len]) + (n - n0)]
  {
    n := n0;
    while n <= upTo
      invariant n0 <= n <= upTo + 1
      invariant Counted(tree[..], n, blCount[..])
      invariant Lens(tree[..], n) == Lens(old(tree[..]), n0) + seq(n - n0, _ => len)
      invariant blCount[..] == old(blCount[..])[len := old(blCount[len]) + (n - n0)]
    {
      ghost var t, c := tree[..], blCount[..];
      CountedStep(t, n, c, len);
      tree[n] := tree[n].(dl := len);
      blCount[len] := blCount[len] + 1;
      assert tree[..] == t[n := t[n].(dl := len)] && blCount[..] == c[len := c[len] + 1];
      n := n + 1;
    }
  }

  /** tr_static_init: the fixed literal tree, its codes generated like any other's. */
  method InitStaticLitTree(tree: array<CtData>)
    requires tree.Length == L_CODES + 2
    modifies tree
    ensures Coded(tree[..], FixedLitLens()) && Complete(FixedLitLens()) && ValidLengths(FixedLitLens())
    ensures Lens(tree[..], 288) == FixedLitLens()
  {
    hide Count, Used, Word;
    var blCount := new nat[MAXBITS + 1](_ => 0);
    CountsStart(tree[..], blCount[..]);
    var n := SetRun(tree, 0, 143, 8, blCount);
    n := SetRun(tree, n, 255, 9, blCount);
    n := SetRun(tree, n, 279, 7, blCount);
    n := SetRun(tree, n, 287, 8, blCount);
    ghost var lens := Lens(tree[..], 288);
    assert lens == FixedLitLens();
    assert forall l {:trigger blCount[l]} :: 0 <= l <= MAXBITS ==> blCount[..][l] == Count(lens, l);
    FixedLitComplete();
    GenCodes(tree, L_CODES + 1, blCount);
    assert Lens(tree[..], 288) == lens;
  }

  lemma CountsStart(tree: seq<CtData>, blCount: seq<nat>)
    requires |blCount| == MAXBITS + 1 && forall l :: 0 <= l <= MAXBITS ==> blCount[l] == 0
    ensures Counted(tree, 0, blCount)
  {
  }

  lemma FixedDistWords(s: nat)
    requires s < 32
    ensures Word(FixedDistLens(), s) == Rev(5, s)
  {
    hide Count;
    var lens := FixedDistLens();
    assert lens == Repeat(5, 32);
    forall l: nat ensures Count(lens, l) == if l == 5 then 32 else 0 { CountRepeat(5, 32, l); }
    assert lens[..s] == Repeat(5, s);
    CountRepeat(5, s, 5);
    FirstCodeUsed(lens, 5);
    UsedJump(lens, 0, 4);
  }

  /** tr_static_init: the fixed distance tree. */
  method InitStaticDistTree(tree: array<CtData>)
    requires tree.Length == D_CODES
    modifies tree
    ensures forall n {:trigger tree[n]} :: 0 <= n < D_CODES ==> tree[n] == CtData(Word(FixedDistLens(), n), 5)
  {
    hide Word, Rev;
    for n := 0 to D_CODES
      invariant forall i {:trigger tree[i]} :: 0 <= i < n ==> tree[i] == CtData(Word(FixedDistLens(), i), 5)
    {
      var code := BiReverse(n, 5);
      FixedDistWords(n);
      tree[n] := CtData(code, 5);
    }
  }
}
