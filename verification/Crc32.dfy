/** crc32.c: the tables, the braided check value of a buffer, and the combination of check
values, with words of W bytes and N braids, on machines of either byte order. */
module Crc32 {
  import opened Bits
  import opened BitStream
  import opened CrcSpec
  import opened ExclusiveOr
  import opened PolyMod
  import opened ByteOrder
  import PolyOrder

  // ------------------------------------------------------------ multiplying

  /** a times b: the bits of a from the highest down, until none are left. */
  method MultModP(a: nat, b: nat) returns (p: nat)
    requires 0 < a < Pow2(32) && b < Pow2(32)
    ensures p == Prod(a, b, 32)
  {
    hide Xor, Prod, Pow2, Shr, Low;
    Pow32();
    LowIdentity(a, 32);
    var m: nat, c: nat := 0x80000000, b;
    p := 0;
    ghost var n: nat := 32;
    XorSwap(0, Prod(a, b, 32));
    XorNone(Prod(a, b, 32));
    while true
      invariant 1 <= n <= 32 && m == Pow2(n - 1) && Low(a, n) != 0
      invariant Xor(p, Prod(a, c, n)) == Prod(a, b, 32)
      decreases n
    {
      MaskBit(a, n);
      ProdNext(p, a, c, n);
      if a / m % 2 == 1 {
        p := Xor(p, c);
        if a % m == 0 {
          NoMore(a, MulX(c), n - 1);
          XorNone(p);
          break;
        }
      }
      PowHalf(a, n);
      m := m / 2;
      c := if c % 2 == 1 then Xor(c / 2, POLY) else c / 2;
      n := n - 1;
    }
  }

  lemma MaskBit(a: nat, n: nat)
    requires n >= 1
    ensures a / Pow2(n - 1) % 2 == Shr(a, n - 1) % 2 && a % Pow2(n - 1) == Low(a, n - 1)
    ensures Low(a, n) == Shr(a, n - 1) % 2 * Pow2(n - 1) + Low(a, n - 1)
  {
    hide Pow2, Shr, Low;
    ShrDiv(a, n - 1);
    LowTop(a, n);
  }

  lemma PowHalf(a: nat, n: nat)
    requires n >= 1 && Low(a, n - 1) != 0
    ensures n >= 2 && Pow2(n - 1) / 2 == Pow2(n - 2)
  {
    hide Pow2, Low;
    LowNothing(a);
    PowAt(n);
  }

  lemma ProdNext(p: nat, a: nat, c: nat, n: nat)
    requires n >= 1
    ensures var q := if Shr(a, n - 1) % 2 == 1 then Xor(p, c) else p;
      Xor(q, Prod(a, MulX(c), n - 1)) == Xor(p, Prod(a, c, n))
  {
    hide Xor, MulX, Shr;
    var rest := Prod(a, MulX(c), n - 1);
    XorAssoc(p, c, rest);
    XorSwap(0, rest);
    XorNone(rest);
  }

  lemma {:induction false} NoMore(a: nat, b: nat, n: nat)
    requires Low(a, n) == 0
    ensures Prod(a, b, n) == 0
    decreases n
  {
    hide Xor, MulX, Shr, Low, Pow2;
    if n > 0 {
      MaskBit(a, n);
      PowAt(n);
      BitNone(Shr(a, n - 1) % 2, Pow2(n - 1), Low(a, n - 1));
      NoMore(a, MulX(b), n - 1);
      XorZero();
    }
  }

  lemma BitNone(bit: nat, p: nat, rest: nat)
    requires p >= 1 && bit < 2 && bit * p + rest == 0
    ensures bit == 0 && rest == 0
  {
  }

  // ------------------------------------------------------------ what the tables hold

  ghost predicate ByteTable(t: seq<nat>) {
    |t| == 256 && forall i :: 0 <= i < 256 ==> t[i] == Steps(i, 8)
  }

  ghost predicate PowerTable(t: seq<nat>, n: nat) {
    n <= |t| == 32 && forall k :: 0 <= k < n ==> t[k] == XPow(Pow2(k))
  }

  /** Byte i at place k of a word, moved past all the words of a block. */
  ghost predicate BraidEntry(v: nat, i: nat, k: nat, span: nat) {
    k <= span && v == Steps(i, 8 * (span - k))
  }

  ghost predicate BigByteTable(t: seq<nat>, w: nat) {
    |t| == 256 && forall i :: 0 <= i < 256 ==> t[i] == Swap(Steps(i, 8), w)
  }

  /** The same entry for words read the other way round. */
  ghost predicate BigEntry(v: nat, i: nat, k: nat, span: nat, w: nat) {
    k <= span && v == Swap(Steps(i, 8 * (span - k)), w)
  }

  /** One byte through the table is one byte a bit at a time. */
  lemma ByteStep(c: nat, b: byte)
    ensures Xor(c / 256, Steps(Xor(c, b) % 256, 8)) == Next(c, b)
  {
    hide Xor, Steps, Shr, Low, Pow2;
    EightSteps(Xor(c, b));
    ShrXor(c, b, 8);
    BytesOf(c);
    BytesOf(b);
    BytesOf(Xor(c, b));
    XorNone(c / 256);
  }

  lemma BytesOf(v: nat)
    ensures Shr(v, 8) == v / 256 && Low(v, 8) == v % 256
  {
    hide Shr, Low, Pow2;
    ShrDiv(v, 8);
    Pow2Values();
  }

  /** Eight steps are those of the low byte and a shift of the rest. */
  lemma EightSteps(v: nat)
    ensures Steps(v, 8) == Xor(v / 256, Steps(v % 256, 8))
  {
    hide Xor, Steps, Low, Shr;
    BytesOf(v);
    Split(v, 8);
    Pow2Values();
    XorApart(v % 256, v / 256, 8);
    StepsXor(v % 256, v / 256 * Pow2(8), 8);
    StepsShift(v / 256, 8);
    XorSwap(Steps(v % 256, 8), v / 256);
  }

  // ------------------------------------------------------------ braids

  /** The braids together: each starts one word of wb bits after the one before. */
  function Weave(u: seq<nat>, wb: nat): nat
    decreases |u|
  {
    if u == [] then 0 else Xor(u[0], Weave(u[1..], wb) * Pow2(wb))
  }

  function Both(u: seq<nat>, v: seq<nat>): seq<nat>
    requires |u| == |v|
  {
    seq(|u|, j requires 0 <= j < |u| => Xor(u[j], v[j]))
  }

  function AllSteps(u: seq<nat>, m: nat): seq<nat> {
    seq(|u|, j requires 0 <= j < |u| => Steps(u[j], m))
  }

  /** The words of a block. */
  function Words(block: seq<byte>, w: nat, n: nat): (r: seq<nat>)
    requires |block| == n * w
    ensures |r| == n
  {
    if n == 0 then [] else
      WordFits(n, w);
      [LittleEndian(block[..w])] + Words(block[w..], w, n - 1)
  }

  lemma WordFits(n: nat, w: nat)
    requires n > 0
    ensures n * w == w + (n - 1) * w && w <= n * w
  {
  }

  lemma {:induction false} WordAt(block: seq<byte>, w: nat, n: nat, j: nat)
    requires |block| == n * w && j < n
    ensures 0 <= j * w <= j * w + w <= |block|
    ensures Words(block, w, n)[j] == LittleEndian(block[j * w..j * w + w])
    decreases n
  {
    hide LittleEndian;
    WordFits(n, w);
    if j > 0 {
      WordFits(j, w);
      WordAt(block[w..], w, n - 1, j - 1);
      assert block[w..][(j - 1) * w..(j - 1) * w + w] == block[j * w..j * w + w];
    }
  }

  /** A block is its words woven. */
  lemma {:induction false} WeaveWords(block: seq<byte>, w: nat, n: nat)
    requires |block| == n * w
    ensures Weave(Words(block, w, n), 8 * w) == LittleEndian(block)
    decreases n
  {
    hide Xor, Pow2;
    if n > 0 {
      WordFits(n, w);
      WeaveWords(block[w..], w, n - 1);
      assert block == block[..w] + block[w..];
      LittleEndianSum(block[..w], block[w..]);
      var words := Words(block, w, n);
      assert words[1..] == Words(block[w..], w, n - 1);
    }
  }

  lemma {:induction false} WeaveBoth(u: seq<nat>, v: seq<nat>, wb: nat)
    requires |u| == |v|
    ensures Weave(Both(u, v), wb) == Xor(Weave(u, wb), Weave(v, wb))
    decreases |u|
  {
    hide Xor, Pow2;
    if u == [] {
      XorZero();
    } else {
      var a, b := Weave(u[1..], wb), Weave(v[1..], wb);
      assert Both(u, v)[1..] == Both(u[1..], v[1..]);
      WeaveBoth(u[1..], v[1..], wb);
      XorTimes(a, b, wb);
      XorFour(u[0], a * Pow2(wb), v[0], b * Pow2(wb));
    }
  }

  /** Moving every braid is moving them all, as long as no braid has come to its end. */
  lemma {:induction false} WeaveSteps(u: seq<nat>, wb: nat, k: nat, m: nat)
    requires m >= wb * |u|
    ensures Steps(Weave(u, wb), k + m) == Steps(Weave(AllSteps(u, k), wb), m)
    decreases |u|
  {
    hide Xor, Pow2, Steps;
    if u == [] {
      ZeroSteps(k + m);
      ZeroSteps(m);
    } else {
      var rest, moved := Weave(u[1..], wb), Weave(AllSteps(u[1..], k), wb);
      assert AllSteps(u, k)[1..] == AllSteps(u[1..], k);
      OneBraid(wb, |u|);
      WeaveSteps(u[1..], wb, k, m - wb);
      StepsXor(u[0], rest * Pow2(wb), k + m);
      StepsXor(Steps(u[0], k), moved * Pow2(wb), m);
      StepsSum(u[0], k, m);
      PastZeros(rest, wb, k + m);
      PastZeros(moved, wb, m);
      assert k + m - wb == k + (m - wb);
    }
  }

  lemma OneBraid(wb: nat, n: nat)
    requires n > 0
    ensures wb * n == wb + wb * (n - 1)
  {
  }

  lemma PastZeros(v: nat, wb: nat, m: nat)
    requires m >= wb
    ensures Steps(v * Pow2(wb), m) == Steps(v, m - wb)
  {
    hide Pow2, Steps;
    StepsSum(v * Pow2(wb), wb, m - wb);
    assert wb + (m - wb) == m;
    StepsShift(v, wb);
  }

  /** What the registers of the braids mean: all that is still to come is rest. */
  ghost predicate Woven(crcs: seq<nat>, wb: nat, rest: seq<byte>, want: nat) {
    Steps(Xor(Weave(crcs, wb), LittleEndian(rest)), 8 * |rest|) == want
  }

  /** One block of all braids. */
  lemma WovenBlock(crcs: seq<nat>, w: nat, block: seq<byte>, rest: seq<byte>, want: nat)
    requires |block| == |crcs| * w && |rest| >= |crcs| * w
    requires Woven(crcs, 8 * w, block + rest, want)
    ensures Woven(AllSteps(Both(crcs, Words(block, w, |crcs|)), 8 * |block|), 8 * w, rest, want)
  {
    hide Xor, Steps, Pow2, Weave, Words, Both, AllSteps, LittleEndian;
    var n, words := |crcs|, Words(block, w, |crcs|);
    var k, m := 8 * |block|, 8 * |rest|;
    var u := Both(crcs, words);
    var tail := LittleEndian(rest);
    LittleEndianSum(block, rest);
    WeaveWords(block, w, n);
    WeaveBoth(crcs, words, 8 * w);
    BothLength(crcs, words);
    XorAssoc(Weave(crcs, 8 * w), LittleEndian(block), tail * Pow2(k));
    StepsXor(Weave(u, 8 * w), tail * Pow2(k), k + m);
    Times8(n, w);
    WeaveSteps(u, 8 * w, k, m);
    PastZeros(tail, k, k + m);
    assert 8 * |block + rest| == k + m;
    StepsXor(Weave(AllSteps(u, k), 8 * w), tail, m);
  }

  lemma BothLength(u: seq<nat>, v: seq<nat>)
    requires |u| == |v|
    ensures |Both(u, v)| == |u|
  {
  }

  lemma Times8(n: nat, w: nat)
    ensures 8 * w * n == 8 * (n * w)
  {
  }

  /** The last block: the braids are brought together one word after another. */
  function Gather(u: seq<nat>, wb: nat, c: nat): nat
    decreases |u|
  {
    if u == [] then c else Gather(u[1..], wb, Steps(Xor(u[0], c), wb))
  }

  lemma {:induction false} GatherAll(u: seq<nat>, wb: nat, c: nat)
    ensures Gather(u, wb, c) == Steps(Xor(Weave(u, wb), c), wb * |u|)
    decreases |u|
  {
    hide Xor, Pow2, Steps;
    if u == [] {
      XorSwap(0, c);
      XorNone(c);
      NoSteps(c);
    } else {
      var rest, d := Weave(u[1..], wb), Steps(Xor(u[0], c), wb);
      GatherAll(u[1..], wb, d);
      OneBraid(wb, |u|);
      XorSwap(u[0], rest * Pow2(wb));
      XorAssoc(rest * Pow2(wb), u[0], c);
      StepsXor(rest * Pow2(wb), Xor(u[0], c), wb);
      StepsShift(rest, wb);
      StepsSum(Xor(Weave(u, wb), c), wb, wb * (|u| - 1));
    }
  }

  lemma GatherOne(u: seq<nat>, wb: nat, c: nat, j: nat)
    requires j < |u|
    ensures Gather(u[j..], wb, c) == Gather(u[j + 1..], wb, Steps(Xor(u[j], c), wb))
  {
    hide Xor, Steps;
    assert u[j..][1..] == u[j + 1..];
  }

  lemma WovenLast(crcs: seq<nat>, w: nat, block: seq<byte>, want: nat)
    requires |block| == |crcs| * w
    requires Woven(crcs, 8 * w, block, want)
    ensures Gather(Both(crcs, Words(block, w, |crcs|)), 8 * w, 0) == want
  {
    hide Xor, Steps, Pow2, Weave, Words, Both, LittleEndian, Gather;
    var n, words := |crcs|, Words(block, w, |crcs|);
    var u := Both(crcs, words);
    WeaveWords(block, w, n);
    WeaveBoth(crcs, words, 8 * w);
    BothLength(crcs, words);
    GatherAll(u, 8 * w, 0);
    XorNone(Weave(u, 8 * w));
    Times8(n, w);
  }

  /** At first there is only the one register. */
  function First(c: nat, n: nat): (r: seq<nat>)
    requires n >= 1
    ensures |r| == n && r[0] == c && forall j :: 1 <= j < n ==> r[j] == 0
  {
    [c] + seq(n - 1, _ => 0)
  }

  lemma WovenFirst(c: nat, wb: nat, n: nat, data: seq<byte>)
    requires n >= 1
    ensures Woven(First(c, n), wb, data, Raw(c, data))
  {
    hide Xor, Pow2, Steps, Raw, LittleEndian;
    var u := First(c, n);
    NothingWoven(n - 1, wb);
    assert u[1..] == seq(n - 1, _ => 0);
    XorNone(c);
    RawIsRemainder(c, data);
  }

  lemma {:induction false} NothingWoven(n: nat, wb: nat)
    ensures Weave(seq(n, _ => 0), wb) == 0
  {
    hide Pow2;
    if n > 0 {
      NothingWoven(n - 1, wb);
      assert seq(n, _ => 0)[1..] == seq(n - 1, _ => 0);
      XorZero();
    }
  }

  // ------------------------------------------------------------ powers

  /** The table of powers is used modulo its length: they repeat. */
  lemma PowerEntry(t: seq<nat>, k: nat)
    requires PowerTable(t, 32)
    ensures |t| == 32 && t[k % 32] == XPow(Pow2(k)) && 0 < t[k % 32] < Pow2(32)
  {
    hide XPow, Pow2;
    PolyOrder.PowerModulo(k);
    XPowFits(Pow2(k));
  }

  ghost predicate BitDone(p: nat, q: nat, rest: nat, all: nat) {
    q < Pow2(32) && Steps(q, rest) == Steps(p, all)
  }

  /** One bit of the exponent. */
  lemma PowerBit(p: nat, n: nat, k: nat)
    requires n > 0 && p < Pow2(32)
    ensures BitDone(p, if n % 2 == 1 then Prod(XPow(Pow2(k)), p, 32) else p, n / 2 * Pow2(k + 1), n * Pow2(k))
  {
    hide XPow, Pow2, Prod, Steps;
    var t := Pow2(k);
    PowNext(k);
    TimesDouble(n / 2, t);
    Halved(n, t);
    if n % 2 == 1 {
      ProdXPow(t, p);
      StepsFit(p, t);
      StepsSum(p, t, n / 2 * (2 * t));
    }
  }

  lemma Halved(n: nat, t: nat)
    ensures n * t == n % 2 * t + 2 * (n / 2 * t)
  {
    assert n == n % 2 + 2 * (n / 2);
  }

  /** An entry of the braid tables. */
  lemma BraidProduct(i: nat, k: nat, span: nat)
    requires 0 < i < 256 && k <= span
    ensures 0 < i * Pow2(24) < Pow2(32)
    ensures Prod(i * Pow2(24), XPow(8 * (span + 3 - k)), 32) == Steps(i, 8 * (span - k))
  {
    hide XPow, Pow2, Prod, Steps;
    Pow32();
    var e := 8 * (span + 3 - k);
    XPowFits(e);
    ProdSwap(i * Pow2(24), XPow(e), 32);
    ProdXPow(e, i * Pow2(24));
    PastZeros(i, 24, e);
  }

  /** The bytes of a word below place k. */
  lemma WordByte(v: nat, k: nat, span: nat, done: nat)
    requires k < span && done == Steps(Low(v, 8 * k), 8 * span)
    ensures Xor(done, Steps(Shr(v, 8 * k) % 256, 8 * (span - k))) == Steps(Low(v, 8 * k + 8), 8 * span)
  {
    hide Xor, Pow2, Steps, Low, Shr;
    var b := Shr(v, 8 * k) % 256;
    ShrDiv(Shr(v, 8 * k), 8);
    Pow2Values();
    LowSplit(v, 8 * k, 8);
    LowFits(v, 8 * k);
    XorApart(Low(v, 8 * k), b, 8 * k);
    StepsXor(Low(v, 8 * k), b * Pow2(8 * k), 8 * span);
    PastZeros(b, 8 * k, 8 * span);
    assert 8 * span - 8 * k == 8 * (span - k);
  }

  lemma RawSnoc(c: nat, buf: seq<byte>, lo: nat, i: nat)
    requires lo <= i < |buf|
    ensures Raw(c, buf[lo..i + 1]) == Next(Raw(c, buf[lo..i]), buf[i])
  {
    hide Next;
    assert buf[lo..i + 1] == buf[lo..i] + [buf[i]];
    RawSum(c, buf[lo..i], [buf[i]]);
    var r := Raw(c, buf[lo..i]);
    assert Raw(r, [buf[i]]) == Raw(Next(r, buf[i]), []);
  }

  class Tables {
    const W: nat
    const N: nat
    const crcTable: array<nat>
    const x2nTable: array<nat>
    const braidTable: array2<nat>
    const crcBigTable: array<nat>
    const braidBigTable: array2<nat>

    /** Bytes in a block. */
    function Span(): (r: nat)
      ensures r >= N || W == 0
    {
      N * W
    }

    ghost predicate Sizes() {
      (W == 4 || W == 8) && 1 <= N <= 6
    }

    ghost predicate Braided(rows: nat)
      reads braidTable
    {
      rows <= W <= Span() && braidTable.Length0 == W && braidTable.Length1 == 256
      && forall k, i :: 0 <= k < rows && 0 <= i < 256 ==> BraidEntry(braidTable[k, i], i, k, Span())
    }

    /** The rows for the places below `rows` of a word stand from the end up. */
    ghost predicate BigBraided(rows: nat)
      reads braidBigTable
    {
      rows <= W <= Span() && braidBigTable.Length0 == W && braidBigTable.Length1 == 256
      && forall r, i :: W - rows <= r < W && 0 <= i < 256 ==>
           BigEntry(braidBigTable[r, i], i, W - 1 - r, Span(), W)
    }

    ghost predicate Valid()
      reads crcTable, x2nTable, braidTable, crcBigTable, braidBigTable
    {
      && Sizes() && ByteTable(crcTable[..]) && PowerTable(x2nTable[..], 32) && Braided(W)
      && BigByteTable(crcBigTable[..], W) && BigBraided(W)
    }

    constructor (w: nat, n: nat)
      requires (w == 4 || w == 8) && 1 <= n <= 6
      ensures Valid() && W == w && N == n
      ensures fresh(crcTable) && fresh(x2nTable) && fresh(braidTable) && fresh(crcBigTable) && fresh(braidBigTable)
    {
      W, N := w, n;
      crcTable := new nat[256];
      x2nTable := new nat[32];
      braidTable := new nat[w, 256];
      crcBigTable := new nat[256];
      braidBigTable := new nat[w, 256];
      new;
      MakeBytes();
      MakePowers();
      Braid();
    }

    method MakeBytes()
      requires Sizes() && crcTable.Length == 256 && crcBigTable.Length == 256 && crcTable != crcBigTable
      modifies crcTable, crcBigTable
      ensures ByteTable(crcTable[..]) && BigByteTable(crcBigTable[..], W)
    {
      hide Xor, Steps, Swap;
      for i := 0 to 256
        invariant forall k :: 0 <= k < i ==> crcTable[k] == Steps(k, 8)
        invariant forall k :: 0 <= k < i ==> crcBigTable[k] == Swap(Steps(k, 8), W)
      {
        var p := OneByte(i);
        crcTable[i] := p;
        ByteSwapIs(p, W);
        crcBigTable[i] := ByteSwap(p, W);
      }
    }

    method OneByte(i: nat) returns (p: nat)
      ensures p == Steps(i, 8)
    {
      hide Xor, Steps;
      p := i;
      NoSteps(i);
      for j := 0 to 8
        invariant p == Steps(i, j)
      {
        StepLast(i, j);
        p := if p % 2 == 1 then Xor(p / 2, POLY) else p / 2;
      }
    }

    method MakePowers()
      requires x2nTable.Length == 32
      modifies x2nTable
      ensures PowerTable(x2nTable[..], 32)
    {
      hide XPow, Pow2, Prod;
      PolyOrder.NatX();
      Pow2Values();
      var p: nat := 0x40000000;
      x2nTable[0] := p;
      for n := 1 to 32
        invariant p == XPow(Pow2(n - 1))
        invariant PowerTable(x2nTable[..], n)
      {
        XPowFits(Pow2(n - 1));
        XPowSum(Pow2(n - 1), Pow2(n - 1));
        PowNext(n - 1);
        p := MultModP(p, p);
        assert p == XPow(Pow2(n));
        x2nTable[n] := p;
      }
    }

    /** x to the power n * 2^k. */
    method X2nModP(n: nat, k: nat) returns (p: nat)
      requires PowerTable(x2nTable[..], 32)
      ensures p == XPow(n * Pow2(k)) && 0 < p < Pow2(32)
    {
      hide XPow, Pow2, Prod, PowerTable;
      Pow32();
      p := 0x80000000;
      PowerOf(n * Pow2(k));
      XPowFits(n * Pow2(k));
      var m: nat, j: nat := n, k;
      while m != 0
        invariant p < Pow2(32) && Steps(p, m * Pow2(j)) == XPow(n * Pow2(k))
        decreases m
      {
        PowerBit(p, m, j);
        if m % 2 == 1 {
          PowerEntry(x2nTable[..], j);
          p := MultModP(x2nTable[j % 32], p);
        }
        m := m / 2;
        j := j + 1;
      }
      NoSteps(p);
    }

    method Braid()
      requires Sizes() && PowerTable(x2nTable[..], 32)
      requires braidTable.Length0 == W && braidTable.Length1 == 256
      requires braidBigTable.Length0 == W && braidBigTable.Length1 == 256 && braidTable != braidBigTable
      modifies braidTable, braidBigTable
      ensures Braided(W) && BigBraided(W)
    {
      hide XPow, Pow2, Prod, PowerTable, BraidEntry, BigEntry, Swap;
      for k := 0 to W
        invariant Braided(k) && BigBraided(k)
      {
        BraidRow(k);
      }
    }

    /** The entries for place k of a word. */
    method BraidRow(k: nat)
      requires Sizes() && PowerTable(x2nTable[..], 32) && k < W && Braided(k) && BigBraided(k)
      requires braidTable != braidBigTable
      modifies braidTable, braidBigTable
      ensures Braided(k + 1) && BigBraided(k + 1)
    {
      hide XPow, Pow2, Prod, PowerTable, BraidEntry, BigEntry, Swap, ByteSwap;
      Pow32();
      Pow2Values();
      var p := X2nModP(8 * (Span() + 3 - k), 0);
      BraidZero(k, Span(), W);
      var row := W - 1 - k;
      braidTable[k, 0] := 0;
      braidBigTable[row, 0] := 0;
      for i := 1 to 256
        invariant Braided(k) && BigBraided(k)
        invariant forall j :: 0 <= j < i ==> BraidEntry(braidTable[k, j], j, k, Span())
        invariant forall j :: 0 <= j < i ==> BigEntry(braidBigTable[row, j], j, k, Span(), W)
      {
        BraidProduct(i, k, Span());
        var q := MultModP(i * 0x100_0000, p);
        BraidIs(q, i, k, Span(), W);
        braidTable[k, i] := q;
        braidBigTable[row, i] := ByteSwap(q, W);
      }
    }

    /** The bytes of a word one after another. */
    method CrcWord(data: nat) returns (crc: nat)
      requires Sizes() && ByteTable(crcTable[..])
      requires data < Pow2(8 * W)
      ensures crc == Steps(data, 8 * W) && crc < Pow2(32)
    {
      hide Xor, Steps, Pow2;
      Pow2Mono(8 * W, 8 * W + 32);
      StepsNarrow(data, 8 * W);
      crc := data;
      NoSteps(data);
      for k := 0 to W
        invariant crc == Steps(data, 8 * k)
      {
        EightSteps(crc);
        StepsSum(data, 8 * k, 8);
        crc := Xor(crc / 256, crcTable[crc % 256]);
      }
    }

    /** A word of one braid, moved past a whole block. */
    method BraidWord(word: nat) returns (crc: nat)
      requires Valid() && word < Pow2(8 * W)
      ensures crc == Steps(word, 8 * Span()) && crc < Pow2(32)
    {
      hide Xor, Steps, Pow2, Low, Shr, PowerTable, ByteTable;
      BytesOf(word);
      var at: nat := word % 256;
      crc := braidTable[0, at];
      BraidAt(crc, at, 0, Span());
      for k := 1 to W
        invariant crc == Steps(Low(word, 8 * k), 8 * Span())
      {
        WordByte(word, k, Span(), crc);
        ShrDiv(word, 8 * k);
        at := word / Pow2(8 * k) % 256;
        BraidAt(braidTable[k, at], at, k, Span());
        crc := Xor(crc, braidTable[k, at]);
      }
      LowIdentity(word, 8 * W);
      Pow2Mono(8 * W, 8 * Span() + 32);
      StepsNarrow(word, 8 * Span());
    }

    /** crc_word_big: the bytes of a word read the other way round, v being the word. */
    method CrcWordBig(word: nat, ghost v: nat) returns (data: nat)
      requires Sizes() && BigByteTable(crcBigTable[..], W)
      requires v < Pow2(8 * W) && word == Swap(v, W)
      ensures data == Swap(Steps(v, 8 * W), W) && Steps(v, 8 * W) < Pow2(32)
    {
      hide Xor, Steps, Pow2, Swap, Pow256;
      Pow2Mono(8 * W, 8 * W + 32);
      StepsNarrow(v, 8 * W);
      data := word;
      NoSteps(v);
      for k := 0 to W
        invariant data == Swap(Steps(v, 8 * k), W)
      {
        StepsBelow(v, 8 * k, 8 * W);
        Pow256Is(W);
        BigEight(Steps(v, 8 * k), W, crcBigTable[Steps(v, 8 * k) % 256]);
        StepsSum(v, 8 * k, 8);
        data := Xor(data * 256 % Pow256(W), crcBigTable[data / Pow256(W - 1) % 256]);
      }
    }

    /** A big-endian word of one braid, v the other way round, moved past a whole block. */
    method BraidWordBig(word: nat, ghost v: nat) returns (crc: nat)
      requires Valid() && v < Pow2(8 * W) && word == Swap(v, W)
      ensures crc == Swap(Steps(v, 8 * Span()), W) && Steps(v, 8 * Span()) < Pow2(32)
    {
      hide Xor, Steps, Pow2, Low, Shr, PowerTable, ByteTable, BigByteTable, Swap, BigEntry, BraidEntry, Pow256;
      ghost var all := Swap(Steps(v, 8 * Span()), W);
      LowIdentity(v, 8 * W);
      Pow2Mono(8 * W, 8 * Span() + 32);
      StepsNarrow(v, 8 * Span());
      crc := BigLookUp(word, v, 0);
      BigStart(v, W, Span(), crc);
      for k := 1 to W
        invariant Xor(crc, Swap(Steps(Low(v, 8 * (W - k)), 8 * Span()), W)) == all
      {
        var e := BigLookUp(word, v, k);
        BigByte(v, W, k, Span(), crc, e, all);
        crc := Xor(crc, e);
      }
      BigEnd(v, W, Span(), crc);
    }

    method BigLookUp(word: nat, ghost v: nat, k: nat) returns (e: nat)
      requires Sizes() && BigBraided(W) && word == Swap(v, W) && k < W
      ensures e == Swap(Steps(Shr(v, 8 * (W - 1 - k)) % 256, 8 * (Span() - (W - 1 - k))), W)
    {
      hide Steps, Pow2, Shr, Swap, BigEntry;
      BigByteOf(v, word, W, k);
      var at := word / Pow2(8 * k) % 256;
      e := braidBigTable[k, at];
      BigAt(e, at, W - 1 - k, Span(), W);
    }

    /** One byte into the register. */
    method PutByte(crc: nat, b: byte) returns (c: nat)
      requires ByteTable(crcTable[..])
      ensures c == Next(crc, b)
    {
      hide Xor, Steps, Next;
      ByteStep(crc, b);
      c := Xor(crc / 256, crcTable[Xor(crc, b) % 256]);
    }

    /** The first words of all blocks but the last, each braid for itself. */
    method Block(crcs: seq<nat>, block: seq<byte>) returns (next: seq<nat>)
      requires Valid() && |crcs| == N && |block| == Span()
      requires forall j :: 0 <= j < N ==> crcs[j] < Pow2(32)
      ensures next == AllSteps(Both(crcs, Words(block, W, N)), 8 * Span())
      ensures |next| == N && forall j :: 0 <= j < N ==> next[j] < Pow2(32)
    {
      hide Xor, Steps, Pow2, LittleEndian, PowerTable, ByteTable, Braided, Words;
      ghost var want := AllSteps(Both(crcs, Words(block, W, N)), 8 * Span());
      next := crcs;
      for j := 0 to N
        invariant |next| == N && next[..j] == want[..j]
        invariant forall i :: 0 <= i < j ==> next[i] < Pow2(32)
        invariant forall i :: j <= i < N ==> next[i] == crcs[i]
      {
        WordAt(block, W, N, j);
        var word := Xor(crcs[j], LittleEndian(block[j * W..j * W + W]));
        WordWidth(crcs[j], block[j * W..j * W + W]);
        var crc := BraidWord(word);
        next := next[j := crc];
        assert next[..j + 1] == want[..j] + [crc];
        assert want[..j + 1] == want[..j] + [want[j]];
      }
      assert next == next[..N] && want == want[..N];
    }

    /** The last block, where the braids come together. */
    method LastBlock(crcs: seq<nat>, block: seq<byte>) returns (crc: nat)
      requires Valid() && |crcs| == N && |block| == Span()
      requires forall j :: 0 <= j < N ==> crcs[j] < Pow2(32)
      ensures crc == Gather(Both(crcs, Words(block, W, N)), 8 * W, 0) && crc < Pow2(32)
    {
      hide Xor, Steps, Pow2, LittleEndian, PowerTable, ByteTable, Braided, Words, Gather;
      ghost var u := Both(crcs, Words(block, W, N));
      crc := 0;
      assert u[0..] == u;
      for j := 0 to N
        invariant Gather(u[j..], 8 * W, crc) == Gather(u, 8 * W, 0)
        invariant crc < Pow2(32)
      {
        WordAt(block, W, N, j);
        WordWidth(crcs[j], block[j * W..j * W + W]);
        GatherOne(u, 8 * W, crc, j);
        var word := Xor(crcs[j], LittleEndian(block[j * W..j * W + W]));
        WordAgain(word, crc, W);
        crc := CrcWord(Xor(word, crc));
      }
      GatherNone(u[N..], 8 * W, crc);
    }

    /** Block on a big-endian machine; the registers stand for u before and v after it. */
    method BlockBig(crcs: seq<nat>, ghost u: seq<nat>, block: seq<byte>) returns (next: seq<nat>, ghost v: seq<nat>)
      requires Valid() && |u| == N && Swapped(crcs, u, W) && |block| == Span()
      ensures v == AllSteps(Both(u, Words(block, W, N)), 8 * Span()) && |v| == N && Swapped(next, v, W)
    {
      hide Xor, Steps, Pow2, LittleEndian, BigEndian, PowerTable, ByteTable, Braided, Words, BigByteTable, BigBraided;
      hide Swap;
      v := AllSteps(Both(u, Words(block, W, N)), 8 * Span());
      next := crcs;
      for j := 0 to N
        invariant |next| == N && forall i :: 0 <= i < j ==> v[i] < Pow2(32) && next[i] == Swap(v[i], W)
        invariant forall i :: j <= i < N ==> next[i] == crcs[i]
      {
        WordAt(block, W, N, j);
        SwappedAt(crcs, u, W, j);
        ghost var part := block[j * W..j * W + W];
        WordSwapped(crcs[j], u[j], part, W);
        WordWidth(u[j], part);
        var crc := BraidWordBig(Xor(crcs[j], BigEndian(block[j * W..j * W + W])), Xor(u[j], LittleEndian(part)));
        next := next[j := crc];
      }
    }

    /** LastBlock on a big-endian machine. */
    method LastBlockBig(crcs: seq<nat>, ghost u: seq<nat>, block: seq<byte>) returns (comb: nat)
      requires Valid() && |u| == N && Swapped(crcs, u, W) && |block| == Span()
      ensures var g := Gather(Both(u, Words(block, W, N)), 8 * W, 0); comb == Swap(g, W) && g < Pow2(32)
    {
      hide Xor, Steps, Pow2, LittleEndian, BigEndian, PowerTable, ByteTable, Braided, Words, Gather, BigByteTable;
      hide Swap, BigBraided, Swapped;
      ghost var all: seq<nat>, c: nat := Both(u, Words(block, W, N)), 0;
      comb := 0;
      SwapZero(W);
      Pow32();
      assert all[0..] == all;
      for j := 0 to N
        invariant Gather(all[j..], 8 * W, c) == Gather(all, 8 * W, 0)
        invariant c < Pow2(32) && comb == Swap(c, W)
      {
        WordAt(block, W, N, j);
        SwappedAt(crcs, u, W, j);
        ghost var part := block[j * W..j * W + W];
        WordSwapped(crcs[j], u[j], part, W);
        WordWidth(u[j], part);
        GatherOne(all, 8 * W, c, j);
        ghost var word := Xor(u[j], LittleEndian(part));
        WordAgain(word, c, W);
        SwapXor(word, c, W);
        comb := CrcWordBig(Xor(Xor(crcs[j], BigEndian(block[j * W..j * W + W])), comb), Xor(word, c));
        c := Steps(Xor(word, c), 8 * W);
      }
      GatherNone(all[N..], 8 * W, c);
    }

    /** Blocks on a big-endian machine. */
    method BlocksBig(c: nat, buf: seq<byte>, blks: nat) returns (crc: nat)
      requires Valid() && c < Pow2(32)
      requires blks >= 1 && |buf| == blks * Span()
      ensures crc == Raw(c, buf)
    {
      hide Raw, Xor, Steps, Pow2, PowerTable, ByteTable, Braided, Words, Gather, Both, AllSteps, Woven, Swap, Swapped;
      hide BigByteTable, BigBraided, ByteSwap;
      ghost var want, u := Raw(c, buf), First(c, N);
      ByteSwapIs(c, W);
      var crcs: seq<nat>, left: nat, rest := First(ByteSwap(c, W), N), blks - 1, buf;
      SwappedFirst(c, N, W);
      WovenFirst(c, 8 * W, N, buf);
      while left != 0
        invariant |u| == N && Swapped(crcs, u, W)
        invariant |rest| == (left + 1) * Span()
        invariant Woven(u, 8 * W, rest, want)
      {
        OneBlock(left, Span());
        assert rest == rest[..Span()] + rest[Span()..];
        WovenBlock(u, W, rest[..Span()], rest[Span()..], want);
        crcs, u := BlockBig(crcs, u, rest[..Span()]);
        rest := rest[Span()..];
        left := left - 1;
      }
      WovenLast(u, W, rest, want);
      var comb := LastBlockBig(crcs, u, rest);
      ByteSwapIs(comb, W);
      BackAgain(want, W);
      crc := ByteSwap(comb, W);
    }

    /** As many blocks of N words as there are. */
    method Blocks(c: nat, buf: seq<byte>, blks: nat) returns (crc: nat)
      requires Valid() && c < Pow2(32)
      requires blks >= 1 && |buf| == blks * Span()
      ensures crc == Raw(c, buf)
    {
      hide Raw, Xor, Steps, Pow2, PowerTable, ByteTable, Braided, Words, Gather, Both, AllSteps, Woven;
      ghost var want := Raw(c, buf);
      var crcs: seq<nat>, left: nat, rest := First(c, N), blks - 1, buf;
      Pow32();
      WovenFirst(c, 8 * W, N, buf);
      while left != 0
        invariant |crcs| == N && forall j :: 0 <= j < N ==> crcs[j] < Pow2(32)
        invariant |rest| == (left + 1) * Span()
        invariant Woven(crcs, 8 * W, rest, want)
      {
        OneBlock(left, Span());
        assert rest == rest[..Span()] + rest[Span()..];
        WovenBlock(crcs, W, rest[..Span()], rest[Span()..], want);
        crcs := Block(crcs, rest[..Span()]);
        rest := rest[Span()..];
        left := left - 1;
      }
      WovenLast(crcs, W, rest, want);
      crc := LastBlock(crcs, rest);
    }

    /** Up to the next word boundary, then block by block. */
    method Braids(c0: nat, buf: seq<byte>, at: nat, big: bool) returns (c: nat, i: nat)
      requires Valid() && |buf| >= Span() + W - 1 && c0 < Pow2(32)
      ensures i <= |buf| && c == Raw(c0, buf[..i])
    {
      hide Raw, Pow2, PowerTable, ByteTable, Braided, BigByteTable, BigBraided, Next;
      c, i := Align(c0, buf, at);
      var blks := (|buf| - i) / Span();
      WholeBlocks(|buf| - i, Span());
      var end := i + blks * Span();
      RawFits(c0, buf[..i]);
      if big { c := BlocksBig(c, buf[i..end], blks); } else { c := Blocks(c, buf[i..end], blks); }
      RawSum(c0, buf[..i], buf[i..end]);
      assert buf[..i] + buf[i..end] == buf[..end];
      i := end;
    }

    method Align(c0: nat, buf: seq<byte>, at: nat) returns (c: nat, i: nat)
      requires Sizes() && ByteTable(crcTable[..])
      ensures i <= W - 1 && i <= |buf| && c == Raw(c0, buf[..i])
      ensures i == |buf| || (at + i) % W == 0
    {
      hide Raw, ByteTable, Next;
      c, i := c0, 0;
      RawNone(c0);
      assert buf[..i] == [];
      while i < |buf| && (at + i) % W != 0
        invariant i <= (W - at % W) % W
        invariant 0 <= i <= |buf| && c == Raw(c0, buf[..i])
        decreases |buf| - i
      {
        RawSnoc(c0, buf, 0, i);
        c := PutByte(c, buf[i]);
        i := i + 1;
      }
    }

    /** The bytes from start on, eight at a time. */
    method Tail(ghost c0: nat, start: nat, buf: seq<byte>, from: nat) returns (c: nat)
      requires ByteTable(crcTable[..]) && from <= |buf| && start == Raw(c0, buf[..from])
      ensures c == Raw(c0, buf)
    {
      hide Raw, ByteTable, Next;
      c := start;
      var i := from;
      while |buf| - i >= 8
        invariant 0 <= i <= |buf| && c == Raw(c0, buf[..i])
        decreases |buf| - i
      {
        c := EightBytes(c0, c, buf, i);
        i := i + 8;
      }
      while i < |buf|
        invariant 0 <= i <= |buf| && c == Raw(c0, buf[..i])
        decreases |buf| - i
      {
        RawSnoc(c0, buf, 0, i);
        c := PutByte(c, buf[i]);
        i := i + 1;
      }
      assert buf[..i] == buf;
    }

    /** The check value of a buffer, which lies at address `at`, continued from crc, on a
        machine that is big-endian or not; that of no bytes at all if there is no buffer. */
    method Crc32Z(crc: nat, buffer: Buffer, at: nat, big: bool) returns (r: nat)
      requires Valid()
      ensures r == (if buffer == Null then Crc(0, []) else Crc(crc, buffer.data)) && r < Pow2(32)
    {
      hide Pow2, Raw;
      NothingChecked();
      if buffer == Null { return 0; }
      r := CrcBytes(crc, buffer.data, at, big);
    }

    method CrcBytes(crc: nat, buf: seq<byte>, at: nat, big: bool) returns (r: nat)
      requires Valid()
      ensures r == Crc(crc, buf) && r < Pow2(32)
    {
      hide Raw, Xor, Pow2, Low, PowerTable, ByteTable, Braided, BigByteTable, BigBraided;
      ConditionFits(crc);
      CrcFits(crc, buf);
      var c: nat, i: nat := Xor(Low(crc, 32), 0xffffffff), 0;
      ghost var c0 := c;
      RawNone(c0);
      assert buf[..i] == [];
      if |buf| >= Span() + W - 1 {
        c, i := Braids(c, buf, at, big);
      }
      c := Tail(c0, c, buf, i);
      r := Xor(c, 0xffffffff);
    }

    method EightBytes(ghost c0: nat, c: nat, buf: seq<byte>, i: nat) returns (r: nat)
      requires ByteTable(crcTable[..]) && i + 8 <= |buf| && c == Raw(c0, buf[..i])
      ensures r == Raw(c0, buf[..i + 8])
    {
      hide Raw, ByteTable, Next;
      RawEight(c0, buf, i);
      r := PutByte(c, buf[i]);
      r := PutByte(r, buf[i + 1]);
      r := PutByte(r, buf[i + 2]);
      r := PutByte(r, buf[i + 3]);
      r := PutByte(r, buf[i + 4]);
      r := PutByte(r, buf[i + 5]);
      r := PutByte(r, buf[i + 6]);
      r := PutByte(r, buf[i + 7]);
    }

    /** The operator that appends a length. */
    method CombineGen(len2: nat) returns (op: nat)
      requires PowerTable(x2nTable[..], 32)
      ensures op == XPow(8 * len2) && 0 < op < Pow2(32)
    {
      hide XPow, Pow2, PowerTable;
      Pow2Values();
      op := X2nModP(len2, 3);
    }

    /** From the check values of two buffers, that of both together. */
    method Combine(crc1: nat, crc2: nat, len2: nat) returns (crc: nat)
      requires PowerTable(x2nTable[..], 32)
      ensures forall a, b :: crc1 == Crc(0, a) && crc2 == Crc(0, b) && |b| == len2 ==> crc == Crc(0, a + b)
      ensures crc == Joined(XPow(8 * len2), crc1, crc2)
    {
      hide XPow, Pow2, PowerTable, Crc, Low, Joined;
      var op := CombineGen(len2);
      LowIdentity(op, 32);
      crc := CombineOp(crc1, crc2, op);
    }
  }

  lemma NothingChecked()
    ensures Crc(0, []) == 0 < Pow2(32)
  {
    hide Xor, Low;
    Pow2Values();
    LowIdentity(0, 32);
    XorSwap(0, MASK);
    XorNone(MASK);
    XorSelf(MASK);
  }

  /** What appending with an operator gives, on whatever fits in 32 bits. */
  function Joined(op: nat, crc1: nat, crc2: nat): nat {
    Xor(Prod(Low(op, 32), Low(crc1, 32), 32), Low(crc2, 32))
  }

  lemma JoinedIsCrc(a: seq<byte>, b: seq<byte>)
    ensures Joined(XPow(8 * |b|), Crc(0, a), Crc(0, b)) == Crc(0, a + b)
  {
    hide XPow, Pow2, Prod, Low, Xor, Crc;
    CrcOfSum(a, b);
    CrcFits(0, a);
    CrcFits(0, b);
    XPowFits(8 * |b|);
    LowIdentity(Crc(0, a), 32);
    LowIdentity(Crc(0, b), 32);
    LowIdentity(XPow(8 * |b|), 32);
  }

  /** Appending with an operator made before. */
  method CombineOp(crc1: nat, crc2: nat, op: nat) returns (crc: nat)
    requires Low(op, 32) != 0
    ensures crc == Joined(op, crc1, crc2)
    ensures forall a, b :: op == XPow(8 * |b|) && crc1 == Crc(0, a) && crc2 == Crc(0, b) ==> crc == Crc(0, a + b)
  {
    hide Pow2, Prod, Low, Xor, XPow, Crc;
    LowFits(op, 32);
    LowFits(crc1, 32);
    var p := MultModP(Low(op, 32), Low(crc1, 32));
    crc := Xor(p, Low(crc2, 32));
    forall a, b | op == XPow(8 * |b|) && crc1 == Crc(0, a) && crc2 == Crc(0, b) ensures crc == Crc(0, a + b) {
      JoinedIsCrc(a, b);
    }
  }

  lemma WordWidth(c: nat, word: seq<byte>)
    requires c < Pow2(32) && |word| >= 4
    ensures Xor(c, LittleEndian(word)) < Pow2(8 * |word|)
  {
    hide Xor, Pow2;
    LittleEndianFits(word);
    Pow2Mono(32, 8 * |word|);
    XorFits(c, LittleEndian(word), 8 * |word|);
  }

  lemma WordAgain(word: nat, c: nat, w: nat)
    requires w >= 4 && word < Pow2(8 * w) && c < Pow2(32)
    ensures Xor(word, c) < Pow2(8 * w)
  {
    hide Xor, Pow2;
    Pow2Mono(32, 8 * w);
    XorFits(word, c, 8 * w);
  }

  lemma GatherNone(u: seq<nat>, wb: nat, c: nat)
    requires u == []
    ensures Gather(u, wb, c) == c
  {
  }

  lemma OneBlock(left: nat, span: nat)
    requires left >= 1 && span >= 0
    ensures (left + 1) * span == span + left * span && left * span >= span
  {
  }

  lemma WholeBlocks(n: nat, span: nat)
    requires 0 < span <= n
    ensures 1 <= n / span && n / span * span <= n
  {
  }

  lemma RawNone(c: nat)
    ensures Raw(c, []) == c
  {
  }

  lemma RawEight(c: nat, buf: seq<byte>, i: nat)
    requires i + 8 <= |buf|
    ensures Raw(c, buf[..i + 1]) == Next(Raw(c, buf[..i]), buf[i])
    ensures Raw(c, buf[..i + 2]) == Next(Raw(c, buf[..i + 1]), buf[i + 1])
    ensures Raw(c, buf[..i + 3]) == Next(Raw(c, buf[..i + 2]), buf[i + 2])
    ensures Raw(c, buf[..i + 4]) == Next(Raw(c, buf[..i + 3]), buf[i + 3])
    ensures Raw(c, buf[..i + 5]) == Next(Raw(c, buf[..i + 4]), buf[i + 4])
    ensures Raw(c, buf[..i + 6]) == Next(Raw(c, buf[..i + 5]), buf[i + 5])
    ensures Raw(c, buf[..i + 7]) == Next(Raw(c, buf[..i + 6]), buf[i + 6])
    ensures Raw(c, buf[..i + 8]) == Next(Raw(c, buf[..i + 7]), buf[i + 7])
  {
    hide Raw, Next;
    RawSnoc(c, buf, 0, i);
    RawSnoc(c, buf, 0, i + 1);
    RawSnoc(c, buf, 0, i + 2);
    RawSnoc(c, buf, 0, i + 3);
    RawSnoc(c, buf, 0, i + 4);
    RawSnoc(c, buf, 0, i + 5);
    RawSnoc(c, buf, 0, i + 6);
    RawSnoc(c, buf, 0, i + 7);
  }

  lemma PowerOf(n: nat)
    ensures XPow(n) == Steps(0x80000000, n)
  {
  }

  lemma BraidZero(k: nat, span: nat, w: nat)
    requires k <= span
    ensures BraidEntry(0, 0, k, span) && BigEntry(0, 0, k, span, w)
  {
    ZeroSteps(8 * (span - k));
    SwapZero(w);
  }

  lemma BraidIs(v: nat, i: nat, k: nat, span: nat, w: nat)
    requires k <= span && v == Steps(i, 8 * (span - k)) && (w == 4 || w == 8)
    ensures BraidEntry(v, i, k, span) && BigEntry(ByteSwap(v, w), i, k, span, w)
  {
    hide Steps;
    ByteSwapIs(v, w);
  }

  lemma BigAt(v: nat, i: nat, k: nat, span: nat, w: nat)
    requires BigEntry(v, i, k, span, w)
    ensures k <= span && v == Swap(Steps(i, 8 * (span - k)), w)
  {
  }

  // ------------------------------------------------------------ big-endian words

  /** The register of a braid of a big-endian machine is that of the other, swapped. */
  ghost predicate Swapped(crcs: seq<nat>, u: seq<nat>, w: nat) {
    |crcs| == |u| && forall j :: 0 <= j < |u| ==> u[j] < Pow2(32) && crcs[j] == Swap(u[j], w)
  }

  lemma SwappedAt(crcs: seq<nat>, u: seq<nat>, w: nat, j: nat)
    requires Swapped(crcs, u, w) && j < |u|
    ensures |crcs| == |u| && u[j] < Pow2(32) && crcs[j] == Swap(u[j], w)
  {
  }

  lemma SwappedFirst(c: nat, n: nat, w: nat)
    requires n >= 1 && c < Pow2(32)
    ensures Swapped(First(Swap(c, w), n), First(c, n), w)
  {
    SwapZero(w);
    Pow32();
  }

  /** A word read, and the register or what has been combined so far added to it. */
  lemma WordSwapped(a: nat, u: nat, word: seq<byte>, w: nat)
    requires a == Swap(u, w) && |word| == w
    ensures Xor(a, BigEndian(word)) == Swap(Xor(u, LittleEndian(word)), w)
  {
    hide Xor, Swap, LittleEndian;
    BigIsSwapped(word);
    SwapXor(u, LittleEndian(word), w);
  }

  /** The byte at place k from below is that at place j from above, moved past a block. */
  lemma BigByte(v: nat, w: nat, k: nat, span: nat, crc: nat, e: nat, all: nat)
    requires k < w <= span && Xor(crc, Swap(Steps(Low(v, 8 * (w - k)), 8 * span), w)) == all
    requires e == Swap(Steps(Shr(v, 8 * (w - 1 - k)) % 256, 8 * (span - (w - 1 - k))), w)
    ensures Xor(Xor(crc, e), Swap(Steps(Low(v, 8 * (w - k - 1)), 8 * span), w)) == all
  {
    hide Xor, Steps, Swap, Low, Shr;
    var j := w - 1 - k;
    var low, b := Steps(Low(v, 8 * j), 8 * span), Steps(Shr(v, 8 * j) % 256, 8 * (span - j));
    WordByte(v, j, span, low);
    assert 8 * j + 8 == 8 * (w - k) && 8 * (w - k - 1) == 8 * j;
    SwapXor(low, b, w);
    XorSwap(Swap(low, w), e);
    XorAssoc(crc, e, Swap(low, w));
  }

  lemma BigByteOf(v: nat, word: nat, w: nat, k: nat)
    requires k < w && word == Swap(v, w)
    ensures word / Pow2(8 * k) % 256 == Shr(v, 8 * (w - 1 - k)) % 256
  {
    hide Swap, Pow2, Shr, Pow256;
    SwapByte(v, w, k);
    Pow256Is(k);
    Pow256Is(w - 1 - k);
    ShrDiv(v, 8 * (w - 1 - k));
  }

  /** One byte through the table of a big-endian machine. */
  lemma BigEight(x: nat, w: nat, t: nat)
    requires w >= 1 && x < Pow256(w) && t == Swap(Steps(x % 256, 8), w)
    ensures Swap(x, w) / Pow256(w - 1) % 256 == x % 256
    ensures Xor(Swap(x, w) * 256 % Pow256(w), t) == Swap(Steps(x, 8), w)
  {
    hide Xor, Steps, Swap, Pow256;
    SwapByte(x, w, w - 1);
    NextPower(0);
    EightSteps(x);
    SwapXor(x / 256, Steps(x % 256, 8), w);
    SwapShifts(x, w);
  }

  lemma SwapShifts(x: nat, w: nat)
    requires w >= 1 && x < Pow256(w)
    ensures Swap(x, w) * 256 % Pow256(w) == Swap(x / 256, w)
  {
    hide Swap, Pow256;
    SwapStep(x, w);
    NextPower(w);
    SwapFits(x / 256, w - 1);
    SwapUp(x / 256, w);
    Remains(x % 256, Pow256(w - 1), Swap(x / 256, w - 1));
  }

  lemma Remains(b: nat, p: nat, r: nat)
    requires r < p
    ensures (b * p + r) * 256 % (256 * p) == 256 * r
  {
    assert (b * p + r) * 256 == b * (256 * p) + 256 * r by { Shifts(b, p, r); }
    DivModUnique((b * p + r) * 256, 256 * p, b, 256 * r);
  }

  lemma Shifts(b: nat, p: nat, r: nat)
    ensures (b * p + r) * 256 == b * (256 * p) + 256 * r
  {
  }

  /** Before the first byte, and after the last. */
  lemma BigStart(v: nat, w: nat, span: nat, e: nat)
    requires 1 <= w <= span && Low(v, 8 * w) == v
    requires e == Swap(Steps(Shr(v, 8 * (w - 1)) % 256, 8 * (span - (w - 1))), w)
    ensures Xor(e, Swap(Steps(Low(v, 8 * (w - 1)), 8 * span), w)) == Swap(Steps(v, 8 * span), w)
  {
    hide Xor, Steps, Swap, Low, Shr;
    var all := Swap(Steps(v, 8 * span), w);
    XorSwap(0, all);
    XorNone(all);
    XorSwap(0, e);
    XorNone(e);
    BigByte(v, w, 0, span, 0, e, all);
  }

  lemma BigEnd(v: nat, w: nat, span: nat, crc: nat)
    ensures Xor(crc, Swap(Steps(Low(v, 0), 8 * span), w)) == crc
  {
    hide Xor, Steps, Swap;
    ZeroSteps(8 * span);
    SwapZero(w);
    XorNone(crc);
  }

  lemma BackAgain(v: nat, w: nat)
    requires w >= 4
    ensures v < Pow2(32) ==> Swap(Swap(v, w), w) == v
  {
    hide Swap, Pow2, Pow256;
    Pow256Is(w);
    Pow2Mono(32, 8 * w);
    if v < Pow2(32) { SwapTwice(v, w); }
  }

  /** Steps do not make a wide register wider. */
  lemma {:induction false} StepsBelow(v: nat, n: nat, m: nat)
    requires v < Pow2(m) && m >= 32
    ensures Steps(v, n) < Pow2(m)
    decreases n
  {
    hide Pow2, Xor, Steps;
    if n == 0 {
      NoSteps(v);
    } else {
      StepsBelow(v, n - 1, m);
      StepLast(v, n - 1);
      var p := Steps(v, n - 1);
      Pow32();
      Pow2Mono(32, m);
      XorFits(p / 2, POLY, m);
    }
  }

  lemma BraidAt(v: nat, i: nat, k: nat, span: nat)
    requires BraidEntry(v, i, k, span)
    ensures k <= span && v == Steps(i, 8 * (span - k))
  {
  }
}
