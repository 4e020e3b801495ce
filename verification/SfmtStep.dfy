/** SFMT-common.h, for any of the parameter sets of SFMT-params.h: one step of the recursion on
128-bit numbers that are kept as four words. */
module SfmtStep {

  datatype W128 = W128(u0: bv32, u1: bv32, u2: bv32, u3: bv32)

  /** How many numbers are kept (SFMT_N), and SFMT_POS1, SFMT_SL1, SFMT_SL2, SFMT_SR1,
      SFMT_SR2 and the four masks. */
  datatype ParamSet = ParamSet(n: nat, pos1: nat, sl1: nat, sl2: nat, sr1: nat, sr2: nat, m1: bv32, m2: bv32, m3: bv32,
                               m4: bv32)

  /** What the ten sets have in common: whole numbers move by one, three or seven bytes. */
  type Params = p: ParamSet |
    2 <= p.n && p.pos1 < p.n && p.sl1 < 32 && p.sr1 < 32 && p.sl2 in {1, 3, 7} && p.sr2 in {1, 3, 7}
    witness P19937

  const P19937: ParamSet := ParamSet(156, 122, 18, 1, 11, 1, 0xdfffffef, 0xddfecb7f, 0xbffaffff, 0xbffffff6)

  /** The ten sets, by their Mersenne exponents. */
  function Standard(mexp: nat): (p: Params)
    ensures mexp in {607, 1279, 2281, 4253, 11213, 19937, 44497, 86243, 132049, 216091} ==> p.n == mexp / 128 + 1
  {
    if mexp == 607 then ParamSet(5, 2, 15, 3, 13, 3, 0xfdff37ff, 0xef7f3f7d, 0xff777b7d, 0x7ff7fb2f)
    else if mexp == 1279 then ParamSet(10, 7, 14, 3, 5, 1, 0xf7fefffd, 0x7fefcfff, 0xaff3ef3f, 0xb5ffff7f)
    else if mexp == 2281 then ParamSet(18, 12, 19, 1, 5, 1, 0xbff7ffbf, 0xfdfffffe, 0xf7ffef7f, 0xf2f7cbbf)
    else if mexp == 4253 then ParamSet(34, 17, 20, 1, 7, 1, 0x9f7bffff, 0x9fffff5f, 0x3efffffb, 0xfffff7bb)
    else if mexp == 11213 then ParamSet(88, 68, 14, 3, 7, 3, 0xeffff7fb, 0xffffffef, 0xdfdfbfff, 0x7fffdbfd)
    else if mexp == 44497 then ParamSet(348, 330, 5, 3, 9, 3, 0xeffffffb, 0xdfbebfff, 0xbfbf7bef, 0x9ffd7bff)
    else if mexp == 86243 then ParamSet(674, 366, 6, 7, 19, 1, 0xfdbffbff, 0xbff7ff3f, 0xfd77efff, 0xbf9ff3ff)
    else if mexp == 132049 then ParamSet(1032, 110, 19, 1, 21, 1, 0xffffbb5f, 0xfb6ebf95, 0xfffefffa, 0xcff77fff)
    else if mexp == 216091 then ParamSet(1689, 627, 11, 3, 10, 1, 0xbff7bff7, 0xbfffffff, 0xbffffa7f, 0xffddfbfb)
    else P19937
  }

  function Wide(u0: bv32, u1: bv32, u2: bv32, u3: bv32): bv128 {
    (u3 as bv128 << 96) | (u2 as bv128 << 64) | (u1 as bv128 << 32) | u0 as bv128
  }

  /** The number the four words stand for. */
  function Number(w: W128): bv128 {
    Wide(w.u0, w.u1, w.u2, w.u3)
  }

  function Word64(h: bv32, l: bv32): bv64 {
    (h as bv64 << 32) | l as bv64
  }

  function Upper(x: bv64): bv32 {
    (x >> 32) as bv32
  }

  function Lower(x: bv64): bv32 {
    (x & 0xffffffff) as bv32
  }

  function Both(x: bv32, y: bv32): bv32 {
    x ^ y
  }

  function Plus(x: bv128, y: bv128): bv128 {
    x ^ y
  }

  /** One, three or seven bytes to the right or to the left. */
  function ByteRight(x: bv128, k: nat): bv128 {
    if k == 1 then x >> 8 else if k == 3 then x >> 24 else x >> 56
  }

  function ByteLeft(x: bv128, k: nat): bv128 {
    if k == 1 then x << 8 else if k == 3 then x << 24 else x << 56
  }

  /** The halves: what is shifted, and what comes in from the other half. */
  function RightLow(h: bv64, l: bv64, k: nat): bv64 {
    if k == 1 then (l >> 8) | (h << 56) else if k == 3 then (l >> 24) | (h << 40) else (l >> 56) | (h << 8)
  }

  function LeftHigh(h: bv64, l: bv64, k: nat): bv64 {
    if k == 1 then (h << 8) | (l >> 56) else if k == 3 then (h << 24) | (l >> 40) else (h << 56) | (l >> 8)
  }

  function Right64(x: bv64, k: nat): bv64 {
    if k == 1 then x >> 8 else if k == 3 then x >> 24 else x >> 56
  }

  function Left64(x: bv64, k: nat): bv64 {
    if k == 1 then x << 8 else if k == 3 then x << 24 else x << 56
  }

  function Pair(h: bv64, l: bv64): bv128 {
    (h as bv128 << 64) | l as bv128
  }

  lemma WideIsPair(u0: bv32, u1: bv32, u2: bv32, u3: bv32)
    ensures Wide(u0, u1, u2, u3) == Pair(Word64(u3, u2), Word64(u1, u0))
  {
  }

  lemma PairIsWide(h: bv64, l: bv64)
    ensures Wide(Lower(l), Upper(l), Lower(h), Upper(h)) == Pair(h, l)
  {
  }

  lemma RightBy1(h: bv64, l: bv64)
    ensures Pair(h >> 8, (l >> 8) | (h << 56)) == Pair(h, l) >> 8
  {
  }

  lemma RightBy3(h: bv64, l: bv64)
    ensures Pair(h >> 24, (l >> 24) | (h << 40)) == Pair(h, l) >> 24
  {
  }

  lemma RightBy7(h: bv64, l: bv64)
    ensures Pair(h >> 56, (l >> 56) | (h << 8)) == Pair(h, l) >> 56
  {
  }

  lemma RightHalves(h: bv64, l: bv64, k: nat)
    requires k in {1, 3, 7}
    ensures Pair(Right64(h, k), RightLow(h, l, k)) == ByteRight(Pair(h, l), k)
  {
    hide Pair;
    if k == 1 { RightBy1(h, l); } else if k == 3 { RightBy3(h, l); } else { RightBy7(h, l); }
  }

  lemma LeftBy1(h: bv64, l: bv64)
    ensures Pair((h << 8) | (l >> 56), l << 8) == Pair(h, l) << 8
  {
  }

  lemma LeftBy3(h: bv64, l: bv64)
    ensures Pair((h << 24) | (l >> 40), l << 24) == Pair(h, l) << 24
  {
  }

  lemma LeftBy7(h: bv64, l: bv64)
    ensures Pair((h << 56) | (l >> 8), l << 56) == Pair(h, l) << 56
  {
  }

  lemma LeftHalves(h: bv64, l: bv64, k: nat)
    requires k in {1, 3, 7}
    ensures Pair(LeftHigh(h, l, k), Left64(l, k)) == ByteLeft(Pair(h, l), k)
  {
    hide Pair;
    if k == 1 { LeftBy1(h, l); } else if k == 3 { LeftBy3(h, l); } else { LeftBy7(h, l); }
  }

  function Part(x: bv128, k: nat): bv32 {
    var y := if k == 0 then x else if k == 1 then x >> 32 else if k == 2 then x >> 64 else x >> 96;
    (y & 0xffffffff) as bv32
  }

  lemma WideParts(u0: bv32, u1: bv32, u2: bv32, u3: bv32)
    ensures Part(Wide(u0, u1, u2, u3), 0) == u0
    ensures Part(Wide(u0, u1, u2, u3), 1) == u1
    ensures Part(Wide(u0, u1, u2, u3), 2) == u2
    ensures Part(Wide(u0, u1, u2, u3), 3) == u3
  {
  }

  /** The four words of a number. */
  function OfNumber(x: bv128): W128 {
    W128(Part(x, 0), Part(x, 1), Part(x, 2), Part(x, 3))
  }

  lemma OfNumberIs(w: W128)
    ensures OfNumber(Number(w)) == w
  {
    hide Wide, Part;
    WideParts(w.u0, w.u1, w.u2, w.u3);
  }

  lemma WideSum(a0: bv32, a1: bv32, a2: bv32, a3: bv32, b0: bv32, b1: bv32, b2: bv32, b3: bv32)
    ensures Wide(Both(a0, b0), Both(a1, b1), Both(a2, b2), Both(a3, b3)) ==
      Plus(Wide(a0, a1, a2, a3), Wide(b0, b1, b2, b3))
  {
  }

  /** The whole number by bytes to the right, in two halves. */
  method Rshift128(w: W128, shift: nat) returns (out: W128)
    requires shift in {1, 3, 7}
    ensures Number(out) == ByteRight(Number(w), shift)
  {
    hide Wide, Pair, Word64, Upper, Lower, ByteRight, ByteLeft, Right64, Left64, RightLow, LeftHigh;
    var th, tl := Word64(w.u3, w.u2), Word64(w.u1, w.u0);
    WideIsPair(w.u0, w.u1, w.u2, w.u3);
    RightHalves(th, tl, shift);
    var oh, ol := Right64(th, shift), RightLow(th, tl, shift);
    out := W128(Lower(ol), Upper(ol), Lower(oh), Upper(oh));
    PairIsWide(oh, ol);
  }

  /** The whole number by bytes to the left. */
  method Lshift128(w: W128, shift: nat) returns (out: W128)
    requires shift in {1, 3, 7}
    ensures Number(out) == ByteLeft(Number(w), shift)
  {
    hide Wide, Pair, Word64, Upper, Lower, ByteRight, ByteLeft, Right64, Left64, RightLow, LeftHigh;
    var th, tl := Word64(w.u3, w.u2), Word64(w.u1, w.u0);
    WideIsPair(w.u0, w.u1, w.u2, w.u3);
    LeftHalves(th, tl, shift);
    var oh, ol := LeftHigh(th, tl, shift), Left64(tl, shift);
    out := W128(Lower(ol), Upper(ol), Lower(oh), Upper(oh));
    PairIsWide(oh, ol);
  }

  /** A word to the right by SFMT_SR1 and masked. */
  function Masked32(p: Params, x: bv32, mask: bv32): bv32 {
    (x >> p.sr1) & mask
  }

  /** A word to the left by SFMT_SL1. */
  function Shifted32(p: Params, x: bv32): bv32 {
    x << p.sl1
  }

  function Masked(p: Params, b: W128): W128 {
    W128(Masked32(p, b.u0, p.m1), Masked32(p, b.u1, p.m2), Masked32(p, b.u2, p.m3), Masked32(p, b.u3, p.m4))
  }

  function Shifted(p: Params, d: W128): W128 {
    W128(Shifted32(p, d.u0), Shifted32(p, d.u1), Shifted32(p, d.u2), Shifted32(p, d.u3))
  }

  /** The linear recursion on whole numbers. */
  function Recursion(p: Params, a: W128, b: W128, c: W128, d: W128): bv128 {
    Plus(
      Plus(Plus(Plus(Number(a), ByteLeft(Number(a), p.sl2)), Number(Masked(p, b))), ByteRight(Number(c), p.sr2)),
      Number(Shifted(p, d)))
  }

  /** The next number of the sequence. */
  function Recur(p: Params, a: W128, b: W128, c: W128, d: W128): W128 {
    OfNumber(Recursion(p, a, b, c, d))
  }

  function Sum(v: W128, w: W128): W128 {
    W128(Both(v.u0, w.u0), Both(v.u1, w.u1), Both(v.u2, w.u2), Both(v.u3, w.u3))
  }

  lemma NumberOfSum(v: W128, w: W128)
    ensures Number(Sum(v, w)) == Plus(Number(v), Number(w))
  {
    hide Wide, Both, Plus;
    WideSum(v.u0, v.u1, v.u2, v.u3, w.u0, w.u1, w.u2, w.u3);
  }

  function Sum5(a: W128, x: W128, b: W128, y: W128, d: W128): W128 {
    Sum(Sum(Sum(Sum(a, x), b), y), d)
  }

  lemma NumberOfSum5(a: W128, x: W128, b: W128, y: W128, d: W128)
    ensures Number(Sum5(a, x, b, y, d)) == Plus(Plus(Plus(Plus(Number(a), Number(x)), Number(b)), Number(y)), Number(d))
  {
    hide Number, Sum, Plus;
    NumberOfSum(a, x);
    NumberOfSum(Sum(a, x), b);
    NumberOfSum(Sum(Sum(a, x), b), y);
    NumberOfSum(Sum(Sum(Sum(a, x), b), y), d);
  }

  lemma Sum5Words(p: Params, a: W128, x: W128, b: W128, y: W128, d: W128)
    ensures Sum5(a, x, Masked(p, b), y, Shifted(p, d)) == W128(
              SumWord(p, a.u0, x.u0, b.u0, p.m1, y.u0, d.u0), SumWord(p, a.u1, x.u1, b.u1, p.m2, y.u1, d.u1),
              SumWord(p, a.u2, x.u2, b.u2, p.m3, y.u2, d.u2), SumWord(p, a.u3, x.u3, b.u3, p.m4, y.u3, d.u3))
  {
    hide Both, Masked32, Shifted32;
  }

  /** One word of the new number. */
  function SumWord(p: Params, a: bv32, x: bv32, b: bv32, mask: bv32, y: bv32, d: bv32): bv32 {
    Both(Both(Both(Both(a, x), Masked32(p, b, mask)), y), Shifted32(p, d))
  }

  /** What is at a place of r that may be the place i, of which k words have been written. */
  ghost predicate Partly(now: W128, was: W128, k: nat) {
    (k <= 0 ==> now.u0 == was.u0) && (k <= 1 ==> now.u1 == was.u1)
    && (k <= 2 ==> now.u2 == was.u2) && (k <= 3 ==> now.u3 == was.u3)
  }

  method PutWord(r: array<W128>, i: nat, k: nat, v: bv32)
    requires i < r.Length && k < 4
    modifies r
    ensures r[i] == old(Written(r[i], k, v))
    ensures forall j :: 0 <= j < r.Length && j != i ==> r[j] == old(r[j])
  {
    r[i] := Written(r[i], k, v);
  }

  function Written(w: W128, k: nat, v: bv32): W128
    requires k < 4
  {
    if k == 0 then w.(u0 := v) else if k == 1 then w.(u1 := v) else if k == 2 then w.(u2 := v) else w.(u3 := v)
  }

  /** do_recursion(r, a, b, c, d) on places in arrays.  The words of r are written one after
      another; r may be the place of any of the operands. */
  method DoRecursion(p: Params, r: array<W128>, i: nat, a: array<W128>, ai: nat, b: array<W128>, bi: nat,
                     c: array<W128>, ci: nat, d: array<W128>, di: nat)
    requires i < r.Length && ai < a.Length && bi < b.Length && ci < c.Length && di < d.Length
    modifies r
    ensures r[i] == old(Recur(p, a[ai], b[bi], c[ci], d[di]))
    ensures forall k :: 0 <= k < r.Length && k != i ==> r[k] == old(r[k])
  {
    hide Number, Plus, ByteLeft, ByteRight, SumWord, Sum5, Masked, Shifted, OfNumber;
    ghost var a0, b0, c0, d0 := a[ai], b[bi], c[ci], d[di];
    var x := Lshift128(a[ai], p.sl2);
    var y := Rshift128(c[ci], p.sr2);
    PutWord(r, i, 0, SumWord(p, a[ai].u0, x.u0, b[bi].u0, p.m1, y.u0, d[di].u0));
    assert Partly(a[ai], a0, 1) && Partly(b[bi], b0, 1) && Partly(d[di], d0, 1);
    PutWord(r, i, 1, SumWord(p, a[ai].u1, x.u1, b[bi].u1, p.m2, y.u1, d[di].u1));
    assert Partly(a[ai], a0, 2) && Partly(b[bi], b0, 2) && Partly(d[di], d0, 2);
    PutWord(r, i, 2, SumWord(p, a[ai].u2, x.u2, b[bi].u2, p.m3, y.u2, d[di].u2));
    assert Partly(a[ai], a0, 3) && Partly(b[bi], b0, 3) && Partly(d[di], d0, 3);
    PutWord(r, i, 3, SumWord(p, a[ai].u3, x.u3, b[bi].u3, p.m4, y.u3, d[di].u3));
    Sum5Words(p, a0, x, b0, y, d0);
    NumberOfSum5(a0, x, Masked(p, b0), y, Shifted(p, d0));
    OfNumberIs(Sum5(a0, x, Masked(p, b0), y, Shifted(p, d0)));
  }
}
