/** crc32.c: byte_swap, between the two orders of the bytes of a word. */
module ByteOrder {
  import opened Bits
  import opened BitStream
  import opened ExclusiveOr
  import opened PolyMod
  import opened CrcSpec

  function Pow256(n: nat): (p: nat)
    ensures p >= 1
  {
    if n == 0 then 1 else 256 * Pow256(n - 1)
  }

  lemma {:induction false} Pow256Is(n: nat)
    ensures Pow256(n) == Pow2(8 * n)
  {
    hide Pow2;
    Pow2Values();
    if n > 0 {
      Pow256Is(n - 1);
      Pow2Sum(8, 8 * n - 8);
    }
  }

  /** The w low bytes of v in the opposite order. */
  function Swap(v: nat, w: nat): nat {
    if w == 0 then 0 else v % 256 * Pow256(w - 1) + Swap(v / 256, w - 1)
  }

  /** Bytes as one number, the first most significant. */
  function BigEndian(data: seq<byte>): nat
    decreases |data|
  {
    if data == [] then 0 else data[0] * Pow256(|data| - 1) + BigEndian(data[1..])
  }

  lemma {:induction false} BigIsSwapped(data: seq<byte>)
    ensures BigEndian(data) == Swap(LittleEndian(data), |data|)
    decreases |data|
  {
    hide Pow2, Pow256;
    Pow2Values();
    if data != [] {
      BigIsSwapped(data[1..]);
      LowByte(data[0], LittleEndian(data[1..]));
    }
  }

  lemma LowByte(b: nat, v: nat)
    requires b < 256
    ensures (b + v * 256) % 256 == b && (b + v * 256) / 256 == v
  {
  }

  lemma {:induction false} SwapFits(v: nat, w: nat)
    ensures Swap(v, w) < Pow256(w)
  {
    if w > 0 {
      SwapFits(v / 256, w - 1);
      MulMono(v % 256, 255, Pow256(w - 1));
    }
  }

  /** The highest byte comes out last. */
  lemma {:induction false} SwapTop(a: nat, b: nat, w: nat)
    requires w >= 1 && a < Pow256(w - 1) && b < 256
    ensures Swap(a + b * Pow256(w - 1), w) == b + 256 * Swap(a, w - 1)
    decreases w
  {
    hide Pow256, Swap;
    if w == 1 {
      SwapOne(a, b);
    } else {
      NextPower(w - 1);
      SplitLow(a, b, Pow256(w - 2));
      SwapTop(a / 256, b, w - 1);
      SwapTopStep(a, b, w);
    }
  }

  lemma SwapOne(a: nat, b: nat)
    requires a < Pow256(0) && b < 256
    ensures Swap(a + b * Pow256(0), 1) == b + 256 * Swap(a, 0)
  {
  }

  lemma SwapTopStep(a: nat, b: nat, w: nat)
    requires w >= 2 && a < Pow256(w - 1) && b < 256
    requires Swap(a / 256 + b * Pow256(w - 2), w - 1) == b + 256 * Swap(a / 256, w - 2)
    ensures Swap(a + b * Pow256(w - 1), w) == b + 256 * Swap(a, w - 1)
  {
    hide Pow256, Swap;
    var q := Pow256(w - 2);
    NextPower(w - 1);
    SwapStep(a + b * (256 * q), w);
    SplitLow(a, b, q);
    SwapStep(a, w - 1);
    Shifted(a % 256, q, Swap(a / 256, w - 2));
  }

  lemma NextPower(n: nat)
    ensures Pow256(n) == if n == 0 then 1 else 256 * Pow256(n - 1)
  {
  }

  lemma SplitLow(a: nat, b: nat, q: nat)
    requires a < 256 * q
    ensures (a + b * (256 * q)) % 256 == a % 256 && (a + b * (256 * q)) / 256 == a / 256 + b * q && a / 256 < q
  {
    assert a + b * (256 * q) == a % 256 + (a / 256 + b * q) * 256 by { Regroup(a, b, q); }
    LowByte(a % 256, a / 256 + b * q);
  }

  lemma Regroup(a: nat, b: nat, q: nat)
    ensures a + b * (256 * q) == a % 256 + (a / 256 + b * q) * 256
  {
    assert b * (256 * q) == b * q * 256;
  }

  lemma Shifted(t: nat, q: nat, s: nat)
    ensures t * (256 * q) + 256 * s == 256 * (t * q + s)
  {
  }

  /** Without its highest byte a word comes out one byte up. */
  lemma SwapUp(a: nat, w: nat)
    requires w >= 1 && a < Pow256(w - 1)
    ensures Swap(a, w) == 256 * Swap(a, w - 1)
  {
    hide Swap;
    SwapTop(a, 0, w);
  }

  /** Swapping twice changes nothing. */
  lemma {:induction false} SwapTwice(v: nat, w: nat)
    requires v < Pow256(w)
    ensures Swap(Swap(v, w), w) == v
    decreases w
  {
    if w > 0 {
      var r := Swap(v / 256, w - 1);
      SwapFits(v / 256, w - 1);
      SwapTop(r, v % 256, w);
      SwapTwice(v / 256, w - 1);
    }
  }

  /** Byte k. */
  function ByteAt(v: nat, k: nat): nat {
    v / Pow256(k) % 256
  }

  /** Byte k from below of the one is byte k from above of the other. */
  lemma {:induction false} SwapByte(v: nat, w: nat, k: nat)
    requires k < w
    ensures ByteAt(Swap(v, w), k) == ByteAt(v, w - 1 - k)
    decreases w
  {
    hide Swap, Pow256, ByteAt;
    SwapStep(v, w);
    SwapFits(v / 256, w - 1);
    if k == w - 1 {
      TopByte(v, Swap(v / 256, w - 1), k);
    } else {
      SwapByte(v / 256, w - 1, k);
      MidByte(v % 256, Swap(v / 256, w - 1), w, k);
      NextByte(v, w - 2 - k);
    }
  }

  lemma TopByte(v: nat, r: nat, k: nat)
    requires r < Pow256(k)
    ensures ByteAt(v % 256 * Pow256(k) + r, k) == ByteAt(v, 0)
  {
    hide Pow256;
    NextPower(0);
    DivModUnique(v % 256 * Pow256(k) + r, Pow256(k), v % 256, r);
  }

  lemma MidByte(x: nat, r: nat, w: nat, k: nat)
    requires k + 2 <= w
    ensures ByteAt(x * Pow256(w - 1) + r, k) == ByteAt(r, k)
  {
    hide Pow256;
    Pow256Sum(k, w - 2 - k);
    Above(x, Pow256(k), Pow256(w - 2 - k), r);
  }

  lemma NextByte(v: nat, k: nat)
    ensures ByteAt(v / 256, k) == ByteAt(v, k + 1)
  {
    DivDiv(v, Pow256(k));
  }

  lemma {:induction false} Pow256Sum(a: nat, b: nat)
    ensures Pow256(a + b + 1) == Pow256(a) * (256 * Pow256(b))
  {
    if a > 0 {
      Pow256Sum(a - 1, b);
      MulAssoc(256, Pow256(a - 1), 256 * Pow256(b));
    }
  }

  /** What is further up does not show in the byte at p. */
  lemma Above(x: nat, p: nat, q: nat, r: nat)
    requires p >= 1
    ensures (x * (p * (256 * q)) + r) / p % 256 == r / p % 256
  {
    var y := x * (256 * q);
    assert x * (p * (256 * q)) == y * p by { MulAssoc(x, 256 * q, p); }
    assert r == r / p * p + r % p;
    assert (y + r / p) * p == y * p + r / p * p;
    DivModUnique(y * p + r, p, y + r / p, r % p);
    assert y == x * q * 256;
    LowByte(r / p % 256, x * q + r / p / 256);
    assert y + r / p == r / p % 256 + (x * q + r / p / 256) * 256;
  }

  lemma DivDiv(v: nat, q: nat)
    requires q >= 1
    ensures v / 256 / q == v / (256 * q)
  {
    var a := v / 256;
    assert a == a / q * q + a % q;
    assert v == a * 256 + v % 256;
    assert v == a / q * (256 * q) + (a % q * 256 + v % 256) by { Regroup2(a / q, q, a % q, v % 256); }
    DivModUnique(v, 256 * q, a / q, a % q * 256 + v % 256);
  }

  lemma Regroup2(n: nat, q: nat, m: nat, r: nat)
    ensures (n * q + m) * 256 + r == n * (256 * q) + (m * 256 + r)
  {
  }

  /** Swapping respects exclusive or. */
  lemma {:induction false} SwapXor(u: nat, v: nat, w: nat)
    ensures Swap(Xor(u, v), w) == Xor(Swap(u, w), Swap(v, w))
    decreases w
  {
    hide Xor, Pow256;
    if w == 0 {
      XorZero();
    } else {
      var p := Pow256(w - 1);
      XorBytes(u, v);
      SwapXor(u / 256, v / 256, w - 1);
      SwapParts(u, w);
      SwapParts(v, w);
      SwapParts(Xor(u, v), w);
      var a, b, x, y := Swap(u / 256, w - 1), Swap(v / 256, w - 1), u % 256, v % 256;
      Pow256Is(w - 1);
      XorTimes(x, y, 8 * (w - 1));
      XorFour(a, x * p, b, y * p);
    }
  }

  lemma XorBytes(u: nat, v: nat)
    ensures Xor(u, v) % 256 == Xor(u % 256, v % 256) && Xor(u, v) / 256 == Xor(u / 256, v / 256)
  {
    hide Xor, Low, Shr, Pow2;
    LowXor(u, v, 8);
    ShrXor(u, v, 8);
    ShrDiv(u, 8);
    ShrDiv(v, 8);
    ShrDiv(Xor(u, v), 8);
    Pow2Values();
  }

  lemma SwapParts(v: nat, w: nat)
    requires w > 0
    ensures Swap(v, w) == Xor(Swap(v / 256, w - 1), v % 256 * Pow256(w - 1))
  {
    hide Xor, Pow256;
    SwapFits(v / 256, w - 1);
    Pow256Is(w - 1);
    XorApart(Swap(v / 256, w - 1), v % 256, 8 * (w - 1));
  }

  lemma {:induction false} SwapZero(w: nat)
    ensures Swap(0, w) == 0
  {
    if w > 0 { SwapZero(w - 1); }
  }

  /** byte_swap, for words of four or of eight bytes. */
  function ByteSwap(v: nat, w: nat): nat {
    if w == 8 then
      v / 0x100000000000000 % 256 + v / 0x1000000000000 % 256 * 0x100 + v / 0x10000000000 % 256 * 0x10000
        + v / 0x100000000 % 256 * 0x1000000 + v / 0x1000000 % 256 * 0x100000000 + v / 0x10000 % 256 * 0x10000000000
        + v / 0x100 % 256 * 0x1000000000000 + v % 256 * 0x100000000000000
    else
      v / 0x1000000 % 256 + v / 0x10000 % 256 * 0x100 + v / 0x100 % 256 * 0x10000 + v % 256 * 0x1000000
  }

  lemma ByteSwapIs(v: nat, w: nat)
    requires w == 4 || w == 8
    ensures ByteSwap(v, w) == Swap(v, w)
  {
    hide Swap, Pow256;
    if w == 4 { FourSwapped(v); } else { EightSwapped(v); }
  }

  lemma FourSwapped(v: nat)
    ensures Swap(v, 4) == v / 0x1000000 % 256 + v / 0x10000 % 256 * 0x100 + v / 0x100 % 256 * 0x10000
      + v % 256 * 0x1000000
  {
    hide Swap, Pow256;
    SmallPowers();
    SwapStep(v, 4);
    SwapStep(v / 0x100, 3);
    assert v / 0x100 / 256 == v / 0x10000;
    SwapStep(v / 0x10000, 2);
    assert v / 0x10000 / 256 == v / 0x1000000;
    SwapStep(v / 0x1000000, 1);
    NoBytes(v / 0x1000000 / 256);
  }

  lemma NoBytes(v: nat)
    ensures Swap(v, 0) == 0
  {
  }

  lemma SmallPowers()
    ensures Pow256(0) == 1 && Pow256(1) == 0x100 && Pow256(2) == 0x10000 && Pow256(3) == 0x1000000
    ensures Pow256(4) == 0x100000000 && Pow256(5) == 0x10000000000 && Pow256(6) == 0x1000000000000
    ensures Pow256(7) == 0x100000000000000
  {
    assert Pow256(2) == 256 * Pow256(1) && Pow256(4) == 256 * Pow256(3) && Pow256(6) == 256 * Pow256(5);
  }

  lemma EightSwapped(v: nat)
    ensures Swap(v, 8) == ByteSwap(v, 8)
  {
    hide Swap, Pow256;
    var h := v / 0x100000000;
    SmallPowers();
    FourSwapped(h);
    assert h / 0x100 == v / 0x10000000000 && h / 0x10000 == v / 0x1000000000000;
    assert h / 0x1000000 == v / 0x100000000000000;
    SwapStep(v, 8);
    SwapStep(v / 0x100, 7);
    assert v / 0x100 / 256 == v / 0x10000;
    SwapStep(v / 0x10000, 6);
    assert v / 0x10000 / 256 == v / 0x1000000;
    SwapStep(v / 0x1000000, 5);
    assert v / 0x1000000 / 256 == h;
  }

  lemma SwapStep(v: nat, w: nat)
    requires w > 0
    ensures Swap(v, w) == v % 256 * Pow256(w - 1) + Swap(v / 256, w - 1)
  {
  }
}
