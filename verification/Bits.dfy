/** Powers of two, shifts and masks, and the reversal of the low bits of a number.

Deflate packs Huffman codes starting at their most significant bit into bytes
that are filled from the least significant bit, so both sides of the codec keep
every code reversed.  Reversal is the arithmetic both of them rest on. */
module Bits {

  function Pow2(n: nat): (p: nat)
    ensures p >= 1
  {
    if n == 0 then 1 else 2 * Pow2(n - 1)
  }

  /** x >> n */
  function Shr(x: nat, n: nat): nat {
    if n == 0 then x else Shr(x / 2, n - 1)
  }

  /** x & ((1 << n) - 1) */
  function Low(x: nat, n: nat): (r: nat)
    ensures r < Pow2(n)
  {
    if n == 0 then 0 else x % 2 + 2 * Low(x / 2, n - 1)
  }

  /** The low n bits of x in the opposite order. */
  function Rev(n: nat, x: nat): (r: nat)
    ensures r < Pow2(n)
  {
    if n == 0 then 0 else (x % 2) * Pow2(n - 1) + Rev(n - 1, x / 2)
  }

  lemma {:induction false} Pow2Sum(a: nat, b: nat)
    ensures Pow2(a + b) == Pow2(a) * Pow2(b)
  {
    if b > 0 {
      Pow2Sum(a, b - 1);
      assert a + b - 1 == a + (b - 1);
      TimesDouble(Pow2(a), Pow2(b - 1));
    }
  }

  lemma {:induction false} Pow2Mono(a: nat, b: nat)
    requires a <= b
    ensures Pow2(a) <= Pow2(b)
    ensures a < b ==> 2 * Pow2(a) <= Pow2(b)
    decreases b
  {
    if a < b {
      Pow2Mono(a, b - 1);
    }
  }

  lemma Pow2Values()
    ensures Pow2(0) == 1 && Pow2(1) == 2 && Pow2(2) == 4 && Pow2(3) == 8
    ensures Pow2(4) == 16 && Pow2(5) == 32 && Pow2(6) == 64 && Pow2(7) == 128
    ensures Pow2(8) == 256 && Pow2(9) == 512 && Pow2(10) == 1024 && Pow2(11) == 2048
    ensures Pow2(12) == 4096 && Pow2(13) == 8192 && Pow2(14) == 16384
    ensures Pow2(15) == 32768 && Pow2(16) == 65536
  {
    assert Pow2(4) == 16;
    assert Pow2(8) == 256;
    assert Pow2(12) == 4096;
  }

  lemma PowZero()
    ensures Pow2(0) == 1
  {
  }

  lemma PowStep(n: nat)
    requires n > 0
    ensures Pow2(n) == 2 * Pow2(n - 1)
  {
  }

  lemma MulAssoc(a: nat, b: nat, c: nat)
    ensures (a * b) * c == a * (b * c)
  {
  }

  lemma TimesDouble(u: nat, p: nat)
    ensures u * (2 * p) == 2 * (u * p)
  {
  }

  lemma MulBound(k: int, d: int)
    requires d > 0
    ensures k > 0 ==> k * d >= d
    ensures k < 0 ==> k * d <= -d
  {
    if k > 0 {
      assert (k - 1) * d >= 0;
    } else if k < 0 {
      assert (-k - 1) * d >= 0;
    }
  }

  /** Quotient and remainder are determined by q * d + r with r < d. */
  lemma DivModUnique(x: int, d: int, q: int, r: int)
    requires d > 0 && x == q * d + r && 0 <= r < d
    ensures x / d == q && x % d == r
  {
    var k, e := x / d - q, x % d - r;
    assert k * d + e == 0 by {
      assert x == (x / d) * d + x % d;
      assert (x / d) * d - q * d == k * d;
    }
    MulBound(k, d);
  }

  /** A number is its high part shifted up plus its low part, in one way only. */
  lemma {:induction false} Split(x: nat, n: nat)
    ensures x == Shr(x, n) * Pow2(n) + Low(x, n)
  {
    if n > 0 {
      Split(x / 2, n - 1);
      TimesDouble(Shr(x / 2, n - 1), Pow2(n - 1));
    }
  }

  lemma SplitUnique(x: nat, n: nat, hi: nat, lo: nat)
    requires x == hi * Pow2(n) + lo && lo < Pow2(n)
    ensures Shr(x, n) == hi && Low(x, n) == lo
  {
    Split(x, n);
    DivModUnique(x, Pow2(n), hi, lo);
    DivModUnique(x, Pow2(n), Shr(x, n), Low(x, n));
  }

  lemma LowFits(x: nat, n: nat)
    ensures Low(x, n) < Pow2(n)
  {
  }

  lemma MulMono(a: nat, b: nat, c: nat)
    requires a <= b
    ensures a * c <= b * c
  {
  }

  /** Shifting right rounds down. */
  lemma ShrLess(x: nat, n: nat, k: nat)
    ensures Shr(x, n) < k <==> x < k * Pow2(n)
  {
    hide Shr, Low, Pow2;
    Split(x, n);
    LowFits(x, n);
    QuotientLess(Shr(x, n), Low(x, n), Pow2(n), k);
  }

  lemma QuotientLess(s: nat, r: nat, p: nat, k: nat)
    requires r < p
    ensures s < k <==> s * p + r < k * p
  {
    if s < k {
      MulMono(s + 1, k, p);
    } else {
      MulMono(k, s, p);
    }
  }

  lemma LowIdentity(x: nat, n: nat)
    requires x < Pow2(n)
    ensures Low(x, n) == x && Shr(x, n) == 0
  {
    SplitUnique(x, n, 0, x);
  }

  lemma {:induction false} LowLow(x: nat, a: nat, b: nat)
    requires a <= b
    ensures Low(Low(x, b), a) == Low(x, a)
    decreases a
  {
    if a > 0 {
      LowLow(x / 2, a - 1, b - 1);
    }
  }

  lemma {:induction false} ShrLow(x: nat, a: nat, b: nat)
    ensures Shr(Low(x, a + b), a) == Low(Shr(x, a), b)
  {
    if a > 0 {
      ShrLow(x / 2, a - 1, b);
      assert a - 1 + b == a + b - 1;
    }
  }

  lemma {:induction false} ShrShr(x: nat, a: nat, b: nat)
    ensures Shr(Shr(x, a), b) == Shr(x, a + b)
  {
    if a > 0 {
      ShrShr(x / 2, a - 1, b);
      assert a - 1 + b == a + b - 1;
    }
  }

  /** Low (a + b) bits in two pieces. */
  lemma {:induction false} LowSplit(x: nat, a: nat, b: nat)
    ensures Low(x, a + b) == Low(Shr(x, a), b) * Pow2(a) + Low(x, a)
  {
    Split(Low(x, a + b), a);
    ShrLow(x, a, b);
    LowLow(x, a, a + b);
  }

  lemma {:induction false} LowZero(n: nat)
    ensures Low(0, n) == 0 && Rev(n, 0) == 0
  {
    if n > 0 {
      LowZero(n - 1);
    }
  }

  /** Reversal of a concatenation: the halves swap. */
  lemma {:induction false} RevSplit(a: nat, b: nat, x: nat)
    ensures Rev(a + b, x) == Rev(a, x) * Pow2(b) + Rev(b, Shr(x, a))
  {
    if a > 0 {
      RevSplit(a - 1, b, x / 2);
      Pow2Sum(a - 1, b);
      assert a + b - 1 == a - 1 + b;
      Distribute(x % 2, Pow2(a - 1), Rev(a - 1, x / 2), Pow2(b));
    }
  }

  lemma Distribute(c: nat, p: nat, u: nat, q: nat)
    ensures (c * p + u) * q == c * (p * q) + u * q
  {
    assert (c * p) * q == c * (p * q);
  }

  /** Shifted up, the low bits are those of before. */
  lemma LowShifted(k: nat, s: nat, n: nat)
    requires n >= s
    ensures Low(k * Pow2(s), n) == Low(k, n - s) * Pow2(s)
  {
    hide Low, Pow2, Shr;
    var p, hi, lo := Pow2(n - s), Shr(k, n - s), Low(k, n - s);
    Split(k, n - s);
    LowFits(k, n - s);
    Pow2Sum(n - s, s);
    assert n - s + s == n;
    ScaleParts(k, hi, lo, p, Pow2(s));
    SplitUnique(k * Pow2(s), n, hi, lo * Pow2(s));
  }

  lemma ScaleParts(k: nat, hi: nat, lo: nat, p: nat, q: nat)
    requires k == hi * p + lo && lo < p && q >= 1
    ensures k * q == hi * (p * q) + lo * q && lo * q < p * q
  {
    Distribute(hi, p, lo, q);
    MulMono(lo + 1, p, q);
  }

  /** Only the low n bits matter. */
  lemma {:induction false} RevLow(n: nat, x: nat)
    ensures Rev(n, Low(x, n)) == Rev(n, x)
  {
    if n > 0 {
      var y := Low(x, n);
      assert y % 2 == x % 2 && y / 2 == Low(x / 2, n - 1);
      RevLow(n - 1, x / 2);
    }
  }

  /** The top bit of the window comes out last. */
  lemma RevLast(n: nat, y: nat)
    requires n > 0
    ensures Rev(n, y) == 2 * Rev(n - 1, Low(y, n - 1)) + Shr(y, n - 1) % 2
  {
    RevSplit(n - 1, 1, y);
    RevLow(n - 1, y);
    assert Rev(1, Shr(y, n - 1)) == Shr(y, n - 1) % 2;
  }

  /** Reversing twice gives the low bits back. */
  lemma {:induction false} RevRev(n: nat, x: nat)
    ensures Rev(n, Rev(n, x)) == Low(x, n)
  {
    hide Low, Shr, Pow2, Rev;
    if n == 0 {
      RevNothing(x);
    } else {
      RevLast(n, Rev(n, x));
      RevParts(n, x);
      RevRev(n - 1, x / 2);
      LowNext(x, n);
    }
  }

  lemma RevNothing(x: nat)
    ensures Rev(0, Rev(0, x)) == 0 == Low(x, 0)
  {
  }

  /** The lowest bit is the highest of the reversal. */
  lemma RevParts(n: nat, x: nat)
    requires n > 0
    ensures Low(Rev(n, x), n - 1) == Rev(n - 1, x / 2) && Shr(Rev(n, x), n - 1) == x % 2
  {
    hide Low, Shr, Pow2, Rev;
    RevUnfold(n, x);
    RevFits(n - 1, x / 2);
    SplitUnique(Rev(n, x), n - 1, x % 2, Rev(n - 1, x / 2));
  }

  lemma RevUnfold(n: nat, x: nat)
    requires n > 0
    ensures Rev(n, x) == x % 2 * Pow2(n - 1) + Rev(n - 1, x / 2)
  {
  }

  lemma RevFits(n: nat, x: nat)
    ensures Rev(n, x) < Pow2(n)
  {
  }

  lemma LowNext(x: nat, n: nat)
    requires n > 0
    ensures Low(x, n) == x % 2 + 2 * Low(x / 2, n - 1)
  {
  }

  /** The top l of n reversed bits are the reversal of the low l bits. */
  lemma RevTop(n: nat, l: nat, x: nat)
    requires l <= n
    ensures Shr(Rev(n, x), n - l) == Rev(l, x)
  {
    RevSplit(l, n - l, x);
    assert l + (n - l) == n;
    SplitUnique(Rev(n, x), n - l, Rev(l, x), Rev(n - l, Shr(x, l)));
  }

  /** A value shifted up by zeros reverses to the same number. */
  lemma RevShift(n: nat, l: nat, c: nat)
    requires l <= n && c < Pow2(l)
    ensures Rev(n, c * Pow2(n - l)) == Rev(l, c)
  {
    var x := c * Pow2(n - l);
    SplitUnique(x, n - l, c, 0);
    RevSplit(n - l, l, x);
    assert (n - l) + l == n;
    RevLow(n - l, x);
    LowZero(n - l);
  }

  /** Shifts and masks as the division and remainder they are. */
  lemma ShrDiv(x: nat, n: nat)
    ensures Shr(x, n) == x / Pow2(n) && Low(x, n) == x % Pow2(n)
  {
    Split(x, n);
    DivModUnique(x, Pow2(n), Shr(x, n), Low(x, n));
  }

  /** Reversal of the top bits: the low end of a reversed l-bit value. */
  lemma RevLowEnd(l: nat, c: nat, k: nat)
    requires k <= l
    ensures Low(Rev(l, c), k) == Rev(k, Shr(c, l - k))
  {
    var w := Rev(l, c);
    RevTop(l, k, w);
    RevRev(l, c);
    assert l - k + k == l;
    ShrLow(c, l - k, k);
    RevRev(k, w);
    RevLow(k, Shr(c, l - k));
  }

  lemma RevInjective(n: nat, x: nat, y: nat)
    requires x < Pow2(n) && y < Pow2(n) && Rev(n, x) == Rev(n, y)
    ensures x == y
  {
    RevRev(n, x);
    RevRev(n, y);
    LowIdentity(x, n);
    LowIdentity(y, n);
  }

  lemma ShrMono(x: nat, y: nat, n: nat)
    requires x <= y
    ensures Shr(x, n) <= Shr(y, n)
  {
    ShrLess(x, n, Shr(y, n) + 1);
    ShrLess(y, n, Shr(y, n) + 1);
  }
}
