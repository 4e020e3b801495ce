/** crc32.c: polynomials over the field of two elements modulo the CRC polynomial, lowest
powers in the most significant of 32 bits. */
module PolyMod {
  import opened Bits
  import opened ExclusiveOr

  /** p(x) reflected, x^32 implied. */
  const POLY := 0xedb88320

  /** x^0 */
  const ONE := 0x80000000

  /** a(x) times x.  In a register of more than 32 bits the further bits are of lower
      powers still, as if they had not come in yet. */
  function MulX(a: nat): nat {
    if a % 2 == 0 then a / 2 else Xor(a / 2, POLY)
  }

  /** a(x) times x^n. */
  function Steps(a: nat, n: nat): nat
    decreases n
  {
    if n == 0 then a else Steps(MulX(a), n - 1)
  }

  /** x^n */
  function XPow(n: nat): nat {
    Steps(ONE, n)
  }

  lemma Pow32()
    ensures Pow2(32) == 0x1_0000_0000 && Pow2(31) == ONE && Pow2(24) == 0x100_0000 && Pow2(8) == 256
  {
    hide Pow2;
    Pow2Values();
    Pow2Sum(16, 16);
    Pow2Sum(16, 15);
    Pow2Sum(16, 8);
  }

  lemma {:induction false} StepsSum(a: nat, m: nat, n: nat)
    ensures Steps(a, m + n) == Steps(Steps(a, m), n)
    decreases m
  {
    hide MulX;
    if m > 0 { StepsSum(MulX(a), m - 1, n); }
  }

  lemma StepLast(a: nat, n: nat)
    ensures Steps(a, n + 1) == MulX(Steps(a, n)) == Steps(MulX(a), n)
  {
    hide MulX;
    StepsSum(a, n, 1);
    assert Steps(Steps(a, n), 1) == Steps(MulX(Steps(a, n)), 0);
  }

  // ------------------------------------------------------------ linearity

  lemma MulXXor(a: nat, b: nat)
    ensures MulX(Xor(a, b)) == Xor(MulX(a), MulX(b))
  {
    hide Xor;
    XorStep(a, b);
    var c, d := a / 2, b / 2;
    if a % 2 == 0 && b % 2 == 1 {
      XorAssoc(c, d, POLY);
    } else if a % 2 == 1 && b % 2 == 0 {
      XorAssoc(c, POLY, d);
      XorSwap(POLY, d);
      XorAssoc(c, d, POLY);
    } else if a % 2 == 1 {
      XorFour(c, POLY, d, POLY);
      XorSelf(POLY);
      XorSwap(Xor(c, d), 0);
      XorNone(Xor(c, d));
    }
  }

  lemma {:induction false} StepsXor(a: nat, b: nat, n: nat)
    ensures Steps(Xor(a, b), n) == Xor(Steps(a, n), Steps(b, n))
    decreases n
  {
    hide Xor, MulX;
    if n > 0 {
      MulXXor(a, b);
      StepsXor(MulX(a), MulX(b), n - 1);
    }
  }

  /** Zeros shifted out leave the rest as it is. */
  lemma {:induction false} StepsShift(a: nat, n: nat)
    ensures Steps(a * Pow2(n), n) == a
  {
    hide Xor;
    if n > 0 {
      TimesDouble(a, Pow2(n - 1));
      assert MulX(a * Pow2(n)) == a * Pow2(n - 1);
      StepsShift(a, n - 1);
    }
  }

  lemma MulXFits(a: nat, n: nat)
    requires a < Pow2(n + 1) && n >= 32
    ensures MulX(a) < Pow2(n)
  {
    hide Xor, Pow2;
    PowNext(n);
    if a % 2 == 1 {
      Pow32();
      Pow2Mono(32, n);
      XorFits(a / 2, POLY, n);
    }
  }

  lemma PowNext(n: nat)
    ensures Pow2(n + 1) == 2 * Pow2(n)
  {
  }

  /** A register of 32 bits stays one. */
  lemma {:induction false} StepsFit(a: nat, n: nat)
    requires a < Pow2(32)
    ensures Steps(a, n) < Pow2(32)
    decreases n
  {
    hide MulX, Pow2;
    if n > 0 {
      PowNext(32);
      MulXFits(a, 32);
      StepsFit(MulX(a), n - 1);
    }
  }

  /** A wider one shrinks to 32 bits. */
  lemma {:induction false} StepsNarrow(a: nat, n: nat)
    requires a < Pow2(n + 32)
    ensures Steps(a, n) < Pow2(32)
    decreases n
  {
    hide MulX, Pow2;
    if n > 0 {
      MulXFits(a, n + 31);
      StepsNarrow(MulX(a), n - 1);
    }
  }

  lemma MulXNonzero(a: nat)
    requires 0 < a < Pow2(32)
    ensures 0 < MulX(a) < Pow2(32)
  {
    hide Pow2, Xor;
    PowNext(32);
    MulXFits(a, 32);
    if a % 2 == 1 && Xor(a / 2, POLY) == 0 {
      XorSelf(POLY);
      XorSwap(a / 2, POLY);
      XorCancel(POLY, a / 2, POLY);
      Pow32();
      assert false;
    }
  }

  lemma {:induction false} StepsNonzero(a: nat, n: nat)
    requires 0 < a < Pow2(32)
    ensures 0 < Steps(a, n) < Pow2(32)
    decreases n
  {
    hide MulX, Pow2;
    if n > 0 {
      MulXNonzero(a);
      StepsNonzero(MulX(a), n - 1);
    }
  }

  lemma XPowFits(n: nat)
    ensures 0 < XPow(n) < Pow2(32)
  {
    hide Pow2, Steps;
    Pow32();
    StepsNonzero(ONE, n);
  }

  // ------------------------------------------------------------ products

  /** The sum of b(x) x^i over the powers i that the low n bits of a have, their top bit being x^0. */
  function Prod(a: nat, b: nat, n: nat): nat
    decreases n
  {
    if n == 0 then 0
    else Xor(if Shr(a, n - 1) % 2 == 1 then b else 0, Prod(a, MulX(b), n - 1))
  }

  lemma {:induction false} ProdFits(a: nat, b: nat, n: nat)
    requires b < Pow2(32)
    ensures Prod(a, b, n) < Pow2(32)
    decreases n
  {
    hide Xor, MulX, Pow2, Shr;
    if n > 0 {
      PowNext(32);
      MulXFits(b, 32);
      ProdFits(a, MulX(b), n - 1);
      XorFits(if Shr(a, n - 1) % 2 == 1 then b else 0, Prod(a, MulX(b), n - 1), 32);
    }
  }

  /** Distributes over the second factor. */
  lemma {:induction false} ProdXorRight(a: nat, b: nat, c: nat, n: nat)
    ensures Prod(a, Xor(b, c), n) == Xor(Prod(a, b, n), Prod(a, c, n))
    decreases n
  {
    hide Xor, MulX, Shr;
    if n == 0 {
      XorZero();
    } else {
      MulXXor(b, c);
      ProdXorRight(a, MulX(b), MulX(c), n - 1);
      if Shr(a, n - 1) % 2 == 1 {
        XorFour(b, c, Prod(a, MulX(b), n - 1), Prod(a, MulX(c), n - 1));
      } else {
        XorFour(0, 0, Prod(a, MulX(b), n - 1), Prod(a, MulX(c), n - 1));
        XorZero();
      }
    }
  }

  /** Distributes over the first. */
  lemma {:induction false} ProdXorLeft(a: nat, b: nat, c: nat, n: nat)
    ensures Prod(Xor(a, b), c, n) == Xor(Prod(a, c, n), Prod(b, c, n))
    decreases n
  {
    hide Xor, MulX, Shr;
    if n == 0 {
      XorZero();
    } else {
      ProdXorLeft(a, b, MulX(c), n - 1);
      ShrXor(a, b, n - 1);
      XorStep(Shr(a, n - 1), Shr(b, n - 1));
      var u, v := if Shr(a, n - 1) % 2 == 1 then c else 0, if Shr(b, n - 1) % 2 == 1 then c else 0;
      XorFour(u, v, Prod(a, MulX(c), n - 1), Prod(b, MulX(c), n - 1));
      XorSelf(u);
      XorSwap(u, v);
      XorNone(u);
      XorNone(v);
    }
  }

  lemma {:induction false} ShrXor(a: nat, b: nat, n: nat)
    ensures Shr(Xor(a, b), n) == Xor(Shr(a, n), Shr(b, n))
    decreases n
  {
    hide Xor;
    if n > 0 {
      XorStep(a, b);
      ShrXor(a / 2, b / 2, n - 1);
    }
  }

  /** Times x on the second factor is times x on the product. */
  lemma {:induction false} ProdMulX(a: nat, b: nat, n: nat)
    ensures Prod(a, MulX(b), n) == MulX(Prod(a, b, n))
    decreases n
  {
    hide Xor, Shr;
    if n > 0 {
      ProdMulX(a, MulX(b), n - 1);
      MulXXor(if Shr(a, n - 1) % 2 == 1 then b else 0, Prod(a, MulX(b), n - 1));
    }
  }

  lemma {:induction false} ProdSteps(a: nat, b: nat, n: nat, k: nat)
    ensures Prod(a, Steps(b, k), n) == Steps(Prod(a, b, n), k)
    decreases k
  {
    hide MulX, Prod;
    if k > 0 {
      ProdMulX(a, b, n);
      ProdSteps(a, MulX(b), n, k - 1);
    }
  }

  /** The lowest bit of a, which is its highest power, taken apart. */
  lemma {:induction false} ProdLast(a: nat, b: nat, n: nat)
    ensures Prod(a, b, n + 1) == Xor(Prod(a / 2, b, n), if a % 2 == 1 then Steps(b, n) else 0)
    decreases n
  {
    hide Xor, MulX;
    var last := if a % 2 == 1 then Steps(b, n) else 0;
    if n == 0 {
      XorSwap(0, last);
      assert Prod(a, MulX(b), 0) == 0 && Shr(a, 0) == a;
    } else {
      ProdLast(a, MulX(b), n - 1);
      assert Shr(a, n) == Shr(a / 2, n - 1);
      XorAssoc(if Shr(a, n) % 2 == 1 then b else 0, Prod(a / 2, MulX(b), n - 1), last);
    }
  }

  /** Times one. */
  lemma {:induction false} ProdOne(a: nat, n: nat)
    requires n >= 1
    ensures Prod(a, Pow2(n - 1), n) == Low(a, n)
    decreases n
  {
    hide Xor, Shr, Low, Pow2;
    LowTop(a, n);
    PowAt(n);
    if n == 1 {
      Pow2Values();
      XorNone(Shr(a, 0) % 2);
      LowNothing(a);
      assert Prod(a, MulX(1), 0) == 0;
    } else {
      ProdOne(a, n - 1);
      assert MulX(Pow2(n - 1)) == Pow2(n - 2);
      LowFits(a, n - 1);
      XorApart(Low(a, n - 1), Shr(a, n - 1) % 2, n - 1);
      XorSwap(Low(a, n - 1), Shr(a, n - 1) % 2 * Pow2(n - 1));
    }
  }

  lemma LowNothing(a: nat)
    ensures Low(a, 0) == 0 && Shr(a, 0) == a
  {
  }

  lemma PowAt(n: nat)
    requires n >= 1
    ensures Pow2(n - 1) >= 1 && (n >= 2 ==> Pow2(n - 1) == 2 * Pow2(n - 2))
  {
  }

  lemma LowTop(a: nat, n: nat)
    requires n >= 1
    ensures Low(a, n) == Shr(a, n - 1) % 2 * Pow2(n - 1) + Low(a, n - 1)
  {
    LowSplit(a, n - 1, 1);
    assert n - 1 + 1 == n;
    assert Low(Shr(a, n - 1), 1) == Shr(a, n - 1) % 2;
  }

  // ------------------------------------------------------------ x^32

  /** x^32 is p less its highest term, whatever it is multiplied with. */
  lemma {:induction false} TimesPoly(b: nat, n: nat)
    requires b < Pow2(n) && n <= 32
    ensures Steps(b, 32) == Prod(POLY, b, 32)
    decreases n
  {
    hide Xor, Steps, Prod, Pow2, Shr, Low;
    if n == 0 {
      ZeroSteps(32);
      ZeroProd(POLY, 32);
      PowZero();
    } else {
      var k := n - 1;
      Split(b, k);
      ShrTop(b, k);
      LowFits(b, k);
      TimesPoly(Low(b, k), k);
      if Shr(b, k) == 1 {
        XorApart(Low(b, k), 1, k);
        PolyBit(k);
        StepsXor(Low(b, k), Pow2(k), 32);
        ProdXorRight(POLY, Low(b, k), Pow2(k), 32);
      }
    }
  }

  lemma ShrTop(b: nat, k: nat)
    requires b < Pow2(k + 1)
    ensures Shr(b, k) <= 1
  {
    hide Pow2, Shr;
    PowNext(k);
    ShrLess(b, k, 2);
  }

  lemma {:induction false} ZeroSteps(n: nat)
    ensures Steps(0, n) == 0
    decreases n
  {
    if n > 0 { ZeroSteps(n - 1); }
  }

  lemma {:induction false} ZeroProd(a: nat, n: nat)
    ensures Prod(a, 0, n) == 0
    decreases n
  {
    hide Shr;
    if n > 0 { ZeroProd(a, n - 1); }
  }

  lemma PolyBit(k: nat)
    requires k < 32
    ensures Steps(Pow2(k), 32) == Prod(POLY, Pow2(k), 32)
  {
    hide Xor, Steps, Prod, Pow2, Shr, Low;
    Pow32();
    StepsShift(1, k);
    StepsSum(Pow2(k), k, 32 - k);
    assert k + (32 - k) == 32;
    OneStep();
    StepLast(1, 31 - k);
    Pow2Sum(k, 31 - k);
    StepsShift(Pow2(k), 31 - k);
    assert k + (31 - k) == 31;
    ProdOne(POLY, 32);
    LowIdentity(POLY, 32);
    ProdSteps(POLY, ONE, 32, 31 - k);
  }

  lemma OneStep()
    ensures MulX(1) == POLY
  {
    XorNone(POLY);
  }

  /** Times x on the first factor. */
  lemma ProdMulXLeft(a: nat, b: nat)
    requires a < Pow2(32) && b < Pow2(32)
    ensures Prod(MulX(a), b, 32) == MulX(Prod(a, b, 32))
  {
    hide Xor, Steps, Pow2, Shr, Low;
    Pow32();
    ProdMulX(a, b, 32);
    ProdLast(a, MulX(b), 31);
    HalfTop(a);
    XorNone(Prod(a / 2, MulX(b), 31));
    XorSwap(Prod(a / 2, MulX(b), 31), 0);
    assert Prod(a / 2, b, 32) == Prod(a / 2, MulX(b), 31);
    if a % 2 == 1 {
      ProdXorLeft(a / 2, POLY, b, 32);
      TimesPoly(b, 32);
      StepLast(b, 31);
    } else {
      XorSwap(Prod(a / 2, MulX(b), 31), 0);
    }
  }

  lemma HalfTop(a: nat)
    requires a < Pow2(32)
    ensures Shr(a / 2, 31) == 0
  {
    hide Pow2, Shr;
    Pow32();
    PowNext(31);
    ShrLess(a / 2, 31, 1);
  }

  /** Multiplying by x^n is multiplying by x n times. */
  lemma {:induction false} ProdXPow(n: nat, b: nat)
    requires b < Pow2(32)
    ensures Prod(XPow(n), b, 32) == Steps(b, n)
  {
    hide MulX, Prod, Pow2, Steps;
    if n == 0 {
      ProdUnit(b);
    } else {
      ProdXPow(n - 1, b);
      XPowFits(n - 1);
      ProdMulXLeft(XPow(n - 1), b);
      StepLast(ONE, n - 1);
      StepLast(b, n - 1);
    }
  }

  lemma ProdUnit(b: nat)
    ensures Prod(XPow(0), b, 32) == Steps(b, 0)
  {
    hide Xor, Pow2, Shr;
    Pow32();
    ShrOne();
    LowBitsOfOne(MulX(b), 31);
    XorSwap(b, 0);
    XorNone(b);
  }

  lemma ShrOne()
    ensures Shr(ONE, 31) == 1
  {
    hide Pow2, Shr;
    Pow32();
    SplitUnique(ONE, 31, 1, 0);
  }

  lemma {:induction false} LowBitsOfOne(b: nat, n: nat)
    requires n <= 31
    ensures Prod(ONE, b, n) == 0
    decreases n
  {
    hide Xor, MulX, Shr, Pow2;
    if n > 0 {
      LowBitsOfOne(MulX(b), n - 1);
      Pow32();
      Pow2Sum(32 - n, n - 1);
      assert 32 - n + (n - 1) == 31;
      SplitUnique(ONE, n - 1, Pow2(32 - n), 0);
      PowNext(31 - n);
      XorZero();
    }
  }

  /** Powers add up. */
  lemma XPowSum(m: nat, n: nat)
    ensures Prod(XPow(m), XPow(n), 32) == XPow(m + n)
  {
    hide Prod, Pow2, Steps;
    XPowFits(n);
    ProdXPow(m, XPow(n));
    StepsSum(ONE, n, m);
  }

  /** The bit k of 32 stands for a power of x. */
  lemma BitIsPower(k: nat)
    requires k < 32
    ensures Pow2(k) == XPow(31 - k)
  {
    hide Pow2, Steps;
    Pow32();
    Pow2Sum(k, 31 - k);
    assert k + (31 - k) == 31;
    StepsShift(Pow2(k), 31 - k);
  }

  /** The product does not depend on the order. */
  lemma {:induction false} ProdSwap(a: nat, b: nat, n: nat)
    requires a < Pow2(n) && n <= 32 && b < Pow2(32)
    ensures Prod(a, b, 32) == Prod(b, a, 32)
    decreases n
  {
    hide Xor, Steps, Prod, Pow2, Shr, Low, XPow;
    if n == 0 {
      PowZero();
      ZeroProd(b, 32);
      ZeroLeft(b, 32);
    } else {
      var k := n - 1;
      Split(a, k);
      ShrTop(a, k);
      LowFits(a, k);
      ProdSwap(Low(a, k), b, k);
      if Shr(a, k) == 1 {
        XorApart(Low(a, k), 1, k);
        BitIsPower(k);
        ProdXorLeft(Low(a, k), Pow2(k), b, 32);
        ProdXorRight(b, Low(a, k), Pow2(k), 32);
        ProdXPow(31 - k, b);
        ProdBack(b, 31 - k);
      }
    }
  }

  lemma {:induction false} ZeroLeft(b: nat, n: nat)
    ensures Prod(0, b, n) == 0
    decreases n
  {
    hide MulX, Pow2;
    if n > 0 {
      ZeroLeft(MulX(b), n - 1);
      SplitUnique(0, n - 1, 0, 0);
      XorZero();
    }
  }

  lemma ProdBack(b: nat, i: nat)
    requires b < Pow2(32)
    ensures Prod(b, XPow(i), 32) == Steps(b, i)
  {
    hide Prod, Pow2, Steps, Low;
    Pow32();
    ProdSteps(b, ONE, 32, i);
    ProdOne(b, 32);
    LowIdentity(b, 32);
  }

  /** Nor on how three factors are grouped. */
  lemma {:induction false} ProdAssoc(a: nat, b: nat, c: nat, n: nat)
    requires a < Pow2(n) && n <= 32 && b < Pow2(32) && c < Pow2(32)
    ensures Prod(Prod(a, b, 32), c, 32) == Prod(a, Prod(b, c, 32), 32)
    decreases n
  {
    hide Xor, Steps, Prod, Pow2, Shr, Low, XPow;
    if n == 0 {
      PowZero();
      ZeroLeft(b, 32);
      ZeroLeft(c, 32);
      ZeroLeft(Prod(b, c, 32), 32);
    } else {
      var k := n - 1;
      Split(a, k);
      ShrTop(a, k);
      LowFits(a, k);
      ProdAssoc(Low(a, k), b, c, k);
      if Shr(a, k) == 1 {
        XorApart(Low(a, k), 1, k);
        BitIsPower(k);
        ProdXorLeft(Low(a, k), Pow2(k), b, 32);
        ProdXorLeft(Prod(Low(a, k), b, 32), Prod(Pow2(k), b, 32), c, 32);
        ProdXorLeft(Low(a, k), Pow2(k), Prod(b, c, 32), 32);
        PowerAssoc(31 - k, b, c);
      }
    }
  }

  lemma PowerAssoc(i: nat, b: nat, c: nat)
    requires b < Pow2(32) && c < Pow2(32)
    ensures Prod(Prod(XPow(i), b, 32), c, 32) == Prod(XPow(i), Prod(b, c, 32), 32)
  {
    hide Prod, Pow2, Steps, XPow;
    ProdXPow(i, b);
    StepsFit(b, i);
    ProdFits(b, c, 32);
    ProdXPow(i, Prod(b, c, 32));
    ProdSwap(Steps(b, i), c, 32);
    ProdSteps(c, b, 32, i);
    ProdSwap(c, b, 32);
  }
}
