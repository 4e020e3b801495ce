/** Exclusive or of numbers: addition of polynomials over the field of two elements. */
module ExclusiveOr {
  import opened Bits

  /** Bit by bit exclusive or. */
  function Xor(a: nat, b: nat): nat
    decreases a + b
  {
    if a == 0 then b else if b == 0 then a
    else (if a % 2 != b % 2 then 1 else 0) + 2 * Xor(a / 2, b / 2)
  }

  lemma XorStep(a: nat, b: nat)
    ensures Xor(a, b) % 2 == (if a % 2 != b % 2 then 1 else 0)
    ensures Xor(a, b) / 2 == Xor(a / 2, b / 2)
  {
    if a == 0 {
      assert a / 2 == 0;
    } else if b == 0 {
      assert b / 2 == 0;
      XorNone(a / 2);
    } else {
      Append(if a % 2 != b % 2 then 1 else 0, Xor(a / 2, b / 2));
    }
  }

  lemma XorNone(a: nat)
    ensures Xor(a, 0) == a
  {
  }

  lemma Append(bit: nat, x: nat)
    requires bit < 2
    ensures (bit + 2 * x) % 2 == bit && (bit + 2 * x) / 2 == x
  {
  }

  /** Exclusive or works on each bit for itself. */
  lemma {:induction false} LowXor(a: nat, b: nat, n: nat)
    ensures Low(Xor(a, b), n) == Xor(Low(a, n), Low(b, n))
  {
    hide Xor, Low;
    LowHalves(Xor(a, b), n);
    LowHalves(a, n);
    LowHalves(b, n);
    if n > 0 {
      XorStep(a, b);
      LowXor(a / 2, b / 2, n - 1);
      XorStep(Low(a, n), Low(b, n));
      Halve(Low(Xor(a, b), n));
      Halve(Xor(Low(a, n), Low(b, n)));
    } else {
      XorZero();
    }
  }

  lemma XorZero()
    ensures Xor(0, 0) == 0
  {
  }

  lemma LowHalves(x: nat, n: nat)
    ensures if n == 0 then Low(x, n) == 0 else Low(x, n) % 2 == x % 2 && Low(x, n) / 2 == Low(x / 2, n - 1)
  {
  }

  lemma Halve(x: nat)
    ensures x == x % 2 + 2 * (x / 2)
  {
  }

  /** Equal results of equal first operands mean equal second operands. */
  lemma {:induction false} XorCancel(u: nat, c: nat, d: nat)
    requires Xor(u, c) == Xor(u, d)
    ensures c == d
    decreases u + c + d
  {
    XorStep(u, c);
    XorStep(u, d);
    if u + c + d > 0 {
      XorCancel(u / 2, c / 2, d / 2);
      Halve(c);
      Halve(d);
    }
  }

  lemma Equal(x: nat, y: nat)
    requires x % 2 == y % 2 && x / 2 == y / 2
    ensures x == y
  {
  }

  lemma {:induction false} XorSwap(a: nat, b: nat)
    ensures Xor(a, b) == Xor(b, a)
    decreases a + b
  {
    hide Xor;
    XorStep(a, b);
    XorStep(b, a);
    if a + b > 0 {
      XorSwap(a / 2, b / 2);
      Equal(Xor(a, b), Xor(b, a));
    }
  }

  lemma {:induction false} XorAssoc(a: nat, b: nat, c: nat)
    ensures Xor(Xor(a, b), c) == Xor(a, Xor(b, c))
    decreases a + b + c
  {
    hide Xor;
    XorStep(a, b);
    XorStep(b, c);
    XorStep(Xor(a, b), c);
    XorStep(a, Xor(b, c));
    if a + b + c > 0 {
      XorAssoc(a / 2, b / 2, c / 2);
      Equal(Xor(Xor(a, b), c), Xor(a, Xor(b, c)));
    } else {
      XorZero();
    }
  }

  lemma {:induction false} XorSelf(a: nat)
    ensures Xor(a, a) == 0
  {
    hide Xor;
    XorStep(a, a);
    if a > 0 { XorSelf(a / 2); } else { XorZero(); }
  }

  /** Sums of four in another order. */
  lemma XorFour(a: nat, b: nat, c: nat, d: nat)
    ensures Xor(Xor(a, b), Xor(c, d)) == Xor(Xor(a, c), Xor(b, d))
  {
    hide Xor;
    XorAssoc(a, b, Xor(c, d));
    XorAssoc(b, c, d);
    XorSwap(b, c);
    XorAssoc(c, b, d);
    XorAssoc(a, c, Xor(b, d));
  }

  /** No bit beyond those of both. */
  lemma {:induction false} XorFits(a: nat, b: nat, n: nat)
    requires a < Pow2(n) && b < Pow2(n)
    ensures Xor(a, b) < Pow2(n)
  {
    hide Xor;
    if n == 0 {
      XorZero();
    } else {
      XorStep(a, b);
      XorFits(a / 2, b / 2, n - 1);
    }
  }

  /** Shifting both. */
  lemma {:induction false} XorTimes(a: nat, b: nat, n: nat)
    ensures Xor(a * Pow2(n), b * Pow2(n)) == Xor(a, b) * Pow2(n)
  {
    hide Xor;
    if n > 0 {
      var p := Pow2(n - 1);
      XorTimes(a, b, n - 1);
      TimesDouble(a, p);
      TimesDouble(b, p);
      TimesDouble(Xor(a, b), p);
      XorStep(a * (2 * p), b * (2 * p));
      Equal(Xor(a * (2 * p), b * (2 * p)), 2 * (Xor(a, b) * p));
    }
  }

  /** Parts that do not overlap. */
  lemma {:induction false} XorApart(a: nat, b: nat, n: nat)
    requires a < Pow2(n)
    ensures Xor(a, b * Pow2(n)) == a + b * Pow2(n)
  {
    hide Xor;
    if n == 0 {
      XorSwap(0, b);
      XorNone(b);
    } else {
      var p := Pow2(n - 1);
      TimesDouble(b, p);
      XorApart(a / 2, b, n - 1);
      XorStep(a, b * (2 * p));
      Equal(Xor(a, b * (2 * p)), a + 2 * (b * p));
    }
  }
}
