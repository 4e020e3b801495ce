/** crc32.c: x to the power 2^32 is x, so the table of powers may be used modulo 32. */
module PolyOrder {
  import opened Bits
  import opened ExclusiveOr
  import opened PolyMod

  /** The number that a machine word stands for. */
  function ToNat(b: bv32): (n: nat)
    ensures b != 0 ==> n > 0
    decreases b
  {
    if b == 0 then 0
    else
      HalfNonzero(b);
      (if b & 1 == 1 then 1 else 0) + 2 * ToNat(b >> 1)
  }

  lemma HalfNonzero(b: bv32)
    ensures b == 0 || b & 1 == 1 || b >> 1 != 0
    ensures b != 0 ==> b >> 1 < b
  {
  }

  lemma NatHalf(b: bv32)
    ensures ToNat(b) % 2 == (if b & 1 == 1 then 1 else 0) && ToNat(b) / 2 == ToNat(b >> 1)
  {
    if b == 0 { ZeroHalf(); }
  }

  lemma ZeroHalf()
    ensures (0 as bv32) >> 1 == 0 && (0 as bv32) & 1 == 0
  {
  }

  /** Shifts and low bits of a sum. */
  lemma HalfOfSum(a: bv32, b: bv32)
    ensures (a ^ b) >> 1 == (a >> 1) ^ (b >> 1)
    ensures (a ^ b) & 1 == 1 <==> ((a & 1 == 1) != (b & 1 == 1))
  {
  }

  lemma {:induction false} NatXor(a: bv32, b: bv32)
    ensures ToNat(a ^ b) == Xor(ToNat(a), ToNat(b))
    decreases ToNat(a) + ToNat(b)
  {
    hide Xor, ToNat;
    if a == 0 && b == 0 {
      NatZero();
      XorZero();
      ZeroSum();
    } else {
      NatHalf(a);
      NatHalf(b);
      NatHalf(a ^ b);
      HalfOfSum(a, b);
      XorStep(ToNat(a), ToNat(b));
      NatXor(a >> 1, b >> 1);
      Equal(ToNat(a ^ b), Xor(ToNat(a), ToNat(b)));
    }
  }

  lemma ZeroSum()
    ensures (0 as bv32) ^ 0 == 0
  {
  }

  lemma NatZero()
    ensures ToNat(0) == 0
  {
  }

  lemma NatPoly()
    ensures ToNat(0xedb88320) == POLY
  {
    assert ToNat(0x3) == 3;
    assert ToNat(0xe) == 0xe;
    assert ToNat(0x3b) == 0x3b;
    assert ToNat(0xed) == 0xed;
    assert ToNat(0x3b6) == 0x3b6;
    assert ToNat(0xedb) == 0xedb;
    assert ToNat(0x3b6e) == 0x3b6e;
    assert ToNat(0xedb8) == 0xedb8;
    assert ToNat(0x3b6e2) == 0x3b6e2;
    assert ToNat(0xedb88) == 0xedb88;
    assert ToNat(0x3b6e20) == 0x3b6e20;
    assert ToNat(0xedb883) == 0xedb883;
    assert ToNat(0x3b6e20c) == 0x3b6e20c;
    assert ToNat(0xedb8832) == 0xedb8832;
    assert ToNat(0x3b6e20c8) == 0x3b6e20c8;
  }

  function TimesX(b: bv32): bv32 {
    if b & 1 == 1 then (b >> 1) ^ 0xedb88320 else b >> 1
  }

  lemma NatTimesX(b: bv32)
    ensures ToNat(TimesX(b)) == MulX(ToNat(b))
  {
    hide Xor, ToNat;
    NatHalf(b);
    if b & 1 == 1 {
      NatXor(b >> 1, 0xedb88320);
      NatPoly();
    }
  }

  function Half(a: bv32): bv32 {
    a >> 1
  }

  predicate Odd(a: bv32) {
    a & 1 == 1
  }

  /** One more coefficient of a, from the highest power down. */
  function Horner(a: bv32, b: bv32, r: bv32): bv32 {
    if Odd(a) then TimesX(r) ^ b else TimesX(r)
  }

  function Nibble(a: bv32): bv32 {
    Half(Half(Half(Half(a))))
  }

  function Horner4(a: bv32, b: bv32, r: bv32): bv32 {
    var r1 := Horner(a, b, r);
    var r2 := Horner(Half(a), b, r1);
    var r3 := Horner(Half(Half(a)), b, r2);
    Horner(Half(Half(Half(a))), b, r3)
  }

  function Horner8(a: bv32, b: bv32, r: bv32): bv32 {
    Horner4(Nibble(a), b, Horner4(a, b, r))
  }

  function Byte(a: bv32): bv32 {
    Nibble(Nibble(a))
  }

  function Times(a: bv32, b: bv32): bv32 {
    var r1 := Horner8(a, b, 0);
    var r2 := Horner8(Byte(a), b, r1);
    var r3 := Horner8(Byte(Byte(a)), b, r2);
    Horner8(Byte(Byte(Byte(a))), b, r3)
  }

  /** x to the powers 1, 2, 4, 8 and so on up to 2^32, which is where it comes round. */
  const CHAIN: seq<bv32> := [
    0x40000000, 0x20000000, 0x08000000, 0x00800000, 0x00008000, 0xedb88320, 0xb1e6b092, 0xa06a2517,
    0xed627dae, 0x88d14467, 0xd7bbfe6a, 0xec447f11, 0x8e7ea170, 0x6427800e, 0x4d47bae0, 0x09fe548f,
    0x83852d0f, 0x30362f1a, 0x7b5a9cc3, 0x31fec169, 0x9fec022a, 0x6c8dedc4, 0x15d6874d, 0x5fde7a4e,
    0xbad90e37, 0x2e4e5eef, 0x4eaba214, 0xa8a472c0, 0x429a969e, 0x148d302a, 0xc40ba6d0, 0xc4e22c3c,
    0x40000000]

  lemma Squares0()
    ensures Times(0x40000000, 0x40000000) == 0x20000000
    ensures Times(0x20000000, 0x20000000) == 0x08000000
    ensures Times(0x08000000, 0x08000000) == 0x00800000
    ensures Times(0x00800000, 0x00800000) == 0x00008000
  {
    assert Horner4(0x40000000, 0x40000000, 0) == 0x00000000;
    assert Horner4(0x20000000, 0x20000000, 0) == 0x00000000;
    assert Horner4(0x08000000, 0x08000000, 0) == 0x00000000;
    assert Horner4(0x00800000, 0x00800000, 0) == 0x00000000;
  }

  lemma Squares1()
    ensures Times(0x00008000, 0x00008000) == 0xedb88320
    ensures Times(0xedb88320, 0xedb88320) == 0xb1e6b092
    ensures Times(0xb1e6b092, 0xb1e6b092) == 0xa06a2517
    ensures Times(0xa06a2517, 0xa06a2517) == 0xed627dae
  {
    assert Horner4(0x00008000, 0x00008000, 0) == 0x00000000;
    assert Horner4(0xedb88320, 0xedb88320, 0) == 0x00000000;
    assert Horner4(0xb1e6b092, 0xb1e6b092, 0) == 0xc1c12f04;
    assert Horner4(0xa06a2517, 0xa06a2517, 0) == 0xbaf47c84;
  }

  lemma Squares2()
    ensures Times(0xed627dae, 0xed627dae) == 0x88d14467
    ensures Times(0x88d14467, 0x88d14467) == 0xd7bbfe6a
    ensures Times(0xd7bbfe6a, 0xd7bbfe6a) == 0xec447f11
    ensures Times(0xec447f11, 0xec447f11) == 0x8e7ea170
  {
    assert Horner4(0xed627dae, 0xed627dae, 0) == 0x4d335f32;
    assert Horner4(0x88d14467, 0x88d14467, 0) == 0xa190784e;
    assert Horner4(0xd7bbfe6a, 0xd7bbfe6a, 0) == 0x0fed82d0;
    assert Horner4(0xec447f11, 0xec447f11, 0) == 0x26e6af2a;
  }

  lemma Squares3()
    ensures Times(0x8e7ea170, 0x8e7ea170) == 0x6427800e
    ensures Times(0x6427800e, 0x6427800e) == 0x4d47bae0
    ensures Times(0x4d47bae0, 0x4d47bae0) == 0x09fe548f
    ensures Times(0x09fe548f, 0x09fe548f) == 0x83852d0f
  {
    assert Horner4(0x8e7ea170, 0x8e7ea170, 0) == 0x00000000;
    assert Horner4(0x6427800e, 0x6427800e, 0) == 0xa285232a;
    assert Horner4(0x4d47bae0, 0x4d47bae0, 0) == 0x00000000;
    assert Horner4(0x09fe548f, 0x09fe548f, 0) == 0xd8978292;
  }

  lemma Squares4()
    ensures Times(0x83852d0f, 0x83852d0f) == 0x30362f1a
    ensures Times(0x30362f1a, 0x30362f1a) == 0x7b5a9cc3
    ensures Times(0x7b5a9cc3, 0x7b5a9cc3) == 0x31fec169
    ensures Times(0x31fec169, 0x31fec169) == 0x9fec022a
  {
    assert Horner4(0x83852d0f, 0x83852d0f, 0) == 0x2400f682;
    assert Horner4(0x30362f1a, 0x30362f1a, 0) == 0xd18327fc;
    assert Horner4(0x7b5a9cc3, 0x7b5a9cc3, 0) == 0xc76b5740;
    assert Horner4(0x31fec169, 0x31fec169, 0) == 0x0caf398c;
  }

  lemma Squares5()
    ensures Times(0x9fec022a, 0x9fec022a) == 0x6c8dedc4
    ensures Times(0x6c8dedc4, 0x6c8dedc4) == 0x15d6874d
    ensures Times(0x15d6874d, 0x15d6874d) == 0x5fde7a4e
    ensures Times(0x5fde7a4e, 0x5fde7a4e) == 0xbad90e37
  {
    assert Horner4(0x9fec022a, 0x9fec022a, 0) == 0x55af8180;
    assert Horner4(0x6c8dedc4, 0x6c8dedc4, 0) == 0x3646f6e2;
    assert Horner4(0x15d6874d, 0x15d6874d, 0) == 0x26e934ca;
    assert Horner4(0x5fde7a4e, 0x5fde7a4e, 0) == 0x8a7e5ada;
  }

  lemma Squares6()
    ensures Times(0xbad90e37, 0xbad90e37) == 0x2e4e5eef
    ensures Times(0x2e4e5eef, 0x2e4e5eef) == 0x4eaba214
    ensures Times(0x4eaba214, 0x4eaba214) == 0xa8a472c0
    ensures Times(0xa8a472c0, 0xa8a472c0) == 0x429a969e
  {
    assert Horner4(0xbad90e37, 0xbad90e37, 0) == 0xb25746b8;
    assert Horner4(0x2e4e5eef, 0x2e4e5eef, 0) == 0xe1e58e16;
    assert Horner4(0x4eaba214, 0x4eaba214, 0) == 0x2755d10a;
    assert Horner4(0xa8a472c0, 0xa8a472c0, 0) == 0x00000000;
  }

  lemma Squares7()
    ensures Times(0x429a969e, 0x429a969e) == 0x148d302a
    ensures Times(0x148d302a, 0x148d302a) == 0xc40ba6d0
    ensures Times(0xc40ba6d0, 0xc40ba6d0) == 0xc4e22c3c
    ensures Times(0xc4e22c3c, 0xc4e22c3c) == 0x40000000
  {
    assert Horner4(0x429a969e, 0x429a969e, 0) == 0x9ec9fb56;
    assert Horner4(0x148d302a, 0x148d302a, 0) == 0xfc16ff00;
    assert Horner4(0xc40ba6d0, 0xc40ba6d0, 0) == 0x00000000;
    assert Horner4(0xc4e22c3c, 0xc4e22c3c, 0) == 0xa6933a22;
  }

  function Chain(k: nat): bv32
    requires k <= 32
  {
    CHAIN[k]
  }

  lemma Square(k: nat)
    requires k < 32
    ensures Times(Chain(k), Chain(k)) == Chain(k + 1)
  {
    hide Times;
    if k < 16 { SquareLow(k); } else { SquareHigh(k); }
  }

  lemma SquareLow(k: nat)
    requires k < 16
    ensures Times(Chain(k), Chain(k)) == Chain(k + 1)
  {
    hide Times;
    Squares0();
    Squares1();
    Squares2();
    Squares3();
  }

  lemma SquareHigh(k: nat)
    requires 16 <= k < 32
    ensures Times(Chain(k), Chain(k)) == Chain(k + 1)
  {
    hide Times;
    Squares4();
    Squares5();
    Squares6();
    Squares7();
  }

  // ------------------------------------------------------------ words and numbers

  /** One more coefficient, on numbers. */
  lemma HornerStep(a: nat, b: nat, r: nat, a': nat, r': nat, n: nat)
    requires a' == a / 2 && r' == Xor(MulX(r), if a % 2 == 1 then b else 0)
    ensures Xor(Steps(r, n + 1), Prod(a, b, n + 1)) == Xor(Steps(r', n), Prod(a', b, n))
  {
    hide Xor, MulX, Steps, Prod;
    ProdLast(a, b, n);
    ZeroSteps(n);
    StepLast(r, n);
    var c := if a % 2 == 1 then b else 0;
    StepsXor(MulX(r), c, n);
    XorAssoc(Steps(r, n + 1), Steps(c, n), Prod(a', b, n));
    XorSwap(Steps(c, n), Prod(a', b, n));
  }

  lemma NatLow(a: bv32)
    ensures Odd(a) <==> ToNat(a) % 2 == 1
    ensures ToNat(Half(a)) == ToNat(a) / 2
  {
    hide ToNat;
    NatHalf(a);
  }

  lemma NatHorner(a: bv32, b: bv32, r: bv32)
    ensures ToNat(Horner(a, b, r)) == Xor(MulX(ToNat(r)), if ToNat(a) % 2 == 1 then ToNat(b) else 0)
  {
    hide Xor, ToNat, MulX, TimesX, Odd;
    NatLow(a);
    NatTimesX(r);
    if Odd(a) {
      NatXor(TimesX(r), b);
    } else {
      XorNone(MulX(ToNat(r)));
    }
  }

  /** What is left of the sum when the coefficients are those of a, and r has been gathered. */
  function Rest(a: bv32, b: bv32, r: bv32, n: nat): nat {
    Xor(Steps(ToNat(r), n), Prod(ToNat(a), ToNat(b), n))
  }

  lemma RestStep(a: bv32, b: bv32, r: bv32, n: nat)
    ensures Rest(a, b, r, n + 1) == Rest(Half(a), b, Horner(a, b, r), n)
  {
    hide Xor, ToNat, MulX, Steps, Prod, Horner, Half;
    NatHorner(a, b, r);
    NatLow(a);
    HornerStep(ToNat(a), ToNat(b), ToNat(r), ToNat(Half(a)), ToNat(Horner(a, b, r)), n);
  }

  lemma RestSteps(a: bv32, b: bv32, r: bv32, n: nat)
    ensures Rest(a, b, r, n + 4) == Rest(Nibble(a), b, Horner4(a, b, r), n)
  {
    hide Rest, Horner, Half;
    var a1, r1 := Half(a), Horner(a, b, r);
    var a2, r2 := Half(a1), Horner(a1, b, r1);
    var a3, r3 := Half(a2), Horner(a2, b, r2);
    RestStep(a, b, r, n + 3);
    RestStep(a1, b, r1, n + 2);
    RestStep(a2, b, r2, n + 1);
    RestStep(a3, b, r3, n);
  }

  lemma RestByte(a: bv32, b: bv32, r: bv32, n: nat)
    ensures Rest(a, b, r, n + 8) == Rest(Byte(a), b, Horner8(a, b, r), n)
  {
    hide Rest, Horner4, Nibble;
    RestSteps(a, b, r, n + 4);
    RestSteps(Nibble(a), b, Horner4(a, b, r), n);
  }

  /** The product of the words is the product of the numbers. */
  lemma NatTimes(a: bv32, b: bv32)
    ensures ToNat(Times(a, b)) == Prod(ToNat(a), ToNat(b), 32)
  {
    hide Rest, Horner8, Byte, ToNat, Prod;
    var a1, r1 := Byte(a), Horner8(a, b, 0);
    var a2, r2 := Byte(a1), Horner8(a1, b, r1);
    var a3, r3 := Byte(a2), Horner8(a2, b, r2);
    RestByte(a, b, 0, 24);
    RestByte(a1, b, r1, 16);
    RestByte(a2, b, r2, 8);
    RestByte(a3, b, r3, 0);
    RestEnds(Byte(a3), b, Times(a, b));
    RestStarts(a, b);
  }

  lemma RestStarts(a: bv32, b: bv32)
    ensures Rest(a, b, 0, 32) == Prod(ToNat(a), ToNat(b), 32)
  {
    hide Xor, ToNat, Steps, Prod;
    NatZero();
    ZeroSteps(32);
    XorSwap(0, Prod(ToNat(a), ToNat(b), 32));
    XorNone(Prod(ToNat(a), ToNat(b), 32));
  }

  lemma RestEnds(a: bv32, b: bv32, r: bv32)
    ensures Rest(a, b, r, 0) == ToNat(r)
  {
    hide Xor, ToNat;
    NothingLeft(ToNat(a), ToNat(b), ToNat(r));
  }

  lemma NothingLeft(a: nat, b: nat, r: nat)
    ensures Xor(Steps(r, 0), Prod(a, b, 0)) == r
  {
    XorNone(r);
  }

  // ------------------------------------------------------------ the order of x

  lemma NatX()
    ensures ToNat(0x40000000) == XPow(1) == 0x40000000
  {
    assert ToNat(0x1) == 0x1 && ToNat(0x4) == 0x4;
    assert ToNat(0x10) == 0x10;
    assert ToNat(0x40) == 0x40;
    assert ToNat(0x100) == 0x100;
    assert ToNat(0x400) == 0x400;
    assert ToNat(0x1000) == 0x1000;
    assert ToNat(0x4000) == 0x4000;
    assert ToNat(0x10000) == 0x10000;
    assert ToNat(0x40000) == 0x40000;
    assert ToNat(0x100000) == 0x100000;
    assert ToNat(0x400000) == 0x400000;
    assert ToNat(0x1000000) == 0x1000000;
    assert ToNat(0x4000000) == 0x4000000;
    assert ToNat(0x10000000) == 0x10000000;
    assert MulX(ONE) == 0x40000000;
    assert Steps(MulX(ONE), 0) == MulX(ONE);
  }

  lemma ChainEnds()
    ensures Chain(0) == Chain(32) == 0x40000000
  {
  }

  lemma {:induction false} ChainPower(n: nat)
    requires n <= 32
    ensures ToNat(Chain(n)) == XPow(Pow2(n))
    decreases n
  {
    hide ToNat, Times, XPow, Prod, Chain;
    if n == 0 {
      NatX();
      ChainEnds();
    } else {
      ChainPower(n - 1);
      Square(n - 1);
      NatTimes(Chain(n - 1), Chain(n - 1));
      XPowSum(Pow2(n - 1), Pow2(n - 1));
    }
  }

  /** The powers repeat: squaring 32 times changes nothing. */
  lemma {:induction false} PowerWraps(k: nat)
    ensures XPow(Pow2(k + 32)) == XPow(Pow2(k))
    decreases k
  {
    hide XPow, Prod, ToNat, Chain;
    if k == 0 {
      ChainEnds();
      ChainPower(0);
      ChainPower(32);
    } else {
      PowerWraps(k - 1);
      XPowSum(Pow2(k - 1 + 32), Pow2(k - 1 + 32));
      XPowSum(Pow2(k - 1), Pow2(k - 1));
    }
  }

  lemma {:induction false} PowerModulo(k: nat)
    ensures XPow(Pow2(k)) == XPow(Pow2(k % 32))
    decreases k
  {
    hide XPow, Pow2;
    if k >= 32 {
      PowerWraps(k - 32);
      PowerModulo(k - 32);
    }
  }
}
