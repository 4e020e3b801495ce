/** CRC-32 one bit at a time (RFC 1952 section 8), and what it is as a polynomial. */
module CrcSpec {
  import opened Bits
  import opened BitStream
  import opened ExclusiveOr
  import opened PolyMod

  /** All ones: what the register is conditioned with before and after. */
  const MASK := 0xffffffff

  /** The register after one more byte, its bits coming in one after another. */
  function Next(c: nat, b: byte): nat {
    Steps(Xor(c, b), 8)
  }

  /** The register after the bytes of data. */
  function Raw(c: nat, data: seq<byte>): nat
    decreases |data|
  {
    if data == [] then c else Raw(Next(c, data[0]), data[1..])
  }

  /** The check value of data, continued from the check value crc of what came before. */
  function Crc(crc: nat, data: seq<byte>): nat {
    Xor(Raw(Xor(Low(crc, 32), MASK), data), MASK)
  }

  /** Bytes as one number, the first least significant. */
  function LittleEndian(data: seq<byte>): nat
    decreases |data|
  {
    if data == [] then 0 else data[0] + LittleEndian(data[1..]) * Pow2(8)
  }

  lemma {:induction false} LittleEndianFits(data: seq<byte>)
    ensures LittleEndian(data) < Pow2(8 * |data|)
  {
    hide Pow2;
    if data == [] {
      Pow2Values();
    } else {
      LittleEndianFits(data[1..]);
      Pow2Values();
      Pow2Sum(8, 8 * |data| - 8);
    }
  }

  /** Bytes and more bytes are two numbers that do not overlap. */
  lemma {:induction false} LittleEndianSum(a: seq<byte>, b: seq<byte>)
    ensures LittleEndian(a + b) == Xor(LittleEndian(a), LittleEndian(b) * Pow2(8 * |a|))
  {
    hide Xor, Pow2;
    LittleEndianFits(a);
    XorApart(LittleEndian(a), LittleEndian(b), 8 * |a|);
    LittleEndianPlain(a, b);
  }

  lemma {:induction false} LittleEndianPlain(a: seq<byte>, b: seq<byte>)
    ensures LittleEndian(a + b) == LittleEndian(a) + LittleEndian(b) * Pow2(8 * |a|)
  {
    hide Pow2;
    Pow2Values();
    if a == [] {
      assert a + b == b;
    } else {
      LittleEndianPlain(a[1..], b);
      assert (a + b)[1..] == a[1..] + b;
      Pow2Sum(8 * |a| - 8, 8);
      Distribute(LittleEndian(b), Pow2(8 * |a| - 8), LittleEndian(a[1..]), Pow2(8));
    }
  }

  /** The register is what is left of the register and all of the data times x^32: every
      bit goes through as many steps as it is far from the end. */
  lemma {:induction false} RawIsRemainder(c: nat, data: seq<byte>)
    ensures Raw(c, data) == Steps(Xor(c, LittleEndian(data)), 8 * |data|)
    decreases |data|
  {
    hide Xor, Pow2, Steps;
    if data == [] {
      XorNone(c);
      NoSteps(c);
    } else {
      var b, rest := data[0], data[1..];
      RawIsRemainder(Next(c, b), rest);
      LittleEndianOne(data);
      XorAssoc(c, b, LittleEndian(rest) * Pow2(8));
      StepsXor(Xor(c, b), LittleEndian(rest) * Pow2(8), 8);
      StepsShift(LittleEndian(rest), 8);
      StepsSum(Xor(c, LittleEndian(data)), 8, 8 * |rest|);
      assert 8 + 8 * |rest| == 8 * |data|;
    }
  }

  lemma NoSteps(c: nat)
    ensures Steps(c, 0) == c
  {
  }

  lemma LittleEndianOne(data: seq<byte>)
    requires data != []
    ensures LittleEndian(data) == Xor(data[0], LittleEndian(data[1..]) * Pow2(8))
  {
    hide Xor, Pow2;
    Pow2Values();
    XorApart(data[0], LittleEndian(data[1..]), 8);
  }

  lemma {:induction false} RawSum(c: nat, a: seq<byte>, b: seq<byte>)
    ensures Raw(c, a + b) == Raw(Raw(c, a), b)
    decreases |a|
  {
    hide Next;
    if a == [] {
      assert a + b == b;
    } else {
      assert (a + b)[1..] == a[1..] + b;
      RawSum(Next(c, a[0]), a[1..], b);
    }
  }

  lemma {:induction false} RawFits(c: nat, data: seq<byte>)
    requires c < Pow2(32)
    ensures Raw(c, data) < Pow2(32)
    decreases |data|
  {
    hide Pow2, Steps, Xor;
    if data != [] {
      Pow32();
      XorFits(c, data[0], 32);
      StepsFit(Xor(c, data[0]), 8);
      RawFits(Next(c, data[0]), data[1..]);
    }
  }

  /** Two registers fed the same bytes keep their difference, times x a step each. */
  lemma RawShift(c: nat, d: nat, data: seq<byte>)
    ensures Raw(Xor(c, d), data) == Xor(Steps(c, 8 * |data|), Raw(d, data))
  {
    hide Xor, Steps, Raw;
    RawIsRemainder(Xor(c, d), data);
    RawIsRemainder(d, data);
    XorAssoc(c, d, LittleEndian(data));
    StepsXor(c, Xor(d, LittleEndian(data)), 8 * |data|);
  }

  /** Continuing from a check value is checking all of it at once. */
  lemma CrcContinues(crc: nat, a: seq<byte>, b: seq<byte>)
    ensures Crc(Crc(crc, a), b) == Crc(crc, a + b)
  {
    hide Xor, Raw, Pow2, Low;
    var c := Xor(Low(crc, 32), MASK);
    RawSum(c, a, b);
    ConditionFits(crc);
    RawFits(c, a);
    Unconditioned(Raw(c, a));
  }

  lemma ConditionFits(crc: nat)
    ensures Xor(Low(crc, 32), MASK) < Pow2(32)
  {
    hide Xor, Pow2, Low;
    Pow32();
    LowFits(crc, 32);
    XorFits(Low(crc, 32), MASK, 32);
  }

  lemma Unconditioned(c: nat)
    requires c < Pow2(32)
    ensures Xor(c, MASK) < Pow2(32) && Low(Xor(c, MASK), 32) == Xor(c, MASK)
    ensures Xor(Xor(c, MASK), MASK) == c
  {
    hide Xor, Pow2, Low;
    Pow32();
    XorFits(c, MASK, 32);
    LowIdentity(Xor(c, MASK), 32);
    XorAssoc(c, MASK, MASK);
    XorSelf(MASK);
    XorNone(c);
  }

  lemma CrcFits(crc: nat, data: seq<byte>)
    ensures Crc(crc, data) < Pow2(32)
  {
    hide Xor, Raw, Pow2, Low;
    ConditionFits(crc);
    RawFits(Xor(Low(crc, 32), MASK), data);
    Unconditioned(Raw(Xor(Low(crc, 32), MASK), data));
  }

  /** The check value of a whole from those of its parts. */
  lemma CrcOfSum(a: seq<byte>, b: seq<byte>)
    ensures Crc(0, a + b) == Xor(Prod(XPow(8 * |b|), Crc(0, a), 32), Crc(0, b))
  {
    hide Xor, Raw, Pow2, Low, Prod, Steps, XPow;
    var u, v := Crc(0, a), Crc(0, b);
    CrcContinues(0, a, b);
    CrcFits(0, a);
    LowIdentity(u, 32);
    Pow32();
    LowIdentity(0, 32);
    XorSwap(0, MASK);
    XorNone(MASK);
    RawShift(u, MASK, b);
    XorAssoc(Steps(u, 8 * |b|), Raw(MASK, b), MASK);
    ProdXPow(8 * |b|, u);
  }
}
