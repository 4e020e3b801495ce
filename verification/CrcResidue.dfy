/** What a check value leaves when it follows its own data: the same number for all data,
which fixes how the register is conditioned before and after. */
module CrcResidue {
  import opened Bits
  import opened BitStream
  import opened ExclusiveOr
  import opened PolyMod
  import opened PolyOrder
  import opened CrcSpec

  /** A 32-bit number as four bytes, the least significant first. */
  function FourBytes(v: nat): (r: seq<byte>)
    ensures |r| == 4
  {
    [v % 256, v / 256 % 256, v / 65536 % 256, v / 16777216 % 256]
  }

  lemma FourBytesBack(v: nat)
    requires v < Pow2(32)
    ensures LittleEndian(FourBytes(v)) == v
  {
    hide Pow2, LittleEndian;
    Pow32();
    LittleEndianFour(FourBytes(v), v % 256, v / 256 % 256, v / 65536 % 256, v / 16777216 % 256);
    Digits(v);
  }

  lemma LittleEndianFour(d: seq<byte>, a0: nat, a1: nat, a2: nat, a3: nat)
    requires |d| == 4 && d[0] == a0 && d[1] == a1 && d[2] == a2 && d[3] == a3
    ensures LittleEndian(d) == a0 + 256 * (a1 + 256 * (a2 + 256 * a3))
  {
    hide Pow2;
    Pow32();
    assert d[1..][1..][1..][1..] == [];
    assert LittleEndian(d[1..][1..][1..]) == a3;
    assert LittleEndian(d[1..][1..]) == a2 + 256 * a3;
    assert LittleEndian(d[1..]) == a1 + 256 * (a2 + 256 * a3);
  }

  lemma Digits(v: nat)
    requires v < 0x1_0000_0000
    ensures v == v % 256 + 256 * (v / 256 % 256 + 256 * (v / 65536 % 256 + 256 * (v / 16777216 % 256)))
  {
    var a, b, c := v / 256, v / 65536, v / 16777216;
    assert b == a / 256 && c == b / 256 && c < 256;
  }

  function Four(b: bv32): bv32 {
    TimesX(TimesX(TimesX(TimesX(b))))
  }

  lemma NatFour(b: bv32)
    ensures ToNat(Four(b)) == Steps(ToNat(b), 4)
  {
    hide MulX, TimesX, ToNat;
    NatTimesX(b);
    NatTimesX(TimesX(b));
    NatTimesX(TimesX(TimesX(b)));
    NatTimesX(TimesX(TimesX(TimesX(b))));
    FourSteps(ToNat(b));
  }

  lemma FourSteps(a: nat)
    ensures Steps(a, 4) == MulX(MulX(MulX(MulX(a))))
  {
    hide MulX;
    assert Steps(a, 4) == Steps(MulX(a), 3) == Steps(MulX(MulX(a)), 2) == Steps(MulX(MulX(MulX(a))), 1);
    assert Steps(MulX(MulX(MulX(a))), 1) == Steps(MulX(MulX(MulX(MulX(a)))), 0);
  }

  /** The register of all ones, four steps at a time. */
  const ONES: seq<bv32> := [0xffffffff, 0xb2420de3, 0x2dfd1072, 0x39b1f1cf, 0xbe26ed00, 0x0be26ed0, 0x00be26ed,
    0x86d830ba, 0xdebb20e3]

  lemma OnesGoOn(k: nat)
    requires k < 8
    ensures |ONES| == 9 && Four(ONES[k]) == ONES[k + 1]
  {
    assert Four(0xffffffff) == 0xb2420de3 && Four(0xb2420de3) == 0x2dfd1072;
    assert Four(0x2dfd1072) == 0x39b1f1cf && Four(0x39b1f1cf) == 0xbe26ed00;
    assert Four(0xbe26ed00) == 0x0be26ed0 && Four(0x0be26ed0) == 0x00be26ed;
    assert Four(0x00be26ed) == 0x86d830ba && Four(0x86d830ba) == 0xdebb20e3;
  }

  lemma {:induction false} OnesSteps(k: nat)
    requires k <= 8
    ensures |ONES| == 9 && Steps(ToNat(ONES[0]), 4 * k) == ToNat(ONES[k])
  {
    hide ONES, Steps, ToNat, Four;
    OnesLength();
    if k == 0 {
      NoSteps(ToNat(ONES[0]));
    } else {
      OnesSteps(k - 1);
      OnesGoOn(k - 1);
      NatFour(ONES[k - 1]);
      StepsSum(ToNat(ONES[0]), 4 * (k - 1), 4);
      assert 4 * (k - 1) + 4 == 4 * k;
    }
  }

  lemma OnesLength()
    ensures |ONES| == 9
  {
  }

  lemma NatOnes()
    ensures ToNat(0xffffffff) == MASK
  {
    assert ToNat(0x3) == 0x3;
    assert ToNat(0xf) == 0xf;
    assert ToNat(0x3f) == 0x3f;
    assert ToNat(0xff) == 0xff;
    assert ToNat(0x3ff) == 0x3ff;
    assert ToNat(0xfff) == 0xfff;
    assert ToNat(0x3fff) == 0x3fff;
    assert ToNat(0xffff) == 0xffff;
    assert ToNat(0x3ffff) == 0x3ffff;
    assert ToNat(0xfffff) == 0xfffff;
    assert ToNat(0x3fffff) == 0x3fffff;
    assert ToNat(0xffffff) == 0xffffff;
    assert ToNat(0x3ffffff) == 0x3ffffff;
    assert ToNat(0xfffffff) == 0xfffffff;
    assert ToNat(0x3fffffff) == 0x3fffffff;
  }

  lemma NatResidue()
    ensures ToNat(0x2144df1c) == 0x2144df1c
  {
    assert ToNat(0x2) == 0x2;
    assert ToNat(0x8) == 0x8;
    assert ToNat(0x21) == 0x21;
    assert ToNat(0x85) == 0x85;
    assert ToNat(0x214) == 0x214;
    assert ToNat(0x851) == 0x851;
    assert ToNat(0x2144) == 0x2144;
    assert ToNat(0x8513) == 0x8513;
    assert ToNat(0x2144d) == 0x2144d;
    assert ToNat(0x85137) == 0x85137;
    assert ToNat(0x2144df) == 0x2144df;
    assert ToNat(0x85137c) == 0x85137c;
    assert ToNat(0x2144df1) == 0x2144df1;
    assert ToNat(0x85137c7) == 0x85137c7;
  }

  lemma LastTurn()
    ensures (0xdebb20e3 as bv32) ^ 0xffffffff == 0x2144df1c
  {
  }

  lemma OnesLeave()
    ensures Xor(Steps(MASK, 32), MASK) == 0x2144df1c
  {
    hide Xor, Steps, ToNat;
    OnesEnds();
    OnesSteps(8);
    NatOnes();
    NatXor(0xdebb20e3, 0xffffffff);
    LastTurn();
    NatResidue();
  }

  lemma OnesEnds()
    ensures |ONES| == 9 && ONES[0] == 0xffffffff && ONES[8] == 0xdebb20e3
  {
  }

  /** The check value of data followed by its own check value, the least significant byte
      first, is the same for all data. */
  lemma Residue(crc: nat, data: seq<byte>)
    ensures Crc(crc, data + FourBytes(Crc(crc, data))) == 0x2144df1c
  {
    hide Xor, Raw, Pow2, Low, Steps, LittleEndian, FourBytes;
    var c := Raw(Xor(Low(crc, 32), MASK), data);
    var v := FourBytes(Crc(crc, data));
    ConditionFits(crc);
    RawFits(Xor(Low(crc, 32), MASK), data);
    CrcFits(crc, data);
    FourBytesBack(Crc(crc, data));
    RawSum(Xor(Low(crc, 32), MASK), data, v);
    RawIsRemainder(c, v);
    XorAssoc(c, c, MASK);
    XorSelf(c);
    XorSwap(0, MASK);
    XorNone(MASK);
    OnesLeave();
  }

  /** The check value of no data at all, from the start. */
  lemma NothingChecked()
    ensures Crc(0, []) == 0
  {
    hide Xor, Pow2, Low;
    Pow32();
    LowIdentity(0, 32);
    XorSwap(0, MASK);
    XorNone(MASK);
    XorSelf(MASK);
  }
}
