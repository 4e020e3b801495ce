/** deflate.c: the rolling hash of three-byte strings. */
module RollingHash {
  import opened Bits
  import opened BitStream
  import opened ExclusiveOr

  /** hash_bits and hash_shift. */
  datatype Hash = Hash(bits: nat, shift: nat)

  /** After three shifts the oldest byte is out, and a whole byte fits in the hash. */
  ghost predicate HashOk(h: Hash) {
    8 <= h.bits <= 16 && h.shift <= h.bits <= 3 * h.shift
  }

  /** UPDATE_HASH */
  function Update(h: Hash, key: nat, c: byte): (r: nat)
    ensures r < Pow2(h.bits)
  {
    ShrDiv(Xor(key * Pow2(h.shift), c), h.bits);
    Xor(key * Pow2(h.shift), c) % Pow2(h.bits)
  }

  /** The hash of a string. */
  function Hash3(h: Hash, a: byte, b: byte, c: byte): nat {
    Update(h, Update(h, Update(h, 0, a), b), c)
  }

  /** Only the low bits of the previous key reach the low bits of the next. */
  lemma UpdateForgets(h: Hash, k: nat, l: nat, c: byte, n: nat)
    requires n <= h.bits
    requires Low(k, if n >= h.shift then n - h.shift else 0) == Low(l, if n >= h.shift then n - h.shift else 0)
    ensures Low(Update(h, k, c), n) == Low(Update(h, l, c), n)
  {
    hide Xor, Low, Pow2;
    UpdateLow(h, k, c, n);
    UpdateLow(h, l, c, n);
    ShiftLow(k, h.shift, n);
    ShiftLow(l, h.shift, n);
  }

  lemma UpdateLow(h: Hash, k: nat, c: byte, n: nat)
    requires n <= h.bits
    ensures Low(Update(h, k, c), n) == Xor(Low(k * Pow2(h.shift), n), Low(c, n))
  {
    hide Xor, Low, Pow2;
    var x := Xor(k * Pow2(h.shift), c);
    ShrDiv(x, h.bits);
    LowLow(x, n, h.bits);
    LowXor(k * Pow2(h.shift), c, n);
  }

  lemma ShiftLow(k: nat, s: nat, n: nat)
    ensures Low(k * Pow2(s), n) == if n >= s then Low(k, n - s) * Pow2(s) else 0
  {
    if n >= s { LowShifted(k, s, n); } else { ShiftDrops(k, s, n); }
  }

  lemma ShiftDrops(k: nat, s: nat, n: nat)
    requires n < s
    ensures Low(k * Pow2(s), n) == 0
  {
    hide Low, Pow2, Shr;
    Pow2Sum(s - n, n);
    assert s - n + n == s;
    MulAssoc(k, Pow2(s - n), Pow2(n));
    SplitUnique(k * Pow2(s), n, k * Pow2(s - n), 0);
  }

  /** The key after three updates is the hash of the three bytes, whatever it was before. */
  lemma Rolls(h: Hash, k: nat, a: byte, b: byte, c: byte)
    requires HashOk(h)
    ensures Update(h, Update(h, Update(h, k, a), b), c) == Hash3(h, a, b, c)
  {
    hide Update, Low;
    var n := h.bits;
    var n2 := n - h.shift;
    var n1 := if n2 >= h.shift then n2 - h.shift else 0;
    LowNone(k);
    UpdateForgets(h, k, 0, a, n1);
    UpdateForgets(h, Update(h, k, a), Update(h, 0, a), b, n2);
    UpdateForgets(h, Update(h, Update(h, k, a), b), Update(h, Update(h, 0, a), b), c, n);
    LowIdentity(Update(h, Update(h, Update(h, k, a), b), c), n);
    LowIdentity(Hash3(h, a, b, c), n);
  }

  lemma LowNone(k: nat)
    ensures Low(k, 0) == Low(0, 0)
  {
  }

  /** Strings with the same hash and the same first two bytes agree in the third. */
  lemma ThirdByteAgrees(h: Hash, a: byte, b: byte, c: byte, d: byte)
    requires HashOk(h) && Hash3(h, a, b, c) == Hash3(h, a, b, d)
    ensures c == d
  {
    hide Xor, Low, Pow2, Update;
    var k := Update(h, Update(h, 0, a), b);
    UpdateLow(h, k, c, 8);
    UpdateLow(h, k, d, 8);
    XorCancel(Low(k * Pow2(h.shift), 8), Low(c, 8), Low(d, 8));
    Pow2Values();
    LowIdentity(c, 8);
    LowIdentity(d, 8);
  }
}
