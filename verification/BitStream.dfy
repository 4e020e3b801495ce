/** Bit strings in transmission order: the bits of each byte from the least significant up. */
module BitStream {
  import opened Bits

  type byte = x: nat | x < 256

  /** A buffer of the caller's, which may be missing. */
  datatype Buffer = Null | Bytes(data: seq<byte>)

  /** The low n bits of v, least significant first. */
  function ToBits(v: nat, n: nat): (s: seq<bool>)
    ensures |s| == n
  {
    if n == 0 then [] else [v % 2 == 1] + ToBits(v / 2, n - 1)
  }

  function FromBits(s: seq<bool>): (v: nat)
    ensures v < Pow2(|s|)
  {
    if |s| == 0 then 0 else (if s[0] then 1 else 0) + 2 * FromBits(s[1..])
  }

  function BytesToBits(bs: seq<byte>): (s: seq<bool>)
    ensures |s| == 8 * |bs|
  {
    if |bs| == 0 then [] else ToBits(bs[0], 8) + BytesToBits(bs[1..])
  }

  lemma Glue(a: seq<bool>, b: seq<bool>, c: seq<bool>)
    ensures (a + b) + c == a + (b + c)
  {
  }

  lemma {:induction false} FromToBits(v: nat, n: nat)
    ensures FromBits(ToBits(v, n)) == Low(v, n)
  {
    if n > 0 {
      FromToBits(v / 2, n - 1);
      assert ToBits(v, n)[1..] == ToBits(v / 2, n - 1);
    }
  }

  lemma {:induction false} ToFromBits(s: seq<bool>)
    ensures ToBits(FromBits(s), |s|) == s
  {
    if |s| > 0 {
      ToFromBits(s[1..]);
      assert FromBits(s) / 2 == FromBits(s[1..]);
      assert s == [s[0]] + s[1..];
    }
  }

  lemma {:induction false} ToBitsSplit(v: nat, a: nat, b: nat)
    ensures ToBits(v, a + b) == ToBits(v, a) + ToBits(Shr(v, a), b)
  {
    if a > 0 {
      ToBitsSplit(v / 2, a - 1, b);
      assert a + b - 1 == a - 1 + b;
    }
  }

  lemma {:induction false} ToBitsLow(v: nat, n: nat)
    ensures ToBits(Low(v, n), n) == ToBits(v, n)
  {
    hide Low;
    if n > 0 {
      ToBitsLow(v / 2, n - 1);
      LowNext(v, n);
      assert Low(v, n) % 2 == v % 2 && Low(v, n) / 2 == Low(v / 2, n - 1);
    }
  }

  /** A prefix of a bit string is the low end of its value. */
  lemma {:induction false} FromBitsPrefix(s: seq<bool>, n: nat)
    requires n <= |s|
    ensures FromBits(s[..n]) == Low(FromBits(s), n)
    ensures FromBits(s[n..]) == Shr(FromBits(s), n)
  {
    if n > 0 {
      FromBitsPrefix(s[1..], n - 1);
      assert s[..n][1..] == s[1..][..n - 1];
      assert s[n..] == s[1..][n - 1..];
      assert FromBits(s) / 2 == FromBits(s[1..]) && FromBits(s) % 2 == (if s[0] then 1 else 0);
    }
  }

  lemma {:induction false} BytesToBitsConcat(a: seq<byte>, b: seq<byte>)
    ensures BytesToBits(a + b) == BytesToBits(a) + BytesToBits(b)
  {
    if |a| == 0 {
      assert a + b == b;
    } else {
      assert (a + b)[1..] == a[1..] + b;
      BytesToBitsConcat(a[1..], b);
    }
  }

  lemma BytesToBitsSnoc(a: seq<byte>, x: byte)
    ensures BytesToBits(a + [x]) == BytesToBits(a) + ToBits(x, 8)
  {
    BytesToBitsConcat(a, [x]);
    assert BytesToBits([x]) == ToBits(x, 8);
  }

  /** The bits determine the bytes. */
  lemma {:induction false} BytesOfBits(a: seq<byte>, b: seq<byte>)
    requires BytesToBits(a) == BytesToBits(b)
    ensures a == b
  {
    assert |BytesToBits(a)| == 8 * |a| && |BytesToBits(b)| == 8 * |b|;
    if |a| > 0 {
      assert ToBits(a[0], 8) == BytesToBits(a)[..8] == BytesToBits(b)[..8] == ToBits(b[0], 8);
      FromToBits(a[0], 8);
      FromToBits(b[0], 8);
      ByteLow(a[0]);
      ByteLow(b[0]);
      assert BytesToBits(a[1..]) == BytesToBits(a)[8..] && BytesToBits(b[1..]) == BytesToBits(b)[8..];
      BytesOfBits(a[1..], b[1..]);
      assert a == [a[0]] + a[1..] && b == [b[0]] + b[1..];
    }
  }

  lemma ByteLow(x: byte)
    ensures Low(x, 8) == x
  {
    Pow2Values();
    LowIdentity(x, 8);
  }

  /** Bit by bit or of two numbers. */
  function Or(a: nat, b: nat): nat
    decreases a + b
  {
    if a == 0 then b else if b == 0 then a
    else (if a % 2 == 1 || b % 2 == 1 then 1 else 0) + 2 * Or(a / 2, b / 2)
  }

  /** Or of parts that do not overlap is their sum. */
  lemma {:induction false} OrDisjoint(a: nat, b: nat, n: nat)
    requires a < Pow2(n)
    ensures Or(a, b * Pow2(n)) == a + b * Pow2(n)
  {
    if n > 0 && a != 0 && b != 0 {
      var p := Pow2(n - 1);
      TimesDouble(b, p);
      OrDisjoint(a / 2, b, n - 1);
      MulBound(b, 2 * p);
    }
  }

  /** The low bits of a sum of parts that do not overlap, as bit strings. */
  lemma ToBitsSum(a: nat, n: nat, b: nat, m: nat)
    requires a < Pow2(n)
    ensures ToBits(a + b * Pow2(n), n + m) == ToBits(a, n) + ToBits(b, m)
  {
    var v := a + b * Pow2(n);
    SplitUnique(v, n, b, a);
    ToBitsSplit(v, n, m);
    ToBitsLow(v, n);
  }
}
