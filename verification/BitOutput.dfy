/** trees.c and deflate.h: the bit buffer in front of the pending output bytes. */
module BitOutput {
  import opened Bits
  import opened BitStream

  /** Size of the bit buffer (Buf_size). */
  const BUF_SIZE := 16

  class Pending {
    var pending_buf: array<byte>
    var pending: nat
    var bi_buf: nat
    var bi_valid: nat

    constructor (size: nat)
      ensures Valid() && Stream() == [] && fresh(pending_buf) && pending_buf.Length == size
    {
      pending_buf := new byte[size](_ => 0);
      pending, bi_buf, bi_valid := 0, 0, 0;
    }

    /** All bits of bi_buf above the last valid one are zero. */
    ghost predicate Valid()
      reads this
    {
      pending <= pending_buf.Length && bi_valid <= BUF_SIZE && bi_buf < Pow2(bi_valid)
    }

    /** Every bit handed over so far, whole bytes first. */
    ghost function Stream(): (s: seq<bool>)
      requires Valid()
      reads this, pending_buf
      ensures |s| == 8 * pending + bi_valid
    {
      BytesToBits(pending_buf[..pending]) + ToBits(bi_buf, bi_valid)
    }

    /** There is room for n more bits. */
    predicate Room(n: nat)
      reads this
    {
      8 * pending + bi_valid + n + 16 <= 8 * pending_buf.Length
    }

    method PutByte(c: nat)
      requires Valid() && pending < pending_buf.Length
      modifies this`pending, pending_buf
      ensures Valid() && pending == old(pending) + 1
      ensures pending_buf[..pending] == old(pending_buf[..pending]) + [(c % 256) as byte]
      ensures forall j :: pending <= j < pending_buf.Length ==> pending_buf[j] == old(pending_buf[j])
    {
      pending_buf[pending] := c % 256;
      pending := pending + 1;
    }

    /** A short, low byte first. */
    method PutShort(w: nat)
      requires Valid() && pending + 2 <= pending_buf.Length && w < 65536
      modifies this`pending, pending_buf
      ensures Valid() && pending == old(pending) + 2
      ensures BytesToBits(pending_buf[..pending]) == old(BytesToBits(pending_buf[..pending])) + ToBits(w, 16)
      ensures pending_buf[..old(pending)] == old(pending_buf[..pending])
      ensures forall j :: pending <= j < pending_buf.Length ==> pending_buf[j] == old(pending_buf[j])
    {
      hide BytesToBits, ToBits, Pow2;
      ghost var was := pending_buf[..pending];
      PutByte(w);
      PutByte(w / 256);
      ShortBits(was, w);
      assert pending_buf[..pending] == was + [w % 256] + [w / 256 % 256];
    }

    /** Send a value on a given number of bits. */
    method SendBits(value: nat, length: nat)
      requires Valid() && length <= BUF_SIZE && value < Pow2(length) && pending + 2 <= pending_buf.Length
      modifies this, pending_buf
      ensures Valid() && pending_buf == old(pending_buf)
      ensures Stream() == old(Stream()) + ToBits(value, length)
      ensures old(pending) <= pending <= old(pending) + 2
      ensures pending_buf[..old(pending)] == old(pending_buf[..pending])
      ensures forall j :: pending <= j < pending_buf.Length ==> pending_buf[j] == old(pending_buf[j])
    {
      if bi_valid > BUF_SIZE - length { SpillBits(value, length); } else { HoldBits(value, length); }
    }

    /** Bits that do not fit: the buffer goes out and the rest starts it again. */
    method SpillBits(value: nat, length: nat)
      requires Valid() && length <= BUF_SIZE && value < Pow2(length) && pending + 2 <= pending_buf.Length
      requires bi_valid > BUF_SIZE - length
      modifies this`pending, this`bi_buf, this`bi_valid, pending_buf
      ensures Valid() && Stream() == old(Stream()) + ToBits(value, length) && pending == old(pending) + 2
      ensures pending_buf[..old(pending)] == old(pending_buf[..pending])
      ensures forall j :: pending <= j < pending_buf.Length ==> pending_buf[j] == old(pending_buf[j])
    {
      hide BytesToBits, ToBits, Pow2, Or;
      ghost var sent, was := BytesToBits(pending_buf[..pending]), bi_buf;
      var low, high := Spill(bi_buf, bi_valid, value, length);
      PutShort(low);
      bi_buf := high;
      bi_valid := bi_valid + length - BUF_SIZE;
      Glue(sent, ToBits(was, old(bi_valid)), ToBits(value, length));
      Glue(sent, ToBits(low, 16), ToBits(high, bi_valid));
    }

    /** Bits that fit. */
    method HoldBits(value: nat, length: nat)
      requires Valid() && value < Pow2(length) && bi_valid + length <= BUF_SIZE
      modifies this`bi_buf, this`bi_valid
      ensures Valid() && Stream() == old(Stream()) + ToBits(value, length)
    {
      hide BytesToBits, ToBits, Pow2, Or;
      ghost var sent, was := BytesToBits(pending_buf[..pending]), bi_buf;
      OrDisjoint(bi_buf, value, bi_valid);
      FitsSum(bi_buf, bi_valid, value, length);
      bi_buf := Or(bi_buf, value * Pow2(bi_valid));
      bi_valid := bi_valid + length;
      Glue(sent, ToBits(was, old(bi_valid)), ToBits(value, length));
    }

    /** Flush the bit buffer, keeping at most 7 bits in it. */
    method BiFlush()
      requires Valid() && (bi_valid >= 8 ==> pending + 2 <= pending_buf.Length)
      modifies this, pending_buf
      ensures Valid() && pending_buf == old(pending_buf) && bi_valid <= 7
      ensures Stream() == old(Stream())
    {
      hide BytesToBits, ToBits, Pow2;
      Pow2Values();
      if bi_valid == 16 {
        PutShort(bi_buf);
        bi_buf := 0;
        bi_valid := 0;
      } else if bi_valid >= 8 {
        ghost var was := pending_buf[..pending];
        LowByte(was, bi_buf, bi_valid);
        PutByte(bi_buf);
        bi_buf := bi_buf / 256;
        bi_valid := bi_valid - 8;
      }
    }

    /** Flush the bit buffer and align the output on a byte boundary with zeros. */
    method BiWindup()
      requires Valid() && pending + 2 <= pending_buf.Length
      modifies this, pending_buf
      ensures Valid() && pending_buf == old(pending_buf) && bi_valid == 0
      ensures Stream() == Aligned(old(Stream()))
    {
      hide BytesToBits, ToBits, Pow2;
      ghost var was, v, n := pending_buf[..pending], bi_buf, bi_valid;
      Pow2Mono(bi_valid, BUF_SIZE);
      Pow2Values();
      WindupBits(was, v, n);
      if bi_valid > 8 {
        PutShort(bi_buf);
      } else if bi_valid > 0 {
        PutByte(bi_buf);
      }
      bi_buf := 0;
      bi_valid := 0;
      PowZero();
      NoneToBits();
    }
  }

  /** flush_pending: the bytes there is room for go out; what is left moves to the front. */
  method FlushPending(o: Pending, room: nat) returns (given: seq<byte>)
    requires o.Valid() && (o.bi_valid >= 8 ==> o.pending + 2 <= o.pending_buf.Length)
    modifies o, o.pending_buf
    ensures o.Valid() && o.pending_buf == old(o.pending_buf) && o.bi_valid <= 7
    ensures BytesToBits(given) + o.Stream() == old(o.Stream()) && |given| <= room
    ensures old(8 * o.pending + o.bi_valid) <= 8 * room + 7 ==> o.pending == 0
    ensures old(o.bi_valid) == 0 ==> o.bi_valid == 0 && |given| + o.pending == old(o.pending)
    ensures old(o.bi_valid) == 0 ==> |given| == old(if o.pending > room then room else o.pending)
  {
    hide BytesToBits, ToBits, Pow2;
    ghost var s0 := o.Stream();
    o.BiFlush();
    assert |o.Stream()| == |s0|;
    var len := if o.pending > room then room else o.pending;
    ghost var all, rest := o.pending_buf[..o.pending], ToBits(o.bi_buf, o.bi_valid);
    FlushSplit(all, len, rest);
    given := TakeFront(o, len, all);
  }

  /** The first len bytes are taken, and the others move up. */
  method TakeFront(o: Pending, len: nat, ghost all: seq<byte>) returns (given: seq<byte>)
    requires len <= o.pending <= o.pending_buf.Length && all == o.pending_buf[..o.pending]
    modifies o`pending, o.pending_buf
    ensures given == all[..len] && o.pending == old(o.pending) - len && o.pending_buf[..o.pending] == all[len..]
  {
    given := o.pending_buf[..len];
    forall i | 0 <= i < o.pending - len { o.pending_buf[i] := o.pending_buf[len + i]; }
    o.pending := o.pending - len;
  }

  lemma FlushSplit(all: seq<byte>, n: nat, rest: seq<bool>)
    requires n <= |all|
    ensures BytesToBits(all) + rest == BytesToBits(all[..n]) + (BytesToBits(all[n..]) + rest)
  {
    hide BytesToBits;
    assert all[..n] + all[n..] == all;
    BytesToBitsConcat(all[..n], all[n..]);
    Glue(BytesToBits(all[..n]), BytesToBits(all[n..]), rest);
  }

  /** Padding with zero bits to a byte boundary. */
  function Aligned(s: seq<bool>): (r: seq<bool>)
    ensures |r| % 8 == 0 && |s| <= |r| < |s| + 8 && s <= r
  {
    s + seq((8 - |s| % 8) % 8, _ => false)
  }

  lemma {:induction false} ToBitsZero(n: nat)
    ensures ToBits(0, n) == seq(n, _ => false)
  {
    if n > 0 {
      ToBitsZero(n - 1);
    }
  }

  /** What the padded bits are as one or two bytes. */
  lemma WindupBits(was: seq<byte>, v: nat, n: nat)
    requires n <= BUF_SIZE && v < Pow2(n)
    ensures n > 8 ==> BytesToBits(was) + ToBits(v, 16) == Aligned(BytesToBits(was) + ToBits(v, n))
    ensures 0 < n <= 8 ==> BytesToBits(was + [v % 256]) == Aligned(BytesToBits(was) + ToBits(v, n))
    ensures n == 0 ==> BytesToBits(was) == Aligned(BytesToBits(was) + ToBits(v, n))
  {
    hide BytesToBits, ToBits, Pow2, Aligned;
    var s := BytesToBits(was);
    AlignedIs(s, ToBits(v, n), |was|, n);
    if n > 8 {
      ZeroPad(v, n, 16);
      Glue(s, ToBits(v, n), seq(16 - n, _ => false));
    } else if n > 0 {
      Pow2Mono(n, 8);
      Pow2Values();
      ZeroPad(v, n, 8);
      BytesToBitsSnoc(was, v);
      Glue(s, ToBits(v, n), seq(8 - n, _ => false));
    }
  }

  lemma AlignedIs(s: seq<bool>, t: seq<bool>, k: nat, n: nat)
    requires |s| == 8 * k && |t| == n <= 16
    ensures Aligned(s + t) == s + t + seq(if n > 8 then 16 - n else if n > 0 then 8 - n else 0, _ => false)
  {
    hide Aligned;
    AlignedBy(s + t);
    PaddedBy(k, n);
  }

  lemma AlignedBy(s: seq<bool>)
    ensures Aligned(s) == s + seq((8 - |s| % 8) % 8, _ => false)
  {
  }

  lemma PaddedBy(k: nat, n: nat)
    requires n <= 16
    ensures (8 - (8 * k + n) % 8) % 8 == if n > 8 then 16 - n else if n > 0 then 8 - n else 0
  {
  }

  lemma NoneToBits()
    ensures ToBits(0, 0) == []
  {
  }

  lemma ZeroPad(v: nat, n: nat, m: nat)
    requires n <= m && v < Pow2(n)
    ensures ToBits(v, m) == ToBits(v, n) + seq(m - n, _ => false)
  {
    hide ToBits, Pow2;
    ToBitsSum(v, n, 0, m - n);
    ToBitsZero(m - n);
    assert n + (m - n) == m && v + 0 * Pow2(n) == v;
  }

  lemma LowByte(bs: seq<byte>, v: nat, n: nat)
    requires 8 <= n <= 16 && v < Pow2(n)
    ensures v / 256 < Pow2(n - 8)
    ensures BytesToBits(bs + [v % 256]) + ToBits(v / 256, n - 8) == BytesToBits(bs) + ToBits(v, n)
  {
    hide BytesToBits, ToBits;
    BytesToBitsSnoc(bs, v % 256);
    Pow2Values();
    Pow2Sum(n - 8, 8);
    assert n - 8 + 8 == n;
    ToBitsSum(v % 256, 8, v / 256, n - 8);
    assert v % 256 + v / 256 * 256 == v;
    assert 8 + (n - 8) == n;
  }

  lemma FitsSum(a: nat, n: nat, b: nat, m: nat)
    requires a < Pow2(n) && b < Pow2(m)
    ensures a + b * Pow2(n) < Pow2(n + m)
    ensures ToBits(a + b * Pow2(n), n + m) == ToBits(a, n) + ToBits(b, m)
  {
    ToBitsSum(a, n, b, m);
    Pow2Sum(m, n);
    MulMono(b + 1, Pow2(m), Pow2(n));
    assert m + n == n + m;
  }

  /** The two halves of a value that does not fit in what is left of the buffer:
      the full buffer to write out, and the rest to start the next one with. */
  method Spill(buf: nat, valid: nat, value: nat, length: nat) returns (low: nat, high: nat)
    requires valid <= BUF_SIZE && length <= BUF_SIZE && valid + length > BUF_SIZE
    requires buf < Pow2(valid) && value < Pow2(length)
    ensures low < 65536 && high < Pow2(valid + length - BUF_SIZE)
    ensures ToBits(low, 16) + ToBits(high, valid + length - BUF_SIZE) == ToBits(buf, valid) + ToBits(value, length)
  {
    hide ToBits, Low, Shr, Or, Pow2;
    ghost var b := BUF_SIZE - valid;
    SpillParts(buf, valid, value, length);
    OrDisjoint(buf, Low(value, b), valid);
    low := Or(buf, (value * Pow2(valid)) % 65536);
    high := value / Pow2(BUF_SIZE - valid);
  }

  lemma SpillParts(buf: nat, valid: nat, value: nat, length: nat)
    requires valid <= BUF_SIZE && length <= BUF_SIZE && valid + length > BUF_SIZE
    requires buf < Pow2(valid) && value < Pow2(length)
    ensures var b := BUF_SIZE - valid;
            var low, high := buf + Low(value, b) * Pow2(valid), value / Pow2(b);
            (value * Pow2(valid)) % 65536 == Low(value, b) * Pow2(valid) &&
            0 <= low < 65536 && 0 <= high < Pow2(valid + length - BUF_SIZE) &&
            ToBits(low, 16) + ToBits(high, valid + length - BUF_SIZE) == ToBits(buf, valid) + ToBits(value, length)
  {
    hide ToBits, Low, Shr, Pow2;
    var b := BUF_SIZE - valid;
    Pow2Values();
    LowShifted(value, valid, valid + b);
    ShrDiv(value * Pow2(valid), 16);
    ShrDiv(value, b);
    FitsSum(buf, valid, Low(value, b), b);
    assert valid + b == 16;
    Pow2Sum(length - b, b);
    assert length - b + b == length;
    ShrLess(value, b, Pow2(length - b));
    assert length - b == valid + length - BUF_SIZE;
    ToBitsSplit(value, b, length - b);
    assert b + (length - b) == length;
    ToBitsLow(value, b);
  }

  lemma ShortBits(bs: seq<byte>, w: nat)
    requires w < 65536
    ensures BytesToBits(bs + [w % 256] + [w / 256 % 256]) == BytesToBits(bs) + ToBits(w, 16)
  {
    hide BytesToBits, ToBits, Pow2;
    var lo, hi := w % 256, w / 256;
    assert lo + hi * 256 == w && hi % 256 == hi;
    BytesToBitsSnoc(bs, lo);
    BytesToBitsSnoc(bs + [lo], hi);
    Pow2Values();
    ToBitsSum(lo, 8, hi, 8);
  }
}
