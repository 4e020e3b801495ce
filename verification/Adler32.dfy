/** adler32.c: the checksum with its remainders put off, and the combination of checksums. */
module Adler32 {
  import opened BitStream

  /** The machine word the sums are kept in; unsigned long may have no more bits than this. */
  newtype u32 = x: int | 0 <= x < 0x1_0000_0000

  const BASE := 65521
  const NMAX := 5552

  /** The two sums of the definition. */
  datatype Sums = Sums(a: nat, b: nat)

  // ------------------------------------------------------------ definition

  /** Both sums with a remainder after every byte (RFC 1950 section 8.2). */
  function Modular(s: Sums, data: seq<byte>): Sums
    decreases |data|
  {
    if data == [] then s
    else
      var a := (s.a + data[0]) % BASE;
      Modular(Sums(a, (s.b + a) % BASE), data[1..])
  }

  function Reduced(s: Sums): (r: Sums)
    ensures r.a < BASE && r.b < BASE
  {
    Sums(s.a % BASE, s.b % BASE)
  }

  function Unpack(adler: nat): Sums {
    Sums(adler % 0x10000, adler / 0x10000 % 0x10000)
  }

  /** adler | (sum2 << 16) */
  function Pack(s: Sums): nat
    requires s.a < 0x10000
  {
    s.a + s.b * 0x10000
  }

  /** The checksum of data, continued from that of what came before. */
  function Checksum(adler: nat, data: seq<byte>): nat {
    ModularFits(Reduced(Unpack(adler)), data);
    Pack(Modular(Reduced(Unpack(adler)), data))
  }

  lemma {:induction false} ModularFits(s: Sums, data: seq<byte>)
    requires s.a < BASE && s.b < BASE
    ensures Modular(s, data).a < BASE && Modular(s, data).b < BASE
    decreases |data|
  {
    if data != [] {
      var a := (s.a + data[0]) % BASE;
      ModularFits(Sums(a, (s.b + a) % BASE), data[1..]);
    }
  }

  lemma {:induction false} ModularSum(s: Sums, d: seq<byte>, e: seq<byte>)
    ensures Modular(s, d + e) == Modular(Modular(s, d), e)
    decreases |d|
  {
    if d == [] {
      assert d + e == e;
    } else {
      var a := (s.a + d[0]) % BASE;
      assert (d + e)[1..] == d[1..] + e;
      ModularSum(Sums(a, (s.b + a) % BASE), d[1..], e);
    }
  }

  lemma Unpacked(s: Sums)
    requires s.a < 0x10000 && s.b < 0x10000
    ensures Unpack(Pack(s)) == s && Pack(s) < 0x1_0000_0000
  {
  }

  /** Continuing from a checksum is the checksum of all of it at once. */
  lemma ChecksumContinues(adler: nat, d: seq<byte>, e: seq<byte>)
    ensures Checksum(Checksum(adler, d), e) == Checksum(adler, d + e)
  {
    hide Modular, Pack, Unpack, Reduced;
    var s := Reduced(Unpack(adler));
    ModularFits(s, d);
    Unpacked(Modular(s, d));
    ReducedSame(Modular(s, d));
    ModularSum(s, d, e);
  }

  lemma ReducedSame(s: Sums)
    requires s.a < BASE && s.b < BASE
    ensures Reduced(s) == s
  {
  }

  // ------------------------------------------------------------ remainders put off

  /** The sums without remainders. */
  function Plain(s: Sums, data: seq<byte>): Sums
    decreases |data|
  {
    if data == [] then s
    else Plain(Sums(s.a + data[0], s.b + s.a + data[0]), data[1..])
  }

  lemma {:induction false} PlainSum(s: Sums, d: seq<byte>, e: seq<byte>)
    ensures Plain(s, d + e) == Plain(Plain(s, d), e)
    decreases |d|
  {
    if d == [] {
      assert d + e == e;
    } else {
      assert (d + e)[1..] == d[1..] + e;
      PlainSum(Sums(s.a + d[0], s.b + s.a + d[0]), d[1..], e);
    }
  }

  lemma PlainOne(s: Sums, buf: seq<byte>, lo: nat, i: nat)
    requires lo <= i < |buf|
    ensures var t := Plain(s, buf[lo..i]); Plain(s, buf[lo..i + 1]) == Sums(t.a + buf[i], t.b + t.a + buf[i])
  {
    assert buf[lo..i + 1] == buf[lo..i] + [buf[i]];
    PlainSum(s, buf[lo..i], [buf[i]]);
    var t := Plain(s, buf[lo..i]);
    assert Plain(t, [buf[i]]) == Plain(Sums(t.a + buf[i], t.b + t.a + buf[i]), []);
  }

  lemma AddMod(x: nat, y: nat)
    ensures (x % BASE + y) % BASE == (x + y) % BASE
    ensures (x + y % BASE) % BASE == (x + y) % BASE
  {
  }

  /** Remainders may be put off. */
  lemma {:induction false} Deferred(s: Sums, data: seq<byte>)
    ensures Reduced(Plain(s, data)) == Modular(Reduced(s), data)
    decreases |data|
  {
    if data != [] {
      Deferred(Sums(s.a + data[0], s.b + s.a + data[0]), data[1..]);
      DeferredByte(s.a, s.b, data[0]);
    }
  }

  lemma DeferredByte(a: nat, b: nat, d: nat)
    ensures (a % BASE + d) % BASE == (a + d) % BASE
    ensures (b % BASE + (a % BASE + d) % BASE) % BASE == (b + a + d) % BASE
  {
    AddMod(a, d);
    AddMod(b, a + d);
    AddMod(b, (a + d) % BASE);
  }

  /** Started higher, the sums end higher, the second by as much again for every byte. */
  lemma {:induction false} PlainShift(s: Sums, da: nat, db: nat, data: seq<byte>)
    ensures var t := Plain(s, data); Plain(Sums(s.a + da, s.b + db), data) == Sums(t.a + da, t.b + db + |data| * da)
    decreases |data|
  {
    if data != [] {
      var d := data[0];
      PlainShift(Sums(s.a + d, s.b + s.a + d), da, db + da, data[1..]);
      OneMore(|data|, da);
    }
  }

  lemma OneMore(n: nat, d: nat)
    requires n > 0
    ensures n * d == d + (n - 1) * d
  {
  }

  /** The most that n bytes add. */
  function Most(n: nat): nat {
    if n == 0 then 0 else Most(n - 1) + 255 * n
  }

  lemma {:induction false} PlainBound(s: Sums, data: seq<byte>)
    ensures s.a <= Plain(s, data).a <= s.a + 255 * |data|
    ensures Plain(s, data).b <= s.b + |data| * s.a + Most(|data|)
    decreases |data|
  {
    if data != [] {
      var d, n := data[0], |data|;
      PlainBound(Sums(s.a + d, s.b + s.a + d), data[1..]);
      OneByte(n, s.a, d);
    }
  }

  lemma OneByte(n: nat, a: nat, d: nat)
    requires n > 0 && d <= 255
    ensures a + d + (n - 1) * (a + d) <= n * a + 255 * n
  {
    OneMore(n, a + d);
    assert n * (a + d) == n * a + n * d;
    Bytes(n, d);
  }

  lemma Bytes(n: nat, d: nat)
    requires d <= 255
    ensures n * d <= 255 * n
  {
  }

  lemma {:induction false} MostIs(n: nat)
    ensures 2 * Most(n) == 255 * (n * (n + 1))
  {
    if n > 0 {
      MostIs(n - 1);
      assert n * (n + 1) == (n - 1) * n + 2 * n;
    }
  }

  lemma MostGrows(m: nat, n: nat)
    requires m <= n
    ensures Most(m) <= Most(n)
    decreases n
  {
    if m < n { MostGrows(m, n - 1); }
  }

  /** NMAX bytes are as many as fit without a remainder, and no more do. */
  lemma NmaxFits()
    ensures 65535 + NMAX * 65535 + Most(NMAX) < 0x1_0000_0000
    ensures BASE - 1 + (NMAX + 1) * (BASE - 1) + Most(NMAX + 1) >= 0x1_0000_0000
  {
    MostIs(NMAX);
    MostIs(NMAX + 1);
  }

  /** Neither sum overflows within NMAX bytes, wherever the checksum before it started. */
  lemma NoOverflow(s: Sums, data: seq<byte>)
    requires s.a < 0x10000 && s.b < 0x10000 && |data| <= NMAX
    ensures Plain(s, data).a < 0x1_0000_0000 && Plain(s, data).b < 0x1_0000_0000
  {
    hide Plain, Most;
    PlainBound(s, data);
    MostGrows(|data|, NMAX);
    NmaxFits();
    Product(|data|, NMAX, s.a, 65535);
  }

  lemma Product(m: nat, n: nat, a: nat, b: nat)
    requires m <= n && a <= b
    ensures m * a <= n * b
  {
  }

  // ------------------------------------------------------------ remainders without division

  function Chopped(a: nat): nat {
    a % 0x10000 + 15 * (a / 0x10000)
  }

  /** 2^16 is 15 modulo the base. */
  lemma ChopKeeps(a: nat)
    ensures Chopped(a) % BASE == a % BASE
  {
    var q := a / 0x10000;
    assert a == Chopped(a) + q * BASE;
    Multiple(Chopped(a), q);
  }

  lemma Multiple(r: nat, q: nat)
    ensures (r + q * BASE) % BASE == r % BASE
  {
  }

  method Chop(a: u32) returns (r: u32)
    ensures r as nat == Chopped(a as nat) && r as nat % BASE == a as nat % BASE
  {
    var tmp := a / 0x10000;
    r := a % 0x10000;
    r := r + (tmp * 16 - tmp);
    ChopKeeps(a as nat);
  }

  /** Exact if and only if one subtraction is enough after chopping, as it is up to 28 bits. */
  method Mod28(a: u32) returns (r: u32)
    ensures r as nat == a as nat % BASE <==> Chopped(a as nat) < 2 * BASE
    ensures a < 0x1000_0000 ==> r as nat == a as nat % BASE
  {
    r := Chop(a);
    if r >= 65521 { r := r - 65521; }
  }

  method Mod(a: u32) returns (r: u32)
    ensures r as nat == a as nat % BASE
  {
    r := Chop(a);
    r := Mod28(r);
  }

  /** For any number that is not negative in 64 bits. */
  method Mod63(a: nat) returns (r: nat)
    requires a < 0x8000_0000_0000_0000
    ensures r == a % BASE
  {
    var tmp := a / 0x1_0000_0000;
    r := a % 0x1_0000_0000;
    r := r + (tmp * 256 - tmp * 32 + tmp);
    WideKeeps(a);
    r := ChopWide(r);
    r := ChopWide(r);
    if r >= BASE { r := r - BASE; }
  }

  /** Chop for numbers of more than 32 bits. */
  method ChopWide(a: nat) returns (r: nat)
    ensures r == Chopped(a) && r % BASE == a % BASE
  {
    var tmp := a / 0x10000;
    r := a % 0x10000;
    r := r + (tmp * 16 - tmp);
    ChopKeeps(a);
  }

  lemma WideKeeps(a: nat)
    ensures (a % 0x1_0000_0000 + 225 * (a / 0x1_0000_0000)) % BASE == a % BASE
  {
    var q := a / 0x1_0000_0000;
    assert 0x1_0000_0000 - 225 == 65551 * BASE;
    assert a == a % 0x1_0000_0000 + 225 * q + q * 65551 * BASE;
    Multiple(a % 0x1_0000_0000 + 225 * q, q * 65551);
  }

  // ------------------------------------------------------------ the checksum of a buffer

  /** The sums hold what is due after buf[lo..i], started from s. */
  ghost predicate Due(s: Sums, buf: seq<byte>, lo: nat, i: nat, adler: u32, sum2: u32) {
    s.a < 0x10000 && s.b < 0x10000 && lo <= i <= |buf| && i - lo <= NMAX
    && Plain(s, buf[lo..i]) == Sums(adler as nat, sum2 as nat)
  }

  method Do1(ghost s: Sums, buf: seq<byte>, ghost lo: nat, i: nat, adler: u32, sum2: u32) returns (a: u32, b: u32)
    requires Due(s, buf, lo, i, adler, sum2)
    requires i < |buf| && i < lo + NMAX
    ensures Due(s, buf, lo, i + 1, a, b)
  {
    hide Plain;
    PlainOne(s, buf, lo, i);
    NoOverflow(s, buf[lo..i + 1]);
    a := adler + buf[i] as u32;
    b := sum2 + a;
  }

  method Do2(ghost s: Sums, buf: seq<byte>, ghost lo: nat, i: nat, adler: u32, sum2: u32) returns (a: u32, b: u32)
    requires Due(s, buf, lo, i, adler, sum2)
    requires i + 2 <= |buf| && i + 2 <= lo + NMAX
    ensures Due(s, buf, lo, i + 2, a, b)
  {
    hide Due;
    a, b := Do1(s, buf, lo, i, adler, sum2);
    a, b := Do1(s, buf, lo, i + 1, a, b);
  }

  method Do4(ghost s: Sums, buf: seq<byte>, ghost lo: nat, i: nat, adler: u32, sum2: u32) returns (a: u32, b: u32)
    requires Due(s, buf, lo, i, adler, sum2)
    requires i + 4 <= |buf| && i + 4 <= lo + NMAX
    ensures Due(s, buf, lo, i + 4, a, b)
  {
    hide Due;
    a, b := Do2(s, buf, lo, i, adler, sum2);
    a, b := Do2(s, buf, lo, i + 2, a, b);
  }

  method Do8(ghost s: Sums, buf: seq<byte>, ghost lo: nat, i: nat, adler: u32, sum2: u32) returns (a: u32, b: u32)
    requires Due(s, buf, lo, i, adler, sum2)
    requires i + 8 <= |buf| && i + 8 <= lo + NMAX
    ensures Due(s, buf, lo, i + 8, a, b)
  {
    hide Due;
    a, b := Do4(s, buf, lo, i, adler, sum2);
    a, b := Do4(s, buf, lo, i + 4, a, b);
  }

  method Do16(ghost s: Sums, buf: seq<byte>, ghost lo: nat, i: nat, adler: u32, sum2: u32) returns (a: u32, b: u32)
    requires Due(s, buf, lo, i, adler, sum2)
    requires i + 16 <= |buf| && i + 16 <= lo + NMAX
    ensures Due(s, buf, lo, i + 16, a, b)
  {
    hide Due;
    a, b := Do8(s, buf, lo, i, adler, sum2);
    a, b := Do8(s, buf, lo, i + 8, a, b);
  }

  /** The bytes one at a time, when they are fewer than 16. */
  method Singles(ghost s: Sums, buf: seq<byte>, ghost lo: nat, i: nat, adler: u32, sum2: u32) returns (a: u32, b: u32)
    requires Due(s, buf, lo, i, adler, sum2) && |buf| <= lo + NMAX
    ensures Due(s, buf, lo, |buf|, a, b)
  {
    hide Due;
    a, b := adler, sum2;
    var j := i;
    DueWithin(s, buf, lo, i, adler, sum2);
    while j < |buf|
      invariant i <= j <= |buf| && Due(s, buf, lo, j, a, b)
      decreases |buf| - j
    {
      a, b := Do1(s, buf, lo, j, a, b);
      j := j + 1;
    }
  }

  lemma DueWithin(s: Sums, buf: seq<byte>, lo: nat, i: nat, adler: u32, sum2: u32)
    requires Due(s, buf, lo, i, adler, sum2)
    ensures lo <= i <= |buf|
  {
  }

  /** The sums after buf[..i] with their remainders taken. */
  ghost predicate Taken(s0: Sums, buf: seq<byte>, i: nat, adler: u32, sum2: u32) {
    i <= |buf| && Modular(Reduced(s0), buf[..i]) == Sums(adler as nat, sum2 as nat)
  }

  /** Where a stretch begins, nothing is due. */
  lemma Start(s: Sums, buf: seq<byte>, i: nat)
    requires s.a < 0x10000 && s.b < 0x10000 && i <= |buf|
    ensures Due(s, buf, i, i, s.a as u32, s.b as u32)
  {
    assert buf[i..i] == [];
  }

  /** The remainders at the end of a stretch. */
  lemma Take(s0: Sums, s: Sums, buf: seq<byte>, lo: nat, i: nat, adler: u32, sum2: u32, a: u32, b: u32)
    requires Due(s, buf, lo, i, adler, sum2)
    requires Reduced(s) == Modular(Reduced(s0), buf[..lo])
    requires a as nat == adler as nat % BASE && b as nat == sum2 as nat % BASE
    ensures Taken(s0, buf, i, a, b)
  {
    hide Plain, Modular;
    Deferred(s, buf[lo..i]);
    ModularSum(Reduced(s0), buf[..lo], buf[lo..i]);
    assert buf[..lo] + buf[lo..i] == buf[..i];
  }

  /** Whole stretches of NMAX bytes. */
  method Stretch(ghost s0: Sums, ghost s: Sums, buf: seq<byte>, lo: nat, adler: u32, sum2: u32) returns (a: u32, b: u32)
    requires lo + NMAX <= |buf| && s == Sums(adler as nat, sum2 as nat) && s.a < 0x10000 && s.b < 0x10000
    requires Reduced(s) == Modular(Reduced(s0), buf[..lo])
    ensures Taken(s0, buf, lo + NMAX, a, b)
  {
    hide Due, Modular, Taken;
    Start(s, buf, lo);
    a, b := adler, sum2;
    var n, i := NMAX / 16, lo;
    while n != 0
      invariant 0 <= n && i == lo + NMAX - 16 * n && Due(s, buf, lo, i, a, b)
    {
      a, b := Do16(s, buf, lo, i, a, b);
      i := i + 16;
      n := n - 1;
    }
    ghost var a0, b0 := a, b;
    a := Mod(a);
    b := Mod(b);
    Take(s0, s, buf, lo, i, a0, b0, a, b);
  }

  /** What is left after them, less than NMAX bytes. */
  method Rest(ghost s0: Sums, ghost s: Sums, buf: seq<byte>, lo: nat, adler: u32, sum2: u32) returns (a: u32, b: u32)
    requires lo <= |buf| < lo + NMAX && s == Sums(adler as nat, sum2 as nat) && s.a < 0x10000 && s.b < 0x10000
    requires Reduced(s) == Modular(Reduced(s0), buf[..lo])
    ensures Taken(s0, buf, |buf|, a, b)
  {
    hide Due, Modular, Taken;
    Start(s, buf, lo);
    a, b := adler, sum2;
    var i := lo;
    while |buf| - i >= 16
      invariant lo <= i <= |buf| && Due(s, buf, lo, i, a, b)
      decreases |buf| - i
    {
      a, b := Do16(s, buf, lo, i, a, b);
      i := i + 16;
    }
    a, b := Singles(s, buf, lo, i, a, b);
    ghost var a0, b0 := a, b;
    a := Mod(a);
    b := Mod(b);
    Take(s0, s, buf, lo, |buf|, a0, b0, a, b);
  }

  /** The one case with a wrong sum: a single byte, and a checksum before it that is none. */
  predicate Spoiled(adler: nat, buf: seq<byte>) {
    |buf| == 1 && Unpack(adler).b + (Unpack(adler).a + buf[0]) % BASE >= 2 * BASE
  }

  /** One byte, quickly. */
  method Single(a: u32, b: u32, d: byte) returns (r: nat)
    requires a < 0x10000 && b < 0x10000
    ensures var t := (a as nat + d) % BASE; r == Pack(Sums(t, (b as nat + t) % BASE)) <==> b as nat + t < 2 * BASE
    ensures r < 0x1_0000_0000
  {
    var adler := a + d as u32;
    if adler >= 65521 { adler := adler - 65521; }
    var sum2 := b + adler;
    if sum2 >= 65521 { sum2 := sum2 - 65521; }
    r := adler as nat + sum2 as nat * 0x10000;
    SingleSum(a as nat, b as nat, d, adler as nat, sum2 as nat);
  }

  lemma SingleSum(a: nat, b: nat, d: byte, t: nat, u: nat)
    requires a < 0x10000 && b < 0x10000
    requires t == (if a + d >= BASE then a + d - BASE else a + d)
    requires u == (if b + t >= BASE then b + t - BASE else b + t)
    ensures t == (a + d) % BASE && u < 0x10000
    ensures t + u * 0x10000 == Pack(Sums(t, (b + t) % BASE)) <==> b + t < 2 * BASE
  {
  }

  lemma ChecksumOne(adler: nat, buf: seq<byte>)
    requires |buf| == 1
    ensures var t := (Unpack(adler).a + buf[0]) % BASE;
      Checksum(adler, buf) == Pack(Sums(t, (Unpack(adler).b + t) % BASE))
  {
    var s := Unpack(adler);
    AddMod(s.a, buf[0]);
    AddMod(s.b, (s.a + buf[0]) % BASE);
    var u := Reduced(s);
    var a := (u.a + buf[0]) % BASE;
    assert Modular(u, buf) == Modular(Sums(a, (u.b + a) % BASE), buf[1..]);
  }

  /** Fewer than 16 bytes: the sums are still small. */
  method Short(ghost s: Sums, buf: seq<byte>, adler: u32, sum2: u32) returns (a: u32, b: u32)
    requires |buf| < 16 && s == Sums(adler as nat, sum2 as nat) && s.a < 0x10000 && s.b < 0x10000
    ensures Taken(s, buf, |buf|, a, b)
  {
    hide Due, Modular, Taken;
    Start(s, buf, 0);
    a, b := Singles(s, buf, 0, 0, adler, sum2);
    ghost var a0, b0 := a, b;
    ShortBound(s, buf, a, b);
    if a >= 65521 { a := a - 65521; }
    b := Mod28(b);
    TakeNone(s, buf);
    Take(s, s, buf, 0, |buf|, a0, b0, a, b);
  }

  lemma TakeNone(s: Sums, buf: seq<byte>)
    ensures Reduced(s) == Modular(Reduced(s), buf[..0])
  {
    assert buf[..0] == [];
  }

  lemma ShortBound(s: Sums, buf: seq<byte>, a: u32, b: u32)
    requires Due(s, buf, 0, |buf|, a, b) && |buf| < 16
    ensures a < 131042 && b < 0x1000_0000
  {
    hide Plain, Most;
    assert buf[0..|buf|] == buf;
    PlainBound(s, buf);
    MostIs(|buf|);
    Product(|buf|, 16, s.a, 65535);
    Product(|buf|, 16, |buf| + 1, 16);
  }

  /** The sums go on from where their remainders were taken. */
  lemma TakenNext(s0: Sums, buf: seq<byte>, i: nat, a: u32, b: u32)
    requires Taken(s0, buf, i, a, b)
    ensures i <= |buf| && a < 65521 && b < 65521
    ensures Reduced(Sums(a as nat, b as nat)) == Modular(Reduced(s0), buf[..i])
  {
    hide Modular;
    ModularFits(Reduced(s0), buf[..i]);
  }

  /** From 16 bytes on: whole stretches, and then what is left. */
  method Long(ghost s: Sums, buf: seq<byte>, adler: u32, sum2: u32) returns (a: u32, b: u32)
    requires |buf| >= 16 && s == Sums(adler as nat, sum2 as nat) && s.a < 0x10000 && s.b < 0x10000
    ensures Taken(s, buf, |buf|, a, b)
  {
    hide Due, Modular, Taken;
    a, b := adler, sum2;
    var i := 0;
    TakeNone(s, buf);
    while |buf| - i >= NMAX
      invariant 0 <= i <= |buf| && a < 0x10000 && b < 0x10000
      invariant i == |buf| ==> Taken(s, buf, i, a, b)
      invariant Reduced(Sums(a as nat, b as nat)) == Modular(Reduced(s), buf[..i])
      decreases |buf| - i
    {
      a, b := Stretch(s, Sums(a as nat, b as nat), buf, i, a, b);
      i := i + NMAX;
      TakenNext(s, buf, i, a, b);
    }
    if i < |buf| {
      a, b := Rest(s, Sums(a as nat, b as nat), buf, i, a, b);
    }
  }

  /** The checksum to start with if there is no buffer; else that of the buffer, continued
      from adler: right for every checksum there can be before it, and otherwise as long
      as no single byte is added to it. */
  method Adler32Z(adler: nat, buffer: Buffer) returns (r: nat)
    ensures buffer == Null ==> r == Pack(Sums(1, 0)) == 1
    ensures buffer != Null ==> (r == Checksum(adler, buffer.data) <==> !Spoiled(adler, buffer.data))
    ensures r < 0x1_0000_0000
  {
    hide Modular, Taken;
    if buffer == Null { return 1; }
    r := AdlerBytes(adler, buffer.data);
  }

  method AdlerBytes(adler: nat, buf: seq<byte>) returns (r: nat)
    ensures r == Checksum(adler, buf) <==> !Spoiled(adler, buf)
    ensures r < 0x1_0000_0000
  {
    hide Modular, Taken, Pack;
    var sum2: u32, a: u32 := (adler / 0x10000 % 0x10000) as u32, (adler % 0x10000) as u32;
    if |buf| == 1 {
      ChecksumOne(adler, buf);
      r := Single(a, sum2, buf[0]);
      return;
    }
    if |buf| < 16 {
      a, sum2 := Short(Unpack(adler), buf, a, sum2);
    } else {
      a, sum2 := Long(Unpack(adler), buf, a, sum2);
    }
    r := a as nat + sum2 as nat * 0x10000;
    Whole(adler, buf, a, sum2);
  }

  lemma Whole(adler: nat, buf: seq<byte>, a: u32, b: u32)
    requires Taken(Unpack(adler), buf, |buf|, a, b)
    ensures a as nat + b as nat * 0x10000 == Checksum(adler, buf) < 0x1_0000_0000
  {
    hide Modular;
    assert buf[..|buf|] == buf;
    ModularFits(Reduced(Unpack(adler)), buf);
  }

  /** It happens: both sums all ones but for the last bits, and one byte of zero. */
  lemma SpoiledOnce()
    ensures Spoiled(0xffffffe3, [0]) && Checksum(0xffffffe3, [0]) == 0xffe3
  {
  }

  /** Checksums themselves are never spoiled. */
  lemma ChecksumsAreSound(adler: nat, d: seq<byte>, buf: seq<byte>)
    ensures !Spoiled(Checksum(adler, d), buf)
  {
    hide Modular;
    var s := Reduced(Unpack(adler));
    ModularFits(s, d);
    Unpacked(Modular(s, d));
  }

  // ------------------------------------------------------------ combination

  /** The sums of a whole from those of its parts. */
  lemma SumsOfSum(d: seq<byte>, e: seq<byte>)
    ensures Modular(Sums(1, 0), d + e) == Joined(Modular(Sums(1, 0), d), Modular(Sums(1, 0), e), |e|)
  {
    hide Modular, Plain;
    var one, zero := Sums(1, 0), Sums(0, 0);
    ReducedSame(one);
    ModularSum(one, d, e);
    ModularFits(one, d);
    var u, z := Modular(one, d), Plain(zero, e);
    ReducedSame(u);
    Deferred(u, e);
    Deferred(one, e);
    PlainShift(zero, u.a, u.b, e);
    PlainShift(zero, 1, 0, e);
    Less(u.a, z.a, 1);
    Less(u.b + |e| * u.a, z.b, |e|);
  }

  function Joined(u: Sums, v: Sums, n: nat): Sums {
    Sums((u.a + v.a + BASE - 1) % BASE, (u.b + n * u.a + v.b + BASE - n % BASE) % BASE)
  }

  /** What v was started with is taken off again. */
  lemma Less(u: nat, z: nat, n: nat)
    ensures (u + (z + n) % BASE + BASE - n % BASE) % BASE == (z + u) % BASE
  {
    var q, k := (z + n) / BASE, n / BASE;
    assert z + n == (z + n) % BASE + q * BASE && n == n % BASE + k * BASE;
    var r := u + (z + n) % BASE + BASE - n % BASE;
    assert r + q * BASE == z + u + (k + 1) * BASE;
    Multiple(r, q);
    Multiple(z + u, k + 1);
  }

  lemma UnpackFits(adler: nat)
    ensures Unpack(adler).a < 0x10000 && Unpack(adler).b < 0x10000
  {
  }

  lemma WordProduct(a: nat, b: nat)
    requires a < 0x10000 && b < 0x10000
    ensures 0 <= a * b < 0x1_0000_0000
  {
    Product(a, 0xffff, b, 0xffff);
    Product(0, a, 0, b);
  }

  /** At most two, or three, bases too much: the code subtracts them one by one. */
  lemma Brought(x: nat)
    ensures x < 3 * BASE ==> x % BASE == (if x >= 2 * BASE then x - 2 * BASE else if x >= BASE then x - BASE else x)
    ensures x < 4 * BASE ==>
      (var y := if x >= 2 * BASE then x - 2 * BASE else x; x % BASE == if y >= BASE then y - BASE else y)
  {
  }

  /** The sums of the whole as the code comes by them. */
  function Assembled(u: Sums, v: Sums, m: nat): nat
    requires m <= BASE
  {
    Pack(Sums((u.a + v.a + BASE - 1) % BASE, (m * u.a % BASE + u.b + v.b + BASE - m) % BASE))
  }

  lemma FromStart(d: seq<byte>)
    ensures var u := Unpack(Checksum(1, d));
      u == Modular(Sums(1, 0), d) && u.a < BASE && u.b < BASE && Checksum(1, d) == Pack(u)
  {
    hide Modular;
    OneIsOne();
    ModularFits(Sums(1, 0), d);
    Unpacked(Modular(Sums(1, 0), d));
  }

  lemma AssembledIsJoined(u: Sums, v: Sums, n: nat)
    ensures Pack(Joined(u, v, n)) == Assembled(u, v, n % BASE)
  {
    var m, c := n % BASE, u.b + v.b + BASE - n % BASE;
    FactorMod(n, m, u.a, c);
    assert u.b + n * u.a + v.b + BASE - m == n * u.a + c;
    assert m * u.a % BASE + u.b + v.b + BASE - m == m * u.a % BASE + c;
  }

  lemma Combined(d: seq<byte>, e: seq<byte>)
    ensures Checksum(1, d + e) == Assembled(Unpack(Checksum(1, d)), Unpack(Checksum(1, e)), |e| % BASE)
  {
    hide Modular, Checksum, Unpack, Joined, Assembled;
    FromStart(d);
    FromStart(e);
    FromStart(d + e);
    SumsOfSum(d, e);
    AssembledIsJoined(Modular(Sums(1, 0), d), Modular(Sums(1, 0), e), |e|);
  }

  lemma OneIsOne()
    ensures Reduced(Unpack(1)) == Sums(1, 0)
  {
  }

  lemma FactorMod(n: nat, m: nat, a: nat, c: nat)
    requires m == n % BASE
    ensures (m * a % BASE + c) % BASE == (n * a + c) % BASE
  {
    var q := n / BASE;
    assert n * a == m * a + q * a * BASE by { assert n == m + q * BASE; }
    AddMod(m * a, c);
    Multiple(m * a + c, q * a);
  }

  method BringFirst(x: u32) returns (r: u32)
    ensures x < 3 * 65521 ==> r as nat == x as nat % BASE
  {
    Brought(x as nat);
    r := x;
    if r >= 65521 { r := r - 65521; }
    if r >= 65521 { r := r - 65521; }
  }

  method BringSecond(x: u32) returns (r: u32)
    ensures x < 4 * 65521 ==> r as nat == x as nat % BASE
  {
    Brought(x as nat);
    r := x;
    if r >= 131042 { r := r - 131042; }
    if r >= 65521 { r := r - 65521; }
  }

  method Assemble(u: Sums, v: Sums, rem: u32) returns (r: nat)
    requires u.a < 0x10000 && u.b < 0x10000 && v.a < 0x10000 && v.b < 0x10000 && rem < 65521
    ensures u.a < BASE && u.b < BASE && v.a < BASE && v.b < BASE ==> r == Assembled(u, v, rem as nat)
  {
    WordProduct(rem as nat, u.a);
    var sum1, sum2 := u.a as u32, rem * u.a as u32;
    sum2 := Mod(sum2);
    sum1 := sum1 + (v.a as u32 + 65521 - 1);
    sum2 := sum2 + (u.b as u32 + v.b as u32 + 65521 - rem);
    sum1 := BringFirst(sum1);
    sum2 := BringSecond(sum2);
    r := sum1 as nat + sum2 as nat * 0x10000;
  }

  /** From the checksums of two buffers, that of both together. */
  method Combine(adler1: nat, adler2: nat, len2: int) returns (r: nat)
    requires -0x8000_0000_0000_0000 <= len2 < 0x8000_0000_0000_0000
    ensures len2 < 0 ==> r == 0xffffffff
    ensures forall d, e :: adler1 == Checksum(1, d) && adler2 == Checksum(1, e) && |e| == len2 ==>
      r == Checksum(1, d + e)
  {
    hide Checksum, Unpack, Modular, Assembled;
    if len2 < 0 { return 0xffffffff; }
    UnpackFits(adler1);
    UnpackFits(adler2);
    var rem := Mod63(len2);
    r := Assemble(Unpack(adler1), Unpack(adler2), rem as u32);
    forall d, e | adler1 == Checksum(1, d) && adler2 == Checksum(1, e) && |e| == len2 ensures r == Checksum(1, d + e) {
      Combined(d, e);
      FromStart(d);
      FromStart(e);
    }
  }
}
