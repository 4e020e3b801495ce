/** inflate.c: the bit accumulator, and table lookups with only some of the bits at hand. */
module InflateBits {
  import opened Bits
  import opened Canonical
  import opened BitStream
  import opened TableSpace
  import opened InfTrees
  import opened InflateSpec
  import opened InflateChunks

  /** hold has the bits of the bytes pulled so far from position pos on. */
  ghost predicate Accumulated(hold: nat, bits: nat, fed: seq<byte>, pos: nat) {
    pos + bits == 8 * |fed| && hold == FromBits(BytesToBits(fed)[pos..])
  }

  lemma {:induction false} FromBitsConcat(a: seq<bool>, b: seq<bool>)
    ensures FromBits(a + b) == FromBits(a) + FromBits(b) * Pow2(|a|)
  {
    FromBitsPrefix(a + b, |a|);
    assert (a + b)[..|a|] == a && (a + b)[|a|..] == b;
    Split(FromBits(a + b), |a|);
  }

  /** PULLBYTE */
  /** A byte above the bits held. */
  function Placed(b: nat, bits: nat): nat {
    b * Pow2(bits)
  }

  lemma Pulled(hold: nat, bits: nat, fed: seq<byte>, pos: nat, b: byte)
    requires Accumulated(hold, bits, fed, pos)
    ensures Accumulated(hold + b * Pow2(bits), bits + 8, fed + [b], pos)
  {
    hide FromBits, ToBits, BytesToBits, Pow2;
    var s := BytesToBits(fed);
    BytesToBitsSnoc(fed, b);
    assert (s + ToBits(b, 8))[pos..] == s[pos..] + ToBits(b, 8);
    FromBitsConcat(s[pos..], ToBits(b, 8));
    FromToBits(b, 8);
    Pow2Values();
    LowIdentity(b, 8);
  }

  /** DROPBITS */
  lemma Dropped(hold: nat, bits: nat, fed: seq<byte>, pos: nat, n: nat)
    requires Accumulated(hold, bits, fed, pos) && n <= bits
    ensures Accumulated(Shr(hold, n), bits - n, fed, pos + n)
  {
    hide FromBits, BytesToBits, Pow2, Shr;
    var x := BytesToBits(fed)[pos..];
    FromBitsPrefix(x, n);
    assert x[n..] == BytesToBits(fed)[pos + n..];
  }

  /** BITS */
  lemma Peeked(hold: nat, bits: nat, fed: seq<byte>, pos: nat, t: seq<bool>, n: nat)
    requires Accumulated(hold, bits, fed, pos) && n <= bits && BytesToBits(fed) <= t
    ensures pos + n <= |t| && Low(hold, n) == Field(t, pos, n)
  {
    hide FromBits, BytesToBits, Pow2, Low;
    var s := BytesToBits(fed);
    FromBitsPrefix(s[pos..], n);
    assert s[pos..][..n] == t[pos..pos + n] by { assert s == t[..|s|]; }
  }

  /** BITS and DROPBITS of one field. */
  lemma Taken(hold: nat, bits: nat, fed: seq<byte>, pos: nat, t: seq<bool>, n: nat)
    requires Accumulated(hold, bits, fed, pos) && n <= bits && BytesToBits(fed) <= t
    ensures Accumulated(Shr(hold, n), bits - n, fed, pos + n)
    ensures pos + n <= |t| && Low(hold, n) == Field(t, pos, n) < Pow2(n)
  {
    hide FromBits, BytesToBits, Pow2, Accumulated, Shr, Low, Field;
    Peeked(hold, bits, fed, pos, t, n);
    Dropped(hold, bits, fed, pos, n);
  }

  /** What is held fits in the bits counted. */
  lemma HoldBound(hold: nat, bits: nat, fed: seq<byte>, pos: nat)
    requires Accumulated(hold, bits, fed, pos)
    ensures hold < Pow2(bits)
  {
  }

  /** Giving back whole bytes not used. */
  lemma Returned(hold: nat, bits: nat, fed: seq<byte>, pos: nat, k: nat)
    requires Accumulated(hold, bits, fed, pos) && 8 * k <= bits
    ensures k <= |fed| && Accumulated(Low(hold, bits - 8 * k), bits - 8 * k, fed[..|fed| - k], pos)
  {
    hide FromBits, BytesToBits, Pow2, Low;
    var n := |fed| - k;
    assert fed[..n] + fed[n..] == fed;
    BytesToBitsConcat(fed[..n], fed[n..]);
    var s, t := BytesToBits(fed), BytesToBits(fed[..n]);
    FromBitsPrefix(s[pos..], bits - 8 * k);
    assert s[pos..][..bits - 8 * k] == t[pos..];
  }

  /** The entry a window leads to, through the second level if there is one. */
  ghost function Lookup(t: seq<Code>, root: nat, h: nat): Code {
    if Low(h, root) >= |t| then Code(INVALID_CODE, 1, 0)
    else
      var e0 := t[Low(h, root)];
      if IsLink(e0) && e0.val + Low(Shr(h, root), e0.op) < |t| then
        var e1 := t[e0.val + Low(Shr(h, root), e0.op)];
        Code(e1.op, root + e1.bits, e1.val)
      else e0
  }

  lemma LookupResolves(t: seq<Code>, root: nat, h: nat, e: Code)
    requires Resolves(t, root, h, e)
    ensures Lookup(t, root, h) == e && Low(h, root) < |t|
    ensures var e0 := t[Low(h, root)];
      IsLink(e0) ==> e0.bits == root && e0.val + Low(Shr(h, root), e0.op) < |t|
  {
  }

  /** With incomplete codes no length is above one. */
  lemma UnmatchedShort(t: CodeType, lens: seq<nat>, h: nat)
    requires Acceptable(t, lens) && ValidLengths(lens) && !Matched(lens, h)
    ensures MaxLen(lens) <= 1
  {
    hide Used;
    if Complete(lens) {
      var s := CompleteCovers(lens, h);
    } else if MaxLen(lens) > 0 {
      var i :| 0 <= i < |lens| && lens[i] == MaxLen(lens);
    }
  }

  /** The entry found with the bits held is the one of the code that comes next if enough
      bits are held for it; if not, and there are no more, nothing can be decoded. */
  lemma LookupDecides(ct: CodeType, lens: seq<nat>, t: seq<Code>, root: nat, hold: nat, bits: nat, fed: seq<byte>,
                      pos: nat, s: seq<bool>)
    requires Prefix(ct, lens) && Acceptable(ct, lens) && Decodes(t, root, ct, lens)
    requires Accumulated(hold, bits, fed, pos) && BytesToBits(fed) <= s
    ensures Low(hold, root) < |t| && 1 <= Lookup(t, root, hold).bits <= MAXBITS
    ensures var e0 := t[Low(hold, root)];
      IsLink(e0) ==> e0.bits == root && e0.val + Low(Shr(hold, root), e0.op) < |t|
    ensures Lookup(t, root, hold).bits <= bits ==> Decode(ct, lens, s, pos) == Some(Lookup(t, root, hold))
    ensures Lookup(t, root, hold).bits > bits ==> Decode(ct, lens, BytesToBits(fed), pos) == None
  {
    hide SymOf, MaxLen, Acceptable, NotOversubscribed, BytesToBits, FromBits, Low, Shr, Resolves, Lookup;
    var b := BytesToBits(fed);
    HeldDecides(ct, lens, t, root, hold, bits, b, pos);
    if Lookup(t, root, hold).bits <= bits {
      assert b + s[|b|..] == s;
      DecodeStable(ct, lens, b, s[|b|..], pos);
    }
  }

  lemma HeldDecides(ct: CodeType, lens: seq<nat>, t: seq<Code>, root: nat, hold: nat, bits: nat, b: seq<bool>, pos: nat)
    requires Prefix(ct, lens) && Acceptable(ct, lens) && Decodes(t, root, ct, lens)
    requires pos + bits == |b| && hold == FromBits(b[pos..])
    ensures Low(hold, root) < |t| && 1 <= Lookup(t, root, hold).bits <= MAXBITS
    ensures var e0 := t[Low(hold, root)];
      IsLink(e0) ==> e0.bits == root && e0.val + Low(Shr(hold, root), e0.op) < |t|
    ensures Decode(ct, lens, b, pos) == if Lookup(t, root, hold).bits <= bits then Some(Lookup(t, root, hold)) else None
  {
    hide SymOf, MaxLen, Acceptable, NotOversubscribed, FromBits, Low, Shr, Resolves, Lookup, Word;
    if c: nat :| Matches(lens, c, hold) {
      LookupResolves(t, root, hold, Entry(SymOf(ct, c), lens[c]));
      if lens[c] <= bits {
        DecodeIs(ct, lens, b, pos, c);
      } else {
        forall d: nat | Matches(lens, d, hold) ensures d == c { PrefixFree(lens, d, c, hold); }
      }
    } else {
      LookupResolves(t, root, hold, Code(INVALID_CODE, 1, 0));
      UnmatchedShort(ct, lens, hold);
    }
  }
}
