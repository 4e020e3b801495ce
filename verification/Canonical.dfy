/** The canonical Huffman code of RFC 1951 section 3.2.2, defined from code lengths
alone and independently of either side of the codec. */
module Canonical {
  import opened Bits

  /** No code of deflate is longer than this (MAX_BITS, MAXBITS). */
  const MAXBITS := 15

  /** How many entries of s equal v. */
  function Count(s: seq<nat>, v: nat): nat {
    if |s| == 0 then 0
    else Count(s[..|s| - 1], v) + (if s[|s| - 1] == v then 1 else 0)
  }

  predicate ValidLengths(lens: seq<nat>) {
    forall i :: 0 <= i < |lens| ==> lens[i] <= MAXBITS
  }

  /** Kraft sum of the codes no longer than n bits, in units of 2^-n. */
  function Used(lens: seq<nat>, n: nat): nat {
    if n == 0 then 0 else 2 * Used(lens, n - 1) + Count(lens, n)
  }

  ghost predicate NotOversubscribed(lens: seq<nat>) {
    Used(lens, MAXBITS) <= Pow2(MAXBITS)
  }

  ghost predicate Complete(lens: seq<nat>) {
    Used(lens, MAXBITS) == Pow2(MAXBITS)
  }

  /** Step 2 of section 3.2.2: the numerically smallest code of n bits. */
  function FirstCode(lens: seq<nat>, n: nat): nat {
    if n == 0 then 0
    else 2 * (FirstCode(lens, n - 1) + (if n == 1 then 0 else Count(lens, n - 1)))
  }

  /** Step 3: consecutive values for all codes of one length, in symbol order. */
  function CodeOf(lens: seq<nat>, s: nat): nat
    requires s < |lens|
  {
    FirstCode(lens, lens[s]) + Count(lens[..s], lens[s])
  }

  /** The code as it travels: most significant bit first, so reversed. */
  function Word(lens: seq<nat>, s: nat): nat
    requires s < |lens|
  {
    Rev(lens[s], CodeOf(lens, s))
  }

  /** The upcoming bits h (least significant first) begin with the code of s. */
  ghost predicate Matches(lens: seq<nat>, s: nat, h: nat) {
    s < |lens| && lens[s] != 0 && Low(h, lens[s]) == Word(lens, s)
  }

  /** s comes before t when the codes are listed by length, then by symbol. */
  ghost predicate Before(lens: seq<nat>, s: nat, t: nat)
    requires s < |lens| && t < |lens|
  {
    lens[s] < lens[t] || (lens[s] == lens[t] && s < t)
  }

  // ---------------------------------------------------------------- counting

  lemma {:induction false} CountBound(s: seq<nat>, v: nat)
    ensures Count(s, v) <= |s|
  {
    if |s| > 0 {
      CountBound(s[..|s| - 1], v);
    }
  }

  lemma CountSnoc(s: seq<nat>, n: nat, v: nat)
    requires n < |s|
    ensures Count(s[..n + 1], v) == Count(s[..n], v) + (if s[n] == v then 1 else 0)
  {
    assert s[..n + 1][..n] == s[..n];
  }

  lemma {:induction false} CountMono(s: seq<nat>, i: nat, j: nat, v: nat)
    requires i <= j <= |s|
    ensures Count(s[..i], v) <= Count(s[..j], v)
    ensures i < j && s[i] == v ==> Count(s[..i], v) < Count(s[..j], v)
    decreases j
  {
    if i < j {
      CountSnoc(s, j - 1, v);
      CountMono(s, i, j - 1, v);
    }
  }

  /** A code is one of the Count codes of its length. */
  lemma RankBound(lens: seq<nat>, s: nat)
    requires s < |lens|
    ensures Count(lens[..s], lens[s]) < Count(lens, lens[s])
  {
    CountMono(lens, s, |lens|, lens[s]);
    assert lens[..|lens|] == lens;
  }

  /** The symbol with a given length and rank exists. */
  lemma {:induction false} SelectExists(s: seq<nat>, v: nat, r: nat) returns (i: nat)
    requires r < Count(s, v)
    ensures i < |s| && s[i] == v && Count(s[..i], v) == r
  {
    var n := |s| - 1;
    if s[n] == v && Count(s[..n], v) == r {
      i := n;
    } else {
      i := SelectExists(s[..n], v, r);
      assert s[..n][..i] == s[..i];
    }
  }

  // ------------------------------------------------------------- the intervals

  lemma {:induction false} FirstCodeUsed(lens: seq<nat>, n: nat)
    requires n >= 1
    ensures FirstCode(lens, n) == 2 * Used(lens, n - 1)
    ensures FirstCode(lens, n) + Count(lens, n) == Used(lens, n)
  {
    if n > 1 {
      FirstCodeUsed(lens, n - 1);
    }
  }

  lemma {:induction false} UsedGrows(lens: seq<nat>, a: nat, b: nat)
    requires a <= b
    ensures Used(lens, a) * Pow2(b - a) <= Used(lens, b)
    decreases b
  {
    if a < b {
      UsedGrows(lens, a, b - 1);
      assert b - a - 1 == b - 1 - a;
      TimesDouble(Used(lens, a), Pow2(b - 1 - a));
    }
  }

  /** No prefix of a code that is not oversubscribed is oversubscribed. */
  lemma UsedFits(lens: seq<nat>, n: nat)
    requires n <= MAXBITS && NotOversubscribed(lens)
    ensures Used(lens, n) <= Pow2(n)
  {
    UsedGrows(lens, n, MAXBITS);
    Pow2Sum(n, MAXBITS - n);
    MulCancel(Used(lens, n), Pow2(n), Pow2(MAXBITS - n));
  }

  lemma MulCancel(a: nat, b: nat, d: nat)
    requires d > 0 && a * d <= b * d
    ensures a <= b
  {
    MulBound(a - b, d);
  }

  /** Every code fits in its length. */
  lemma CodeFits(lens: seq<nat>, s: nat)
    requires s < |lens| && 1 <= lens[s] <= MAXBITS && NotOversubscribed(lens)
    ensures CodeOf(lens, s) < Used(lens, lens[s]) <= Pow2(lens[s])
  {
    RankBound(lens, s);
    FirstCodeUsed(lens, lens[s]);
    UsedFits(lens, lens[s]);
  }

  /** Reading h from its top: the lens[s] leading bits of the reversed window. */
  lemma MatchesTop(lens: seq<nat>, s: nat, h: nat)
    requires s < |lens| && 1 <= lens[s] <= MAXBITS && NotOversubscribed(lens)
    ensures Matches(lens, s, h) <==> Shr(Rev(MAXBITS, h), MAXBITS - lens[s]) == CodeOf(lens, s)
  {
    var l := lens[s];
    RevTop(MAXBITS, l, h);
    RevLow(l, h);
    CodeFits(lens, s);
    LowIdentity(CodeOf(lens, s), l);
    RevRev(l, CodeOf(lens, s));
    LowIdentity(Low(h, l), l);
    RevRev(l, Low(h, l));
  }

  /** The window positions of s lie before those of any later t. */
  lemma IntervalsOrdered(lens: seq<nat>, s: nat, t: nat)
    requires s < |lens| && t < |lens| && Before(lens, s, t)
    requires 1 <= lens[s] && lens[t] <= MAXBITS && NotOversubscribed(lens)
    ensures (CodeOf(lens, s) + 1) * Pow2(lens[t] - lens[s]) <= CodeOf(lens, t)
  {
    hide Used, Count, FirstCode, Pow2, NotOversubscribed;
    if lens[s] == lens[t] {
      CountMono(lens, s, t, lens[s]);
      PowZero();
    } else {
      LongerAfter(lens, s, t);
    }
  }

  lemma LongerAfter(lens: seq<nat>, s: nat, t: nat)
    requires s < |lens| && t < |lens| && 1 <= lens[s] < lens[t]
    ensures (CodeOf(lens, s) + 1) * Pow2(lens[t] - lens[s]) <= CodeOf(lens, t)
  {
    hide Used, Count, FirstCode, Pow2;
    var a, b := lens[s], lens[t];
    RankBound(lens, s);
    FirstCodeUsed(lens, a);
    FirstCodeUsed(lens, b);
    UsedGrows(lens, a, b - 1);
    PowStep(b - a);
    assert b - a - 1 == b - 1 - a;
    ScaleDouble(CodeOf(lens, s) + 1, Used(lens, a), Pow2(b - 1 - a));
  }

  lemma ScaleDouble(c: nat, u: nat, p: nat)
    requires c <= u
    ensures c * (2 * p) <= 2 * (u * p)
  {
    MulMono(c, u, 2 * p);
  }

  /** No code is a prefix of another: at most one symbol matches. */
  lemma PrefixFree(lens: seq<nat>, s: nat, t: nat, h: nat)
    requires NotOversubscribed(lens) && ValidLengths(lens)
    requires Matches(lens, s, h) && Matches(lens, t, h)
    ensures s == t
  {
    if s != t {
      if Before(lens, s, t) {
        PrefixFreeOrdered(lens, s, t, h);
      } else {
        PrefixFreeOrdered(lens, t, s, h);
      }
    }
  }

  lemma PrefixFreeOrdered(lens: seq<nat>, s: nat, t: nat, h: nat)
    requires NotOversubscribed(lens) && ValidLengths(lens)
    requires s < |lens| && t < |lens| && Before(lens, s, t)
    requires Matches(lens, s, h)
    ensures !Matches(lens, t, h)
  {
    hide CodeOf, Rev, Shr, Pow2, NotOversubscribed, Matches;
    if lens[t] == 0 {
      NoneMatches(lens, t, h);
      return;
    }
    MatchesCode(lens, s, h);
    var a, b, p := lens[s], lens[t], Rev(MAXBITS, h);
    MatchesTop(lens, s, h);
    MatchesTop(lens, t, h);
    IntervalsOrdered(lens, s, t);
    ShrShr(p, MAXBITS - b, b - a);
    assert MAXBITS - b + (b - a) == MAXBITS - a;
    ShrLess(Shr(p, MAXBITS - b), b - a, CodeOf(lens, s) + 1);
  }

  lemma NoneMatches(lens: seq<nat>, t: nat, h: nat)
    requires t < |lens| && lens[t] == 0
    ensures !Matches(lens, t, h)
  {
  }

  lemma MatchesCode(lens: seq<nat>, s: nat, h: nat)
    requires s < |lens| && Matches(lens, s, h)
    ensures lens[s] != 0
  {
  }

  /** A complete code leaves no window unmatched. */
  lemma CompleteCovers(lens: seq<nat>, h: nat) returns (s: nat)
    requires Complete(lens) && ValidLengths(lens)
    ensures Matches(lens, s, h)
  {
    var p := Rev(MAXBITS, h);
    var n := FirstAbove(lens, p, MAXBITS);
    var c := Shr(p, MAXBITS - n);
    FirstCodeUsed(lens, n);
    ShrLess(p, MAXBITS - n, Used(lens, n));
    ShrLess(p, MAXBITS - (n - 1), Used(lens, n - 1));
    ShrShr(p, MAXBITS - n, 1);
    assert MAXBITS - n + 1 == MAXBITS - (n - 1);
    assert Shr(c, 1) == Shr(c / 2, 0);
    s := SelectExists(lens, n, c - FirstCode(lens, n));
    MatchesTop(lens, s, h);
  }

  /** The least length by which the codes reach past position p. */
  lemma {:induction false} FirstAbove(lens: seq<nat>, p: nat, m: nat) returns (n: nat)
    requires m <= MAXBITS && p < Used(lens, m) * Pow2(MAXBITS - m)
    ensures 1 <= n <= MAXBITS
    ensures p < Used(lens, n) * Pow2(MAXBITS - n)
    ensures p >= Used(lens, n - 1) * Pow2(MAXBITS - (n - 1))
    decreases m
  {
    if p < Used(lens, m - 1) * Pow2(MAXBITS - (m - 1)) {
      n := FirstAbove(lens, p, m - 1);
    } else {
      n := m;
    }
  }

  /** Lengths nobody uses only scale the sum. */
  lemma {:induction false} UsedJump(lens: seq<nat>, a: nat, b: nat)
    requires a <= b && forall l :: a < l <= b ==> Count(lens, l) == 0
    ensures Used(lens, b) == Used(lens, a) * Pow2(b - a)
    decreases b
  {
    if a < b {
      UsedJump(lens, a, b - 1);
      assert b - a - 1 == b - 1 - a;
      TimesDouble(Used(lens, a), Pow2(b - 1 - a));
    }
  }

  lemma {:induction false} NoneOf(lens: seq<nat>, l: nat)
    requires forall i :: 0 <= i < |lens| ==> lens[i] != l
    ensures Count(lens, l) == 0
  {
    if |lens| > 0 { NoneOf(lens[..|lens| - 1], l); }
  }
}
