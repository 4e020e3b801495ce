/** inflate.c: what the fields of inflate's state say about the state of InflateSpec. */
module InflateState {
  import opened Bits
  import opened Canonical
  import opened BitStream
  import opened Format
  import opened FixedCodes
  import opened InfTrees
  import opened InflateSpec
  import opened InflateBits

  const WSIZE := 32768

  /** The window ends with the history: w[wnext - 1] is its last byte, and so on back. */
  ghost predicate Circular(w: seq<byte>, wnext: nat, whave: nat, hist: seq<byte>) {
    && |w| > 0 && wnext < |w| && whave == (if |hist| < |w| then |hist| else |w|) && (whave < |w| ==> wnext == whave)
    && (forall p {:trigger w[p]} :: 0 <= p < wnext ==> w[p] == hist[|hist| - wnext + p])
    && (whave == |w| ==> forall p {:trigger w[p]} :: wnext <= p < |w| ==> w[p] == hist[|hist| - wnext - |w| + p])
  }

  /** The window holds the history; it is not in use before there is any. */
  ghost predicate History(wsize: nat, whave: nat, wnext: nat, w: seq<byte>, hist: seq<byte>) {
    (wsize == 0 && whave == 0 && hist == []) || (wsize == |w| == WSIZE && Circular(w, wnext, whave, hist))
  }

  /** The tables at start decode the code with the given lengths. */
  ghost predicate TableFor(ct: CodeType, tab: seq<Code>, start: nat, bits: nat, lens: seq<nat>) {
    && start <= |tab| && |lens| <= MaxSymbols(ct) && Acceptable(ct, lens) && Decodes(tab[start..], bits, ct, lens)
    && (ct == CODES ==> Direct(tab[start..], bits))
  }

  /** The fixed tables, built on first use in the source. */
  ghost predicate FixedTable(tab: seq<Code>) {
    && |tab| >= 544 && Decodes(tab[0..512], 9, LENS, FixedLitLens())
    && Decodes(tab[512..544], 5, DISTS, FixedDistLens())
  }

  /** The modes between the symbols of a block and within them. */
  predicate Symbolic(mode: Mode) {
    mode in {LEN, LENEXT, DIST, DISTEXT, MATCH, LIT}
  }

  /** hold has the bits not consumed of the bytes pulled, which begin the input t. */
  ghost predicate Held(hold: nat, bits: nat, fed: seq<byte>, a: State, t: seq<bool>) {
    Accumulated(hold, bits, fed, a.pos) && BytesToBits(fed) <= t && WellFormed(a, t)
  }

  /** k steps from a lead to b. */
  ghost predicate Reaches(a: State, b: State, t: seq<bool>, m: nat, k: nat)
    decreases k
  {
    WellFormed(a, t) && if k == 0 then a == b else
      Step(a, t, m).Some? && Reaches(Step(a, t, m).value, b, t, m, k - 1)
  }

  /** A number of steps from a, at least one, lead to b, so both run to the same end. */
  ghost predicate Moved(a: State, b: State, t: seq<bool>, m: nat) {
    && WellFormed(a, t) && WellFormed(b, t) && Run(b, t, m) == Run(a, t, m) && Decreases(a, b)
    && exists k: nat :: k > 0 && Reaches(a, b, t, m, k)
  }

  lemma {:induction false} ReachesOn(a: State, b: State, c: State, t: seq<bool>, m: nat, k: nat, l: nat)
    requires Reaches(a, b, t, m, k) && Reaches(b, c, t, m, l)
    ensures Reaches(a, c, t, m, k + l)
    decreases k
  {
    hide WellFormed, Step;
    if k > 0 { ReachesOn(Step(a, t, m).value, b, c, t, m, k - 1, l); }
  }

  /** No step can be made. */
  ghost predicate Stuck(a: State, t: seq<bool>, m: nat) {
    WellFormed(a, t) && Step(a, t, m).None?
  }

  lemma MovedOn(a: State, b: State, c: State, t: seq<bool>, m: nat)
    requires Moved(a, b, t, m) && Moved(b, c, t, m)
    ensures Moved(a, c, t, m)
  {
    hide WellFormed, Run, Reaches;
    var k: nat :| k > 0 && Reaches(a, b, t, m, k);
    var l: nat :| l > 0 && Reaches(b, c, t, m, l);
    ReachesOn(a, b, c, t, m, k, l);
  }

  /** One step. */
  lemma Moves(a: State, b: State, t: seq<bool>, m: nat)
    requires WellFormed(a, t) && Step(a, t, m) == Some(b)
    ensures Moved(a, b, t, m)
  {
    hide WellFormed, Step;
    assert Reaches(b, b, t, m, 0);
    assert Reaches(a, b, t, m, 1);
  }

  /** Bytes are pulled one at a time and only when needed. */
  ghost predicate Tight(bits: nat, a: State, fed: seq<byte>) {
    && bits <= 32 && (a.mode != BAD ==> bits < 32) && (a.mode == COPY ==> bits == 0)
    && a.pos <= |BytesToBits(fed)| && WellFormed(a, BytesToBits(fed))
    && (bits < 8 || a.mode == BAD || Step(a, BytesToBits(fed), |a.out| + 1).None?)
  }

  /** Fields that matter in some modes only. */
  ghost predicate Scratch(a: State, length: nat, offset: nat, extra: nat) {
    && (a.mode in {COPY, LENEXT, DIST, DISTEXT, MATCH, LIT} ==> length == a.length)
    && (a.mode in {LENEXT, DISTEXT} ==> extra == a.extra)
    && (a.mode in {DISTEXT, MATCH} ==> offset == a.offset)
    && (a.mode == LENEXT ==> extra <= 5 && 3 <= length && length + Pow2(extra) <= 259)
    && (a.mode in {DIST, DISTEXT} ==> 3 <= length <= 258)
    && (a.mode == DISTEXT ==> extra <= 13 && 1 <= offset && offset + Pow2(extra) <= 32769)
    && (a.mode == MATCH ==> 1 <= length <= 258 && 1 <= offset <= 32768)
    && (a.mode == LIT ==> length < 256)
  }

  /** The code lengths read so far. */
  ghost predicate Gathered(a: State, nlen: nat, ndist: nat, ncode: nat, have: nat, lens: seq<nat>) {
    && (a.mode in {LENLENS, CODELENS} ==> nlen == a.nlen && ndist == a.ndist && ncode == a.ncode && have == |a.lens|)
    && (a.mode == LENLENS ==> InOrder(a, have, lens))
    && (a.mode == CODELENS ==> have <= |lens| && lens[..have] == a.lens)
  }

  ghost predicate InOrder(a: State, have: nat, lens: seq<nat>)
    requires have == |a.lens|
  {
    |lens| >= 19 && have <= 19 && forall i {:trigger BL_ORDER[i]} :: 0 <= i < have ==> lens[BL_ORDER[i]] == a.lens[i]
  }

  /** A length of the bit length code put in its place. */
  lemma GatherOne(a: State, nlen: nat, ndist: nat, ncode: nat, have: nat, lens: seq<nat>, v: nat)
    requires a.mode == LENLENS && Gathered(a, nlen, ndist, ncode, have, lens) && have < 19
    ensures BL_ORDER[have] < 19 <= |lens|
    ensures Gathered(a.(pos := a.pos + 3, lens := a.lens + [v]), nlen, ndist, ncode, have + 1,
      lens[BL_ORDER[have] := v])
  {
    OrderDistinct(have);
  }

  lemma HaveLens(a: State, nlen: nat, ndist: nat, ncode: nat, have: nat, lens: seq<nat>)
    requires a.mode in {LENLENS, CODELENS} && Gathered(a, nlen, ndist, ncode, have, lens)
    ensures have == |a.lens| && nlen == a.nlen && ndist == a.ndist && ncode == a.ncode
  {
  }

  lemma OrderDistinct(n: nat)
    requires n < 19
    ensures BL_ORDER[n] < 19 && forall i {:trigger BL_ORDER[i]} :: 0 <= i < n ==> BL_ORDER[i] != BL_ORDER[n]
  {
  }

  lemma TightNow(bits: nat, a: State, fed: seq<byte>, t: seq<bool>)
    requires bits < 8 && (a.mode == COPY ==> bits == 0) && WellFormed(a, t) && a.pos <= |BytesToBits(fed)|
    ensures Tight(bits, a, fed)
  {
    hide BytesToBits, Prefix, Step;
  }

  /** Whatever is left to do needs more than a byte that is held. */
  lemma TightWaits(bits: nat, a: State, fed: seq<byte>, t: seq<bool>)
    requires bits < 32 && (a.mode == COPY ==> bits == 0) && WellFormed(a, t) && BytesToBits(fed) == t
    requires Step(a, t, |a.out| + 1).None?
    ensures Tight(bits, a, fed)
  {
  }

  lemma TightBad(bits: nat, a: State, fed: seq<byte>, t: seq<bool>)
    requires bits <= 32 && a.mode == BAD && WellFormed(a, t) && a.pos <= |BytesToBits(fed)|
    ensures Tight(bits, a, fed)
  {
    hide BytesToBits, Prefix, Step;
  }

  lemma TightBits(bits: nat, a: State, fed: seq<byte>)
    requires Tight(bits, a, fed)
    ensures bits <= 32 && (a.mode != BAD ==> bits < 32) && (a.mode == COPY ==> bits == 0)
    ensures a.mode in {DONE, BAD, CODELENS, LEN, DIST} || bits < 32
    ensures WellFormed(a, BytesToBits(fed))
    ensures (bits < 8 || a.mode == BAD || Step(a, BytesToBits(fed), |a.out| + 1).None?)
  {
    hide BytesToBits, WellFormed, Step;
  }

  /** The fixed tables serve the fixed codes. */
  lemma FixedReady(tab: seq<Code>)
    requires FixedTable(tab)
    ensures TableFor(LENS, tab, 0, 9, FixedLitLens()) && TableFor(DISTS, tab, 512, 5, FixedDistLens())
  {
    hide Decodes, Acceptable, FixedLitLens, FixedDistLens;
    DecodesMore(tab[0..], 512, 9, LENS, FixedLitLens());
    assert tab[512..][..32] == tab[512..544];
    DecodesMore(tab[512..], 32, 5, DISTS, FixedDistLens());
    FixedAcceptable();
  }

  /** What follows a table does not matter. */
  lemma DecodesMore(tab: seq<Code>, used: nat, bits: nat, ct: CodeType, lens: seq<nat>)
    requires used <= |tab| && |lens| <= MaxSymbols(ct) && Decodes(tab[..used], bits, ct, lens)
    ensures Decodes(tab, bits, ct, lens)
  {
    hide Matches, Matched, SymOf;
    forall h: nat, e | Resolves(tab[..used], bits, h, e)
      ensures Resolves(tab, bits, h, e)
    {
      ResolvesMore(tab, used, bits, h, e);
    }
  }

  lemma ResolvesMore(tab: seq<Code>, used: nat, bits: nat, h: nat, e: Code)
    requires used <= |tab| && Resolves(tab[..used], bits, h, e)
    ensures Resolves(tab, bits, h, e)
  {
    hide Low, Shr, Pow2;
  }

  lemma FixedAcceptable()
    ensures Acceptable(LENS, FixedLitLens()) && Acceptable(DISTS, FixedDistLens())
  {
    FixedLitComplete();
    FixedDistComplete();
  }

  /** A table just made. */
  lemma TableMade(ct: CodeType, tab: seq<Code>, start: nat, used: nat, bits: nat, lens: seq<nat>)
    requires start + used <= |tab| && |lens| <= MaxSymbols(ct) && Acceptable(ct, lens)
    requires Decodes(tab[start..start + used], bits, ct, lens)
    requires (ct == CODES ==> Direct(tab[start..start + used], bits))
    ensures TableFor(ct, tab, start, bits, lens)
  {
    hide Decodes, Acceptable;
    assert tab[start..][..used] == tab[start..start + used];
    DecodesMore(tab[start..], used, bits, ct, lens);
  }

  /** More input to come. */
  lemma HeldMore(hold: nat, bits: nat, fed: seq<byte>, a: State, t: seq<bool>, data: seq<byte>)
    requires Held(hold, bits, fed, a, t)
    ensures Held(hold, bits, fed, a, BytesToBits(fed + data))
  {
    hide Prefix, BytesToBits, Accumulated;
    assert a.pos <= |BytesToBits(fed)| by { HeldPos(hold, bits, fed, a, t); }
    BytesToBitsConcat(fed, data);
  }

  /** No more of the input than was pulled. */
  lemma HeldLess(hold: nat, bits: nat, fed: seq<byte>, a: State, t: seq<bool>)
    requires Held(hold, bits, fed, a, t) && Tight(bits, a, fed)
    ensures Held(hold, bits, fed, a, BytesToBits(fed))
  {
    hide Prefix, BytesToBits, Accumulated, Step;
  }

  lemma HeldPos(hold: nat, bits: nat, fed: seq<byte>, a: State, t: seq<bool>)
    requires Held(hold, bits, fed, a, t)
    ensures a.pos <= |BytesToBits(fed)|
  {
    hide WellFormed, BytesToBits, FromBits;
  }

  lemma NothingYet()
    ensures Held(0, 0, [], Start(), []) && Tight(0, Start(), [])
  {
    StartWellFormed([]);
    TightNow(0, Start(), [], []);
  }

  lemma StuckRun(a: State, t: seq<bool>, m: nat)
    requires Stuck(a, t, m)
    ensures Run(a, t, m) == a
  {
    hide WellFormed, Step;
  }

  lemma MovedRun(a: State, b: State, t: seq<bool>, m: nat)
    requires Moved(a, b, t, m)
    ensures WellFormed(a, t) && WellFormed(b, t) && Run(a, t, m) == Run(b, t, m)
    ensures a.pos <= b.pos <= |t|
    ensures (b.pos == a.pos ==> Rank(b.mode) < Rank(a.mode) || (Rank(b.mode) == Rank(a.mode) && b.length < a.length))
  {
    hide Prefix, Run;
  }
}
