/** trees.c: the cost build_tree accounts for is the number of bits that are sent. */
module BlockCost {
  import opened Bits
  import opened Canonical
  import opened Sums
  import opened BitStream
  import opened Format
  import opened KraftSums
  import opened TreeCodes
  import opened TreeLengths
  import opened BitLengths
  import opened TreeBuild
  import opened BlockOutput

  const EXTRA_BLBITS: seq<nat> := [0, 0, 0, 0, 0, 0, 0, 0, 0, 0, 0, 0, 0, 0, 0, 0, 2, 3, 7]
  const MAX_BL_BITS := 7

  function LDesc(): StaticDesc { StaticDesc(FixedLitLens(), EXTRA_LBITS, LITERALS + 1, L_CODES, MAXBITS) }
  function DDesc(): StaticDesc { StaticDesc(FixedDistLens(), EXTRA_DBITS, 0, D_CODES, MAXBITS) }
  function BlDesc(): StaticDesc { StaticDesc([], EXTRA_BLBITS, 0, BL_CODES, MAX_BL_BITS) }

  lemma DescsOk()
    ensures DescOk(LDesc()) && DescOk(DDesc()) && DescOk(BlDesc())
  {
    Pow2Values();
  }

  predicate Under(x: nat, n: nat) { x < n }

  function All(n: nat): set<nat> { set x: nat | 0 <= x < n && Under(x, n) }

  /** Symbols that do not occur cost nothing. */
  lemma OnlyOccurring(desc: StaticDesc, freq: seq<nat>, d: seq<nat>, n: nat)
    requires |d| == |freq| && n <= |freq|
    ensures Sum(Occurring(freq, n), DynCosts(desc, freq, d)) == Sum(All(n), DynCosts(desc, freq, d))
    ensures Sum(Occurring(freq, n), StatCosts(desc, freq)) == Sum(All(n), StatCosts(desc, freq))
  {
    hide Sum;
    var a, z := Occurring(freq, n), All(n) - Occurring(freq, n);
    assert a + z == All(n);
    SumUnion(a, z, DynCosts(desc, freq, d));
    SumUnion(a, z, StatCosts(desc, freq));
    SumZero(z, DynCosts(desc, freq, d));
    SumZero(z, StatCosts(desc, freq));
  }

  lemma {:induction false} SumZero(a: set<nat>, w: seq<nat>)
    requires forall x :: x in a ==> At(w, x) == 0
    ensures Sum(a, w) == 0
    decreases |a|
  {
    if x :| x in a {
      SumOut(a, w, x);
      SumZero(a - {x}, w);
    }
  }

  /** One more occurrence of symbol s costs its code and its extra bits. */
  lemma OneMore(desc: StaticDesc, freq: seq<nat>, d: seq<nat>, n: nat, s: nat)
    requires |d| == |freq| && n <= |freq| && s < n
    ensures var up := Up(freq, s);
      Sum(All(n), DynCosts(desc, up, d)) == Sum(All(n), DynCosts(desc, freq, d)) + d[s] + ExtraOf(desc, s)
  {
    hide Sum, ExtraOf;
    var up := Up(freq, s);
    SumOut(All(n), DynCosts(desc, freq, d), s);
    SumOut(All(n), DynCosts(desc, up, d), s);
    SumEq(All(n) - {s}, DynCosts(desc, freq, d), DynCosts(desc, up, d));
    TimesNext(freq[s], d[s] + ExtraOf(desc, s));
  }

  lemma TimesNext(f: nat, c: nat)
    ensures (f + 1) * c == f * c + c
  {
  }

  lemma NoneYet(desc: StaticDesc, d: seq<nat>, n: nat)
    ensures Sum(All(n), DynCosts(desc, seq(|d|, _ => 0), d)) == 0
  {
    SumZero(All(n), DynCosts(desc, seq(|d|, _ => 0), d));
  }

  // ------------------------------------------------------------------ tallies

  /** The literal/length symbol of a token. */
  ghost function LitSym(m: Maps, t: Token): nat
    requires MapsOk(m) && ValidToken(t)
  {
    match t
    case Lit(c) => c
    case Match(len, _) => LITERALS + 1 + m.lengthCode[len - 3]
  }

  /** Before any token: end of block is needed once. */
  function LitStart(): (r: seq<nat>)
    ensures |r| == HEAP_SIZE
  {
    seq(HEAP_SIZE, x => if x == END_BLOCK then 1 else 0)
  }

  function DistStart(): (r: seq<nat>)
    ensures |r| == 2 * D_CODES + 1
  {
    seq(2 * D_CODES + 1, _ => 0)
  }

  function Up(f: seq<nat>, s: nat): (r: seq<nat>)
    ensures |r| == |f|
  {
    if s < |f| then f[s := f[s] + 1] else f
  }

  /** How often each literal/length symbol is needed, end of block once. */
  ghost function LitFreq(m: Maps, ts: seq<Token>): (r: seq<nat>)
    requires MapsOk(m) && ValidTokens(ts)
    ensures |r| == HEAP_SIZE
  {
    if |ts| == 0 then LitStart() else Up(LitFreq(m, ts[..|ts| - 1]), LitSym(m, ts[|ts| - 1]))
  }

  /** The same for distance symbols, of which literals need none. */
  ghost function DistFreq(m: Maps, ts: seq<Token>): (r: seq<nat>)
    requires MapsOk(m) && ValidTokens(ts)
    ensures |r| == 2 * D_CODES + 1
  {
    if |ts| == 0 then DistStart()
    else match ts[|ts| - 1]
      case Lit(_) => DistFreq(m, ts[..|ts| - 1])
      case Match(_, dist) => Up(DistFreq(m, ts[..|ts| - 1]), DCode(m.distCode, dist - 1))
  }

  lemma LitSymSmall(m: Maps, t: Token)
    requires MapsOk(m) && ValidToken(t)
    ensures LitSym(m, t) < L_CODES
  {
    if t.Match? { LengthFacts(m, t.len - 3); }
  }

  // --------------------------------------------------- costs as bits sent

  lemma LengthBitsLength(m: Maps, ls: seq<nat>, lc: nat)
    requires MapsOk(m) && lc < 256
    requires var c := LITERALS + 1 + m.lengthCode[lc]; c < |ls| && ls[c] != 0
    ensures var c := LITERALS + 1 + m.lengthCode[lc]; |LengthBits(ls, m, lc)| == ls[c] + ExtraOf(LDesc(), c)
  {
    hide Word, ToBits, LengthMap, DistMap, FixedLitLens;
    LengthFacts(m, lc);
  }

  lemma DistBitsLength(m: Maps, ds: seq<nat>, d: nat)
    requires MapsOk(m) && d < 32768
    requires var c := DCode(m.distCode, d); c < |ds| && ds[c] != 0
    ensures var c := DCode(m.distCode, d); |DistBits(ds, m, d)| == ds[c] + ExtraOf(DDesc(), c)
  {
    hide Word, ToBits, LengthMap, DistMap, FixedDistLens;
    DistFacts(m, d);
  }

  lemma LiteralBits(ls: seq<nat>, c: nat)
    requires c < 256 && c < |ls|
    ensures |CodeBits(ls, c)| == ls[c] + ExtraOf(LDesc(), c)
  {
    hide FixedLitLens;
  }

  lemma LitSymBits(m: Maps, ls: seq<nat>, ds: seq<nat>, t: Token)
    requires MapsOk(m) && ValidToken(t) && HasCodes(ls, ds, m, t)
    ensures |TokenBits(ls, ds, m, t)| == ls[LitSym(m, t)] + ExtraOf(LDesc(), LitSym(m, t))
      + (if t.Match? then ds[DCode(m.distCode, t.dist - 1)] + ExtraOf(DDesc(), DCode(m.distCode, t.dist - 1)) else 0)
  {
    hide LengthBits, DistBits, CodeBits, LengthMap, DistMap, ExtraOf, LDesc, DDesc;
    match t
    case Lit(c) => LiteralBits(ls, c);
    case Match(len, dist) =>
      LengthBitsLength(m, ls, len - 3);
      DistBitsLength(m, ds, dist - 1);
  }

  /** All tokens: each symbol's occurrences times its code and extra bits. */
  lemma {:induction false} TokensCost(m: Maps, ls: seq<nat>, ds: seq<nat>, l: seq<nat>, d: seq<nat>, ts: seq<Token>)
    requires MapsOk(m) && ValidTokens(ts) && (forall i :: 0 <= i < |ts| ==> HasCodes(ls, ds, m, ts[i]))
    requires |l| == HEAP_SIZE && |d| == 2 * D_CODES + 1 && END_BLOCK < |ls|
    requires (forall x :: 0 <= x < |ls| && x < L_CODES ==> l[x] == ls[x])
    requires (forall x :: 0 <= x < |ds| && x < D_CODES ==> d[x] == ds[x])
    ensures |TokensBits(ls, ds, m, ts)| + ls[END_BLOCK]
      == Sum(All(L_CODES), DynCosts(LDesc(), LitFreq(m, ts), l))
        + Sum(All(D_CODES), DynCosts(DDesc(), DistFreq(m, ts), d))
    decreases |ts|
  {
    hide Sum, DynCosts, TokenBits, LengthMap, DistMap, ExtraOf, Up, LitStart, DistStart;
    if |ts| == 0 {
      EmptyCost(m, l, d);
    } else {
      var n := |ts| - 1;
      var t := ts[n];
      TokensCost(m, ls, ds, l, d, ts[..n]);
      LitSymBits(m, ls, ds, t);
      LitSymSmall(m, t);
      OneMore(LDesc(), LitFreq(m, ts[..n]), l, L_CODES, LitSym(m, t));
      if t.Match? {
        DistFacts(m, t.dist - 1);
        OneMore(DDesc(), DistFreq(m, ts[..n]), d, D_CODES, DCode(m.distCode, t.dist - 1));
      }
    }
  }

  lemma EmptyCost(m: Maps, l: seq<nat>, d: seq<nat>)
    requires MapsOk(m) && |l| == HEAP_SIZE && |d| == 2 * D_CODES + 1
    ensures Sum(All(L_CODES), DynCosts(LDesc(), LitFreq(m, []), l)) == l[END_BLOCK]
    ensures Sum(All(D_CODES), DynCosts(DDesc(), DistFreq(m, []), d)) == 0
  {
    hide Sum;
    var z := seq(HEAP_SIZE, _ => 0);
    assert LitFreq(m, []) == Up(z, END_BLOCK);
    OneMore(LDesc(), z, l, L_CODES, END_BLOCK);
    assert z == seq(|l|, _ => 0);
    NoneYet(LDesc(), l, L_CODES);
    assert DistFreq(m, []) == seq(|d|, _ => 0);
    NoneYet(DDesc(), d, D_CODES);
  }

  /** Every symbol that occurs has a length. */
  ghost predicate Covers(freq: seq<nat>, n: nat, lens: seq<nat>) {
    n <= |freq| && forall x :: 0 <= x < n && freq[x] != 0 ==> x < |lens| && lens[x] != 0
  }

  lemma CoversLess(f: seq<nat>, s: nat, n: nat, lens: seq<nat>)
    requires s < n <= |f| && Covers(Up(f, s), n, lens)
    ensures Covers(f, n, lens) && s < |lens| && lens[s] != 0
  {
    var up := Up(f, s);
    assert up[s] != 0;
    forall x | 0 <= x < n && f[x] != 0 ensures x < |lens| && lens[x] != 0 { assert up[x] != 0; }
  }

  lemma SymHasCodes(m: Maps, ls: seq<nat>, ds: seq<nat>, t: Token)
    requires MapsOk(m) && ValidToken(t) && LitSym(m, t) < |ls| && ls[LitSym(m, t)] != 0
    requires t.Match? ==> var d := DCode(m.distCode, t.dist - 1); d < |ds| && ds[d] != 0
    ensures HasCodes(ls, ds, m, t)
  {
    hide LengthMap, DistMap;
  }

  lemma DistSymSmall(m: Maps, d: nat)
    requires MapsOk(m) && d < 32768
    ensures |m.distCode| == 512 && DCode(m.distCode, d) < D_CODES
  {
    DistFacts(m, d);
  }

  lemma LastHasCodes(m: Maps, ls: seq<nat>, ds: seq<nat>, ts: seq<Token>)
    requires MapsOk(m) && ValidTokens(ts) && |ts| > 0
    requires Covers(LitFreq(m, ts), L_CODES, ls) && Covers(DistFreq(m, ts), D_CODES, ds)
    ensures Covers(LitFreq(m, ts[..|ts| - 1]), L_CODES, ls) && Covers(DistFreq(m, ts[..|ts| - 1]), D_CODES, ds)
    ensures HasCodes(ls, ds, m, ts[|ts| - 1])
  {
    hide Covers, MapsOk, Up, LitStart, DistStart, HasCodes, LitSym, DCode;
    var n := |ts| - 1;
    LitSymSmall(m, ts[n]);
    CoversLess(LitFreq(m, ts[..n]), LitSym(m, ts[n]), L_CODES, ls);
    if ts[n].Match? {
      DistSymSmall(m, ts[n].dist - 1);
      CoversLess(DistFreq(m, ts[..n]), DCode(m.distCode, ts[n].dist - 1), D_CODES, ds);
    }
    SymHasCodes(m, ls, ds, ts[n]);
  }

  /** A token that is sent needs codes exactly for the symbols that are tallied. */
  lemma {:induction false} TalliedHaveCodes(m: Maps, ls: seq<nat>, ds: seq<nat>, ts: seq<Token>)
    requires MapsOk(m) && ValidTokens(ts)
    requires Covers(LitFreq(m, ts), L_CODES, ls) && Covers(DistFreq(m, ts), D_CODES, ds)
    ensures END_BLOCK < |ls| && ls[END_BLOCK] != 0
    ensures forall i :: 0 <= i < |ts| ==> HasCodes(ls, ds, m, ts[i])
    decreases |ts|
  {
    hide LitFreq, DistFreq, LengthMap, DistMap;
    if |ts| > 0 {
      LastHasCodes(m, ls, ds, ts);
      TalliedHaveCodes(m, ls, ds, ts[..|ts| - 1]);
    } else {
      EndTallied(m);
    }
  }

  lemma EndTallied(m: Maps)
    requires MapsOk(m)
    ensures LitFreq(m, [])[END_BLOCK] == 1
  {
  }
}
