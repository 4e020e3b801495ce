/** inflate undoes what trees.c sends: block headers with their run-length coded
lengths, and literals and matches in any codes. */
module RoundTrip {
  import opened Bits
  import opened Canonical
  import opened BitStream
  import opened Format
  import opened InfTrees
  import opened InflateSpec
  import opened InflateChunks
  import opened TreeCodes
  import opened TreeLengths
  import opened BlockOutput

  /** The bits b are at position pos of s. */
  ghost predicate At(s: seq<bool>, pos: nat, b: seq<bool>) {
    pos + |b| <= |s| && s[pos..pos + |b|] == b
  }

  lemma AtParts(s: seq<bool>, pos: nat, b: seq<bool>, c: seq<bool>)
    requires At(s, pos, b + c)
    ensures At(s, pos, b) && At(s, pos + |b|, c)
  {
    var x := s[pos..pos + |b| + |c|];
    assert x[..|b|] == s[pos..pos + |b|] && (b + c)[..|b|] == b;
    assert x[|b|..] == s[pos + |b|..pos + |b| + |c|] && (b + c)[|b|..] == c;
  }

  lemma FieldAt(s: seq<bool>, pos: nat, v: nat, n: nat)
    requires At(s, pos, ToBits(v, n)) && v < Pow2(n)
    ensures Field(s, pos, n) == v
  {
    FromToBits(v, n);
    LowIdentity(v, n);
  }

  /** A canonical code in the stream is read as its symbol. */
  lemma CodeAt(t: CodeType, lens: seq<nat>, s: seq<bool>, pos: nat, c: nat)
    requires Prefix(t, lens) && c < |lens| && lens[c] != 0 && At(s, pos, CodeBits(lens, c))
    ensures Decode(t, lens, s, pos) == Some(Entry(SymOf(t, c), lens[c]))
  {
    hide SymOf, ValidLengths, NotOversubscribed, FromBits, ToBits, Low, Word, Decode, Pow2;
    var l := lens[c];
    CodeShort(lens, c);
    FieldAt(s, pos, Word(lens, c), l);
    FromBitsPrefix(s[pos..], l);
    assert s[pos..][..l] == s[pos..pos + l];
    DecodeIs(t, lens, s, pos, c);
  }

  lemma CodeShort(lens: seq<nat>, c: nat)
    requires c < |lens|
    ensures Word(lens, c) < Pow2(lens[c]) && CodeBits(lens, c) == ToBits(Word(lens, c), lens[c])
  {
    hide ToBits;
  }

  /** a goes on to b. */
  ghost predicate Leads(a: State, b: State, s: seq<bool>, m: nat) {
    WellFormed(a, s) && WellFormed(b, s) && Run(a, s, m) == Run(b, s, m)
  }

  lemma LeadsOne(a: State, b: State, s: seq<bool>, m: nat)
    requires WellFormed(a, s) && Step(a, s, m) == Some(b)
    ensures Leads(a, b, s, m)
  {
  }

  lemma WellFormedCodes(a: State, s: seq<bool>)
    requires WellFormed(a, s)
    ensures a.pos <= |s| && Prefix(LENS, a.ls) && Prefix(DISTS, a.ds) && Prefix(CODES, a.codes)
    ensures |a.ls| <= MaxSymbols(LENS) && |a.ds| <= MaxSymbols(DISTS)
  {
  }

  /** Nothing but the position, the output and scratch fields differ. */
  ghost predicate SameCodes(a: State, b: State) {
    b.last == a.last && b.ls == a.ls && b.ds == a.ds
  }

  // ------------------------------------------------------------------- tokens

  /** A match is copied byte by byte, also where it overlaps itself. */
  lemma {:induction false} CopyDecodes(a: State, s: seq<bool>, m: nat) returns (b: State)
    requires WellFormed(a, s) && a.mode == MATCH && a.length >= 1 && 1 <= a.offset <= |a.out|
    requires |a.out| + a.length <= m
    ensures Leads(a, b, s, m) && b.mode == LEN && SameCodes(a, b) && b.pos == a.pos
    ensures b.out == CopyMatch(a.out, a.length, a.offset)
    decreases a.length
  {
    hide Prefix, Run;
    var c := Step(a, s, m).value;
    LeadsOne(a, c, s, m);
    if a.length == 1 { b := c; } else { b := CopyDecodes(c, s, m); }
  }

  lemma LiteralDecodes(a: State, s: seq<bool>, m: nat, c: nat) returns (b: State)
    requires WellFormed(a, s) && a.mode == LEN && c < 256 && c < |a.ls| && a.ls[c] != 0
    requires At(s, a.pos, CodeBits(a.ls, c)) && |a.out| < m
    ensures Leads(a, b, s, m) && b.mode == LEN && SameCodes(a, b)
    ensures b.pos == a.pos + a.ls[c] && b.out == a.out + [c]
  {
    hide Prefix, CodeBits, Decode, Run, At;
    CodeAt(LENS, a.ls, s, a.pos, c);
    var x := Step(a, s, m).value;
    LeadsOne(a, x, s, m);
    b := Step(x, s, m).value;
    LeadsOne(x, b, s, m);
  }

  lemma EndDecodes(a: State, s: seq<bool>, m: nat) returns (b: State)
    requires WellFormed(a, s) && a.mode == LEN && END_BLOCK < |a.ls| && a.ls[END_BLOCK] != 0
    requires At(s, a.pos, CodeBits(a.ls, END_BLOCK))
    ensures Leads(a, b, s, m) && b.mode == TYPE && b.last == a.last
    ensures b.pos == a.pos + a.ls[END_BLOCK] && b.out == a.out
  {
    hide Prefix, CodeBits, Decode, Run, At;
    CodeAt(LENS, a.ls, s, a.pos, END_BLOCK);
    b := Step(a, s, m).value;
    LeadsOne(a, b, s, m);
  }

  lemma LenGoesOn(a: State, s: seq<bool>, m: nat, e: Code)
    requires WellFormed(a, s) && a.mode == LEN && Decode(LENS, a.ls, s, a.pos) == Some(e)
    requires 16 <= e.op < 32
    ensures Step(a, s, m) == Some(a.(mode := LENEXT, pos := a.pos + e.bits, length := e.val, extra := e.op % 16))
  {
    hide Decode, WellFormed;
  }

  lemma DistGoesOn(a: State, s: seq<bool>, m: nat, e: Code)
    requires WellFormed(a, s) && a.mode == DIST && Decode(DISTS, a.ds, s, a.pos) == Some(e)
    requires 16 <= e.op < 32
    ensures Step(a, s, m) == Some(a.(mode := DISTEXT, pos := a.pos + e.bits, offset := e.val, extra := e.op % 16))
  {
    hide Decode, WellFormed;
  }

  lemma ExtraGoesOn(a: State, s: seq<bool>, m: nat)
    requires WellFormed(a, s) && (a.mode == LENEXT || a.mode == DISTEXT) && a.pos + a.extra <= |s|
    ensures var v := Field(s, a.pos, a.extra);
      Step(a, s, m) == Some(if a.mode == LENEXT then a.(mode := DIST, length := a.length + v, pos := a.pos + a.extra)
                            else a.(mode := MATCH, offset := a.offset + v, pos := a.pos + a.extra))
  {
    hide WellFormed, Field;
  }

  /** A length symbol and its extra bits: the length is its base plus the field. */
  lemma LengthSymbolDecodes(a: State, s: seq<bool>, m: nat, code: nat, f: seq<bool>) returns (b: State)
    requires WellFormed(a, s) && a.mode == LEN && code < LENGTH_CODES
    requires var c := LITERALS + 1 + code; c < |a.ls| && a.ls[c] != 0 && At(s, a.pos, CodeBits(a.ls, c) + f)
    requires |f| == EXTRA_LBITS[code]
    ensures Leads(a, b, s, m) && b.mode == DIST && SameCodes(a, b) && b.out == a.out
    ensures b.pos == a.pos + |CodeBits(a.ls, LITERALS + 1 + code)| + |f| <= |s|
    ensures b.length == LBASE[code] + Field(s, b.pos - |f|, |f|)
  {
    hide WellFormed, CodeBits, Decode, Field, Run, SymOf, At, Pow2, Step;
    WellFormedCodes(a, s);
    var c := LITERALS + 1 + code;
    AtParts(s, a.pos, CodeBits(a.ls, c), f);
    CodeAt(LENS, a.ls, s, a.pos, c);
    CodeBitsLength(a.ls, c);
    LengthSymbol(code);
    LenGoesOn(a, s, m, Entry(SymOf(LENS, c), a.ls[c]));
    var x := Step(a, s, m).value;
    LeadsOne(a, x, s, m);
    assert At(s, x.pos, f);
    AtEnd(s, x.pos, f);
    ExtraGoesOn(x, s, m);
    b := Step(x, s, m).value;
    LeadsOne(x, b, s, m);
  }

  lemma AtEnd(s: seq<bool>, pos: nat, f: seq<bool>)
    requires At(s, pos, f)
    ensures pos + |f| <= |s|
  {
  }

  lemma DistanceSymbolDecodes(a: State, s: seq<bool>, m: nat, code: nat, f: seq<bool>) returns (b: State)
    requires WellFormed(a, s) && a.mode == DIST && code < D_CODES
    requires code < |a.ds| && a.ds[code] != 0 && At(s, a.pos, CodeBits(a.ds, code) + f)
    requires |f| == EXTRA_DBITS[code]
    ensures Leads(a, b, s, m) && b.mode == MATCH && SameCodes(a, b) && b.out == a.out && b.length == a.length
    ensures b.pos == a.pos + |CodeBits(a.ds, code)| + |f| <= |s|
    ensures b.offset == DBASE[code] + Field(s, b.pos - |f|, |f|)
  {
    hide WellFormed, CodeBits, Decode, Field, Run, SymOf, At, Pow2, Step;
    WellFormedCodes(a, s);
    AtParts(s, a.pos, CodeBits(a.ds, code), f);
    CodeAt(DISTS, a.ds, s, a.pos, code);
    CodeBitsLength(a.ds, code);
    DistSymbol(code);
    DistGoesOn(a, s, m, Entry(SymOf(DISTS, code), a.ds[code]));
    var x := Step(a, s, m).value;
    LeadsOne(a, x, s, m);
    assert At(s, x.pos, f);
    AtEnd(s, x.pos, f);
    ExtraGoesOn(x, s, m);
    b := Step(x, s, m).value;
    LeadsOne(x, b, s, m);
  }

  /** A length code and its extra bits give the length back. */
  lemma LengthDecodes(a: State, s: seq<bool>, m: nat, maps: Maps, lc: nat) returns (b: State)
    requires MapsOk(maps) && lc < 256 && WellFormed(a, s) && a.mode == LEN
    requires var c := LITERALS + 1 + maps.lengthCode[lc]; c < |a.ls| && a.ls[c] != 0
    requires At(s, a.pos, LengthBits(a.ls, maps, lc))
    ensures Leads(a, b, s, m) && b.mode == DIST && SameCodes(a, b)
    ensures b.pos == a.pos + |LengthBits(a.ls, maps, lc)| && b.out == a.out && b.length == lc + 3
  {
    hide WellFormed, CodeBits, ToBits, DistMap, Leads, LengthMap, At, Field, ExtraField;
    LengthFacts(maps, lc);
    var code := maps.lengthCode[lc];
    LengthEntryAt(maps, lc);
    var f := ExtraField(lc, maps.baseLength[code], EXTRA_LBITS[code]);
    AtParts(s, a.pos, CodeBits(a.ls, LITERALS + 1 + code), f);
    ExtraAt(s, a.pos + |CodeBits(a.ls, LITERALS + 1 + code)|, lc, maps.baseLength[code], EXTRA_LBITS[code]);
    b := LengthSymbolDecodes(a, s, m, code, f);
  }

  lemma LengthEntryAt(maps: Maps, lc: nat)
    requires MapsOk(maps) && lc < 256
    ensures LengthEntry(lc, maps.lengthCode[lc], maps.baseLength)
  {
  }

  lemma DistEntryAt(maps: Maps, d: nat)
    requires MapsOk(maps) && d < 32768
    ensures DistEntry(d, DCode(maps.distCode, d), maps.baseDist)
  {
  }

  lemma CodeBitsLength(lens: seq<nat>, c: nat)
    requires c < |lens|
    ensures |CodeBits(lens, c)| == lens[c]
  {
  }

  lemma LengthSymbol(code: nat)
    requires code < LENGTH_CODES
    ensures var e := SymOf(LENS, LITERALS + 1 + code);
      e.op == 16 + EXTRA_LBITS[code] && e.val == LBASE[code] && e.op < 32 && e.op % 16 == EXTRA_LBITS[code]
  {
    ExtraBitsAgree();
  }

  lemma DistSymbol(code: nat)
    requires code < D_CODES
    ensures var e := SymOf(DISTS, code);
      e.op == 16 + EXTRA_DBITS[code] && e.val == DBASE[code] && e.op < 32 && e.op % 16 == EXTRA_DBITS[code]
  {
    ExtraBitsAgree();
  }

  lemma ExtraAt(s: seq<bool>, pos: nat, v: nat, base: nat, e: nat)
    requires At(s, pos, ExtraField(v, base, e)) && (e != 0 ==> base <= v < base + Pow2(e))
    ensures pos + e <= |s| && |ExtraField(v, base, e)| == e
    ensures Field(s, pos, e) == if e == 0 then 0 else v - base
  {
    if e != 0 { FieldAt(s, pos, v - base, e); }
  }

  lemma DistanceDecodes(a: State, s: seq<bool>, m: nat, maps: Maps, d: nat) returns (b: State)
    requires MapsOk(maps) && d < 32768 && WellFormed(a, s) && a.mode == DIST
    requires var c := DCode(maps.distCode, d); c < |a.ds| && a.ds[c] != 0
    requires At(s, a.pos, DistBits(a.ds, maps, d))
    ensures Leads(a, b, s, m) && b.mode == MATCH && SameCodes(a, b)
    ensures b.pos == a.pos + |DistBits(a.ds, maps, d)| && b.out == a.out && b.length == a.length && b.offset == d + 1
  {
    hide WellFormed, CodeBits, ToBits, DistMap, Leads, LengthMap, At, Field, ExtraField;
    DistFacts(maps, d);
    var c := DCode(maps.distCode, d);
    DistEntryAt(maps, d);
    var f := ExtraField(d, maps.baseDist[c], EXTRA_DBITS[c]);
    AtParts(s, a.pos, CodeBits(a.ds, c), f);
    ExtraAt(s, a.pos + |CodeBits(a.ds, c)|, d, maps.baseDist[c], EXTRA_DBITS[c]);
    b := DistanceSymbolDecodes(a, s, m, c, f);
  }

  /** Whatever compress_block sends for a token is decoded as that token. */
  lemma TokenDecodes(a: State, s: seq<bool>, m: nat, maps: Maps, t: Token) returns (b: State)
    requires MapsOk(maps) && ValidToken(t) && WellFormed(a, s) && a.mode == LEN
    requires HasCodes(a.ls, a.ds, maps, t) && At(s, a.pos, TokenBits(a.ls, a.ds, maps, t))
    requires InReach(a.out, t) && |ExpandOne(a.out, t)| <= m
    ensures Leads(a, b, s, m) && b.mode == LEN && SameCodes(a, b)
    ensures b.pos == a.pos + |TokenBits(a.ls, a.ds, maps, t)| && b.out == ExpandOne(a.out, t)
  {
    hide WellFormed, CodeBits, LengthBits, DistBits, LengthMap, DistMap, Run, Step, CopyMatch, At;
    hide ToBits, Word, DistEntry, LengthEntry;
    match t
    case Lit(c) =>
      CodeBitsLength(a.ls, c);
      b := LiteralDecodes(a, s, m, c);
    case Match(len, dist) =>
      AtParts(s, a.pos, LengthBits(a.ls, maps, len - 3), DistBits(a.ds, maps, dist - 1));
      var x := LengthDecodes(a, s, m, maps, len - 3);
      var y := DistanceDecodes(x, s, m, maps, dist - 1);
      b := CopyDecodes(y, s, m);
  }

  ghost predicate AllHaveCodes(ls: seq<nat>, ds: seq<nat>, maps: Maps, ts: seq<Token>)
    requires MapsOk(maps) && ValidTokens(ts)
  {
    forall i :: 0 <= i < |ts| ==> HasCodes(ls, ds, maps, ts[i])
  }

  /** Any sequence of tokens comes back as the bytes it stands for. */
  lemma {:induction false} TokensDecode(a: State, s: seq<bool>, m: nat, maps: Maps, ts: seq<Token>) returns (b: State)
    requires MapsOk(maps) && ValidTokens(ts) && WellFormed(a, s) && a.mode == LEN
    requires AllHaveCodes(a.ls, a.ds, maps, ts) && At(s, a.pos, TokensBits(a.ls, a.ds, maps, ts))
    requires AllInReach(a.out, ts) && |Expand(a.out, ts)| <= m
    ensures Leads(a, b, s, m) && b.mode == LEN && SameCodes(a, b)
    ensures b.pos == a.pos + |TokensBits(a.ls, a.ds, maps, ts)| && b.out == Expand(a.out, ts)
    decreases |ts|
  {
    hide WellFormed, Run, Step, At, MapsOk, TokenBits, HasCodes, ExpandOne, InReach, ValidToken;
    if |ts| == 0 {
      b := a;
    } else {
      var n := |ts| - 1;
      AtParts(s, a.pos, TokensBits(a.ls, a.ds, maps, ts[..n]), TokenBits(a.ls, a.ds, maps, ts[n]));
      assert AllInReach(a.out, ts[..n]) by { InReachPrefix(a.out, ts, n); }
      var x := TokensDecode(a, s, m, maps, ts[..n]);
      b := TokenDecodes(x, s, m, maps, ts[n]);
    }
  }

  lemma InReachPrefix(out: seq<byte>, ts: seq<Token>, n: nat)
    requires n <= |ts| && AllInReach(out, ts)
    ensures AllInReach(out, ts[..n])
  {
    forall k | 0 <= k < n
      ensures InReach(Expand(out, ts[..n][..k]), ts[..n][k])
    {
      assert ts[..n][..k] == ts[..k];
    }
  }

  // ----------------------------------------------------------- block headers

  /** Lengths a dynamic block may announce, and a bit length code to send them in. */
  ghost predicate Announceable(blcodes: nat, blLens: seq<nat>, ls: seq<nat>, ds: seq<nat>) {
    && 4 <= blcodes <= BL_CODES == |blLens| && 257 <= |ls| <= L_CODES && 1 <= |ds| <= D_CODES
    && AtMost(blLens, 7) && Acceptable(CODES, blLens) && ValidLengths(ls) && ValidLengths(ds)
    && (forall i :: blcodes <= i < BL_CODES ==> blLens[BL_ORDER[i]] == 0)
    && Sendable(blLens, TreeOps(ls)) && Sendable(blLens, TreeOps(ds))
  }

  lemma CountsDecode(a: State, s: seq<bool>, m: nat, nlen: nat, ndist: nat, ncode: nat) returns (b: State)
    requires WellFormed(a, s) && a.mode == TABLE && 257 <= nlen <= 286 && 1 <= ndist <= 30 && 4 <= ncode <= 19
    requires At(s, a.pos, ToBits(nlen - 257, 5) + ToBits(ndist - 1, 5) + ToBits(ncode - 4, 4))
    ensures Leads(a, b, s, m)
    ensures b == a.(mode := LENLENS, pos := a.pos + 14, lens := [], nlen := nlen, ndist := ndist, ncode := ncode)
  {
    hide Prefix, Field, ToBits, Run, Pow2, At;
    Pow2Values();
    AtParts(s, a.pos, ToBits(nlen - 257, 5) + ToBits(ndist - 1, 5), ToBits(ncode - 4, 4));
    AtParts(s, a.pos, ToBits(nlen - 257, 5), ToBits(ndist - 1, 5));
    FieldAt(s, a.pos, nlen - 257, 5);
    FieldAt(s, a.pos + 5, ndist - 1, 5);
    FieldAt(s, a.pos + 10, ncode - 4, 4);
    AtEnd(s, a.pos + 10, ToBits(ncode - 4, 4));
    assert Step(a, s, m) == TableStep(a, s);
    b := Step(a, s, m).value;
    LeadsOne(a, b, s, m);
  }

  /** The first n lengths in the order they travel. */
  function Ordered(blLens: seq<nat>, n: nat): (r: seq<nat>)
    requires n <= BL_CODES == |blLens|
    ensures |r| == n && forall i :: 0 <= i < n ==> r[i] == blLens[BL_ORDER[i]]
  {
    seq(n, i requires 0 <= i < n => blLens[BL_ORDER[i]])
  }

  lemma {:induction false} BlLensDecode(a: State, s: seq<bool>, m: nat, blLens: seq<nat>, n: nat)
    returns (b: State)
    requires WellFormed(a, s) && a.mode == LENLENS && a.lens == [] && |blLens| == BL_CODES && AtMost(blLens, 7)
    requires n <= a.ncode <= BL_CODES && At(s, a.pos, BlLensBits(blLens, n))
    ensures Leads(a, b, s, m) && b == a.(pos := a.pos + 3 * n, lens := Ordered(blLens, n))
  {
    hide Prefix, Field, ToBits, Run, Pow2, At, Step, Leads;
    if n == 0 {
      b := a;
      LeadsNowhere(a, s, m);
      assert Ordered(blLens, 0) == [];
    } else {
      var v := blLens[BL_ORDER[n - 1]];
      AtParts(s, a.pos, BlLensBits(blLens, n - 1), ToBits(v, 3));
      BlLensBitsLength(blLens, n - 1);
      var x := BlLensDecode(a, s, m, blLens, n - 1);
      LeadsTo(a, x, s, m);
      Pow2Values();
      assert x.pos == a.pos + |BlLensBits(blLens, n - 1)| && v <= 7;
      FieldAt(s, x.pos, v, 3);
      AtEnd(s, x.pos, ToBits(v, 3));
      LenLensGoesOn(x, s, m, v);
      b := Step(x, s, m).value;
      LeadsOne(x, b, s, m);
      LeadsOn(a, x, b, s, m);
      assert Ordered(blLens, n) == Ordered(blLens, n - 1) + [v];
    }
  }

  lemma LeadsNowhere(a: State, s: seq<bool>, m: nat)
    requires WellFormed(a, s)
    ensures Leads(a, a, s, m)
  {
  }

  lemma LeadsTo(a: State, b: State, s: seq<bool>, m: nat)
    requires Leads(a, b, s, m)
    ensures WellFormed(a, s) && WellFormed(b, s)
  {
  }

  lemma LenLensGoesOn(a: State, s: seq<bool>, m: nat, v: nat)
    requires WellFormed(a, s) && a.mode == LENLENS && |a.lens| < a.ncode && a.pos + 3 <= |s| && Field(s, a.pos, 3) == v
    ensures Step(a, s, m) == Some(a.(pos := a.pos + 3, lens := a.lens + [v]))
  {
    hide WellFormed, Field, Unorder;
  }

  /** Fields not sent are zero, so the lengths are all there. */
  lemma UnorderOrdered(blLens: seq<nat>, n: nat)
    requires n <= BL_CODES == |blLens| && forall i :: n <= i < BL_CODES ==> blLens[BL_ORDER[i]] == 0
    ensures Unorder(Ordered(blLens, n)) == blLens
  {
    var r := Unorder(Ordered(blLens, n));
    forall v | 0 <= v < BL_CODES
      ensures r[v] == blLens[v]
    {
      RankInverse(v);
      assert r[BL_ORDER[BL_RANK[v]]] == blLens[BL_ORDER[BL_RANK[v]]];
    }
  }

  lemma RankInverse(v: nat)
    requires v < BL_CODES
    ensures BL_RANK[v] < BL_CODES && BL_ORDER[BL_RANK[v]] == v
  {
  }

  /** One symbol of the bit length code, with its repeat field. */
  lemma OpDecodes(a: State, s: seq<bool>, m: nat, op: Rle) returns (b: State)
    requires WellFormed(a, s) && a.mode == CODELENS && ValidRle(op)
    requires op.sym < |a.codes| && a.codes[op.sym] != 0 && At(s, a.pos, OpBits(a.codes, op))
    requires op.sym == REP_3_6 ==> |a.lens| > 0
    requires |Append(a.lens, op)| <= a.nlen + a.ndist
    ensures Leads(a, b, s, m)
    ensures b == a.(pos := a.pos + |OpBits(a.codes, op)|, lens := Append(a.lens, op))
  {
    hide WellFormed, Field, ToBits, Run, Pow2, At, Step, Decode, CodeBits, Append;
    WellFormedCodes(a, s);
    AtParts(s, a.pos, CodeBits(a.codes, op.sym), ToBits(op.extra, ExtraBlBits(op.sym)));
    CodeAt(CODES, a.codes, s, a.pos, op.sym);
    CodeBitsLength(a.codes, op.sym);
    FieldAt(s, a.pos + a.codes[op.sym], op.extra, ExtraBlBits(op.sym));
    AtEnd(s, a.pos + a.codes[op.sym], ToBits(op.extra, ExtraBlBits(op.sym)));
    AppendGrows(a.lens, op);
    OpGoesOn(a, s, m, op);
    b := Step(a, s, m).value;
    LeadsOne(a, b, s, m);
  }

  lemma AppendGrows(acc: seq<nat>, op: Rle)
    requires op.sym == REP_3_6 ==> |acc| > 0
    ensures |Append(acc, op)| > |acc|
  {
  }

  lemma OpGoesOn(a: State, s: seq<bool>, m: nat, op: Rle)
    requires WellFormed(a, s) && a.mode == CODELENS && op.sym < BL_CODES && op.sym < |a.codes|
    requires Decode(CODES, a.codes, s, a.pos) == Some(Entry(SymOf(CODES, op.sym), a.codes[op.sym]))
    requires a.pos + a.codes[op.sym] + ExtraBlBits(op.sym) <= |s|
    requires Field(s, a.pos + a.codes[op.sym], ExtraBlBits(op.sym)) == op.extra
    requires op.sym == REP_3_6 ==> |a.lens| > 0
    requires |a.lens| < |Append(a.lens, op)| <= a.nlen + a.ndist
    ensures Step(a, s, m) == Some(a.(pos := a.pos + (a.codes[op.sym] + ExtraBlBits(op.sym)),
      lens := Append(a.lens, op)))
  {
    hide WellFormed, Field, Decode, Append, ExtraBlBits;
    assert op == Rle(op.sym, op.extra);
  }

  /** All symbols in turn: the lengths they expand to. */
  lemma {:induction false} OpsDecode(a: State, s: seq<bool>, m: nat, ops: seq<Rle>, lens: seq<nat>) returns (b: State)
    requires WellFormed(a, s) && a.mode == CODELENS && Sendable(a.codes, ops) && At(s, a.pos, OpsBits(a.codes, ops))
    requires Expands(a.lens, ops, lens) && |lens| <= a.nlen + a.ndist
    ensures Leads(a, b, s, m) && b == a.(pos := a.pos + |OpsBits(a.codes, ops)|, lens := lens)
    decreases |ops|
  {
    hide WellFormed, Run, At, Step, OpBits, Append, ValidRle;
    if |ops| == 0 {
      b := a;
    } else {
      AtParts(s, a.pos, OpBits(a.codes, ops[0]), OpsBits(a.codes, ops[1..]));
      ExpandsGrows(Append(a.lens, ops[0]), ops[1..], lens);
      var x := OpDecodes(a, s, m, ops[0]);
      b := OpsDecode(x, s, m, ops[1..], lens);
    }
  }

  lemma {:induction false} ExpandsGrows(acc: seq<nat>, ops: seq<Rle>, lens: seq<nat>)
    requires Expands(acc, ops, lens)
    ensures |acc| <= |lens|
    decreases |ops|
  {
    if |ops| > 0 {
      AppendGrows(acc, ops[0]);
      ExpandsGrows(Append(acc, ops[0]), ops[1..], lens);
    }
  }

  /** A dynamic block's header gives back exactly the lengths it was made from, repeats
      across the boundary of the two codes included; it is refused exactly if they
      have no end of block code or inflate cannot build tables for them. */
  lemma HeaderDecodes(a: State, s: seq<bool>, m: nat, blcodes: nat, blLens: seq<nat>, ls: seq<nat>, ds: seq<nat>)
    returns (b: State)
    requires WellFormed(a, s) && a.mode == TABLE && Announceable(blcodes, blLens, ls, ds)
    requires At(s, a.pos, HeaderBits(blcodes, blLens, ls, ds))
    ensures Leads(a, b, s, m) && b.out == a.out && b.last == a.last
    ensures b.pos == a.pos + |HeaderBits(blcodes, blLens, ls, ds)|
    ensures if ls[256] != 0 && Buildable(LENS, ls, 9) && Buildable(DISTS, ds, 6)
            then b.mode == LEN && b.ls == ls && b.ds == ds
            else b.mode == BAD
  {
    hide WellFormed, Run, At, Step, OpsBits, TreeOps, BlLensBits, ToBits, Buildable, Acceptable, Sendable;
    var h1 := ToBits(|ls| - 257, 5) + ToBits(|ds| - 1, 5) + ToBits(blcodes - 4, 4);
    var h2, h3, h4 := BlLensBits(blLens, blcodes), OpsBits(blLens, TreeOps(ls)), OpsBits(blLens, TreeOps(ds));
    AtParts(s, a.pos, h1 + h2 + h3, h4);
    AtParts(s, a.pos, h1 + h2, h3);
    AtParts(s, a.pos, h1, h2);
    BlLensBitsLength(blLens, blcodes);
    var x := BlCodesDecode(a, s, m, blcodes, blLens, |ls|, |ds|);
    b := TreesDecode(x, s, m, ls, ds);
    LeadsOn(a, x, b, s, m);
  }

  lemma LeadsOn(a: State, b: State, c: State, s: seq<bool>, m: nat)
    requires Leads(a, b, s, m) && Leads(b, c, s, m)
    ensures Leads(a, c, s, m)
  {
    hide WellFormed, Run;
  }

  /** The counts and the bit length code. */
  lemma BlCodesDecode(a: State, s: seq<bool>, m: nat, blcodes: nat, blLens: seq<nat>, nlen: nat, ndist: nat)
    returns (b: State)
    requires WellFormed(a, s) && a.mode == TABLE && 257 <= nlen <= 286 && 1 <= ndist <= 30
    requires 4 <= blcodes <= BL_CODES == |blLens| && AtMost(blLens, 7) && Acceptable(CODES, blLens)
    requires forall i :: blcodes <= i < BL_CODES ==> blLens[BL_ORDER[i]] == 0
    requires var h1 := ToBits(nlen - 257, 5) + ToBits(ndist - 1, 5) + ToBits(blcodes - 4, 4);
      At(s, a.pos, h1) && At(s, a.pos + |h1|, BlLensBits(blLens, blcodes))
    ensures Leads(a, b, s, m)
    ensures b == a.(mode := CODELENS, pos := a.pos + 14 + 3 * blcodes, lens := [], nlen := nlen, ndist := ndist,
                    ncode := blcodes, codes := blLens)
  {
    hide WellFormed, Run, At, Step, BlLensBits, ToBits, Acceptable;
    var x1 := CountsDecode(a, s, m, nlen, ndist, blcodes);
    BlLensBitsLength(blLens, blcodes);
    var x2 := BlLensDecode(x1, s, m, blLens, blcodes);
    b := CodesBuilt(x2, s, m, blLens);
  }

  /** The lengths of both trees. */
  lemma TreesDecode(a: State, s: seq<bool>, m: nat, ls: seq<nat>, ds: seq<nat>) returns (b: State)
    requires WellFormed(a, s) && a.mode == CODELENS && a.lens == [] && |ls| == a.nlen && |ds| == a.ndist
    requires 257 <= |ls| <= 286 && 1 <= |ds| <= 30 && ValidLengths(ls) && ValidLengths(ds)
    requires Sendable(a.codes, TreeOps(ls)) && Sendable(a.codes, TreeOps(ds))
    requires At(s, a.pos, OpsBits(a.codes, TreeOps(ls)))
    requires At(s, a.pos + |OpsBits(a.codes, TreeOps(ls))|, OpsBits(a.codes, TreeOps(ds)))
    ensures Leads(a, b, s, m) && b.out == a.out && b.last == a.last
    ensures b.pos == a.pos + |OpsBits(a.codes, TreeOps(ls))| + |OpsBits(a.codes, TreeOps(ds))|
    ensures if ls[256] != 0 && Buildable(LENS, ls, 9) && Buildable(DISTS, ds, 6)
            then b.mode == LEN && b.ls == ls && b.ds == ds
            else b.mode == BAD
  {
    hide WellFormed, Run, At, Step, OpsBits, TreeOps, Buildable, Sendable, ValidLengths;
    TreeOpsExpand([], ls);
    TreeOpsExpand(ls, ds);
    assert [] + ls == ls;
    var x4 := OpsDecode(a, s, m, TreeOps(ls), ls);
    var x5 := OpsDecode(x4, s, m, TreeOps(ds), ls + ds);
    b := LensBuilt(x5, s, m, ls, ds);
  }

  lemma CodesBuilt(a: State, s: seq<bool>, m: nat, blLens: seq<nat>) returns (b: State)
    requires WellFormed(a, s) && a.mode == LENLENS && a.ncode <= BL_CODES == |blLens|
    requires a.lens == Ordered(blLens, a.ncode) && Acceptable(CODES, blLens)
    requires forall i :: a.ncode <= i < BL_CODES ==> blLens[BL_ORDER[i]] == 0
    ensures Leads(a, b, s, m) && b == a.(mode := CODELENS, codes := blLens, lens := [])
  {
    hide WellFormed, Run, Unorder, Acceptable, Ordered;
    UnorderOrdered(blLens, a.ncode);
    assert Step(a, s, m) == LenLensStep(a, s);
    b := Step(a, s, m).value;
    LeadsOne(a, b, s, m);
  }

  lemma LensBuilt(a: State, s: seq<bool>, m: nat, ls: seq<nat>, ds: seq<nat>) returns (b: State)
    requires WellFormed(a, s) && a.mode == CODELENS && a.lens == ls + ds && |ls| == a.nlen && |ds| == a.ndist
    requires 257 <= |ls| <= 286 && 1 <= |ds| <= 30
    ensures Leads(a, b, s, m) && b.out == a.out && b.last == a.last && b.pos == a.pos
    ensures if ls[256] != 0 && Buildable(LENS, ls, 9) && Buildable(DISTS, ds, 6)
            then b.mode == LEN && b.ls == ls && b.ds == ds
            else b.mode == BAD
  {
    hide WellFormed, Run, Buildable;
    assert a.lens[..a.nlen] == ls && a.lens[a.nlen..] == ds;
    assert Step(a, s, m) == BuildStep(a, s);
    b := Step(a, s, m).value;
    LeadsOne(a, b, s, m);
  }
}
