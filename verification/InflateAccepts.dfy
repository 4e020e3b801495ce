/** inflate reads the deflate format, no more and no less: it finishes exactly on the
streams of the grammar, with the bytes they stand for. */
module InflateAccepts {
  import opened Bits
  import opened Canonical
  import opened BitStream
  import opened Format
  import opened InfTrees
  import opened InflateSpec
  import opened InflateChunks
  import opened TreeCodes
  import opened TreeLengths
  import opened TableSpace
  import opened BlockOutput
  import opened RoundTrip
  import opened StreamGrammar
  import Whole = StreamRoundTrip

  lemma AtJoin(s: seq<bool>, pos: nat, b: seq<bool>, c: seq<bool>)
    requires At(s, pos, b) && At(s, pos + |b|, c)
    ensures At(s, pos, b + c)
  {
    var x := s[pos..pos + |b| + |c|];
    assert x[..|b|] == s[pos..pos + |b|] && x[|b|..] == s[pos + |b|..pos + |b| + |c|];
    assert x == x[..|b|] + x[|b|..];
  }

  /** A field is the bits of its value. */
  lemma FieldBits(s: seq<bool>, pos: nat, n: nat)
    requires pos + n <= |s|
    ensures At(s, pos, ToBits(Field(s, pos, n), n)) && Field(s, pos, n) < Pow2(n)
  {
    hide ToBits, FromBits, Pow2;
    ToFromBits(s[pos..pos + n]);
  }

  // ------------------------------------------------- what a finished run has read

  /** The run from a ends well. */
  ghost predicate Finishes(a: State, s: seq<bool>, m: nat) {
    WellFormed(a, s) && Run(a, s, m).mode == DONE
  }

  /** Before the end there is a further step, and not to an error. */
  lemma GoesOn(a: State, s: seq<bool>, m: nat) returns (b: State)
    requires Finishes(a, s, m) && a.mode != DONE
    ensures Step(a, s, m) == Some(b) && b.mode != BAD && Leads(a, b, s, m) && Finishes(b, s, m)
  {
    hide Step, WellFormed;
    b := Step(a, s, m).value;
    LeadsOne(a, b, s, m);
    if b.mode == BAD { BadStays(b, s, m); }
  }

  /** A code that was decided is the code of its symbol. */
  lemma CodeRead(t: CodeType, lens: seq<nat>, s: seq<bool>, pos: nat) returns (c: nat)
    requires Prefix(t, lens) && pos <= |s| && Decode(t, lens, s, pos).Some?
    requires Decode(t, lens, s, pos).value.op != INVALID_CODE || Complete(lens)
    ensures InCode(lens, c) && c < MaxSymbols(t) && At(s, pos, CodeBits(lens, c))
    ensures Decode(t, lens, s, pos) == Some(Entry(SymOf(t, c), lens[c]))
  {
    hide SymOf, NotOversubscribed, Complete, Word, FromBits, Low, ToBits;
    var h := FromBits(s[pos..]);
    if d: nat :| Matches(lens, d, h) && lens[d] <= |s| - pos {
      c := d;
      DecodeIs(t, lens, s, pos, c);
      var l := lens[c];
      FromBitsPrefix(s[pos..], l);
      assert s[pos..][..l] == s[pos..pos + l];
      FieldBits(s, pos, l);
    } else {
      c := CompleteCovers(lens, h);
    }
  }

  lemma LengthOp(c: nat)
    requires c < 288
    ensures var e := Entry(SymOf(LENS, c), 1);
      && (Literal?(e) <==> c < 256) && (c < 256 ==> e.val == c)
      && (c >= 256 ==> (EndOfBlock?(e) <==> c == 256))
      && (c > 256 ==> (Invalid?(e) <==> c >= 286))
      && (256 < c < 286 ==> e.val == LBASE[c - 257] && e.op % 16 == EXTRA_LBITS[c - 257])
  {
    hide SymOf, EXTRA_LBITS, LBASE;
    if c <= 256 {
      PlainSymbol(c);
    } else if c < 286 {
      LengthSymbol(c - 257);
    } else {
      UnusedSymbol(c);
    }
  }

  lemma PlainSymbol(c: nat)
    requires c <= 256
    ensures SymOf(LENS, c) == if c < 256 then Sym(0, c) else Sym(END_OF_BLOCK, 0)
  {
  }

  lemma UnusedSymbol(c: nat)
    requires 286 <= c < 288
    ensures var op := SymOf(LENS, c).op; op != 0 && op / 32 % 2 == 0 && op / 64 % 2 == 1
  {
  }

  /** What a step at a literal or length code makes of it. */
  function AfterLength(a: State, c: nat, bits: nat): State
    requires c < 286
  {
    var b := a.(pos := a.pos + bits);
    if c < 256 then b.(mode := LIT, length := c)
    else if c == 256 then b.(mode := TYPE, length := 0)
    else b.(mode := LENEXT, length := LBASE[c - 257], extra := EXTRA_LBITS[c - 257])
  }

  lemma LengthStep(a: State, s: seq<bool>, m: nat, c: nat)
    requires WellFormed(a, s) && a.mode == LEN && InCode(a.ls, c) && c < 288
    requires Decode(LENS, a.ls, s, a.pos) == Some(Entry(SymOf(LENS, c), a.ls[c]))
    ensures Step(a, s, m) == Some(if c >= 286 then a.(mode := BAD, pos := a.pos + a.ls[c], length := SymOf(LENS, c).val)
                                  else AfterLength(a, c, a.ls[c]))
  {
    hide Decode, WellFormed, SymOf;
    LengthOp(c);
    if c <= 256 { PlainSymbol(c); }
    assert Step(a, s, m) == LenStep(a, s);
  }

  lemma LengthRead(a: State, s: seq<bool>, m: nat) returns (c: nat, b: State)
    requires Finishes(a, s, m) && a.mode == LEN
    ensures InCode(a.ls, c) && c < 286 && At(s, a.pos, CodeBits(a.ls, c))
    ensures b == AfterLength(a, c, a.ls[c]) && Leads(a, b, s, m) && Finishes(b, s, m)
  {
    hide Decode, WellFormed, SymOf, Step, Run, At, CodeBits;
    WellFormedCodes(a, s);
    b := GoesOn(a, s, m);
    LengthDecided(a, s, m);
    c := CodeRead(LENS, a.ls, s, a.pos);
    LengthStep(a, s, m, c);
  }

  lemma LengthDecided(a: State, s: seq<bool>, m: nat)
    requires WellFormed(a, s) && a.mode == LEN && Step(a, s, m).Some? && Step(a, s, m).value.mode != BAD
    ensures Decode(LENS, a.ls, s, a.pos).Some? && Decode(LENS, a.ls, s, a.pos).value.op != INVALID_CODE
  {
    hide Decode, WellFormed;
    assert Step(a, s, m) == LenStep(a, s);
  }

  /** Extra bits, whatever they are. */
  lemma ExtraRead(a: State, s: seq<bool>, m: nat) returns (v: nat, b: State)
    requires Finishes(a, s, m) && (a.mode == LENEXT || a.mode == DISTEXT)
    ensures v < Pow2(a.extra) && At(s, a.pos, ToBits(v, a.extra))
    ensures b == if a.mode == LENEXT then a.(mode := DIST, length := a.length + v, pos := a.pos + a.extra)
                 else a.(mode := MATCH, offset := a.offset + v, pos := a.pos + a.extra)
    ensures Leads(a, b, s, m) && Finishes(b, s, m)
  {
    hide WellFormed, Run, At, Pow2, ToBits, Field;
    b := GoesOn(a, s, m);
    FieldBits(s, a.pos, a.extra);
    ExtraGoesOn(a, s, m);
    v := Field(s, a.pos, a.extra);
  }

  lemma DistStepIs(a: State, s: seq<bool>, m: nat, c: nat)
    requires WellFormed(a, s) && a.mode == DIST && InCode(a.ds, c) && c < 32
    requires Decode(DISTS, a.ds, s, a.pos) == Some(Entry(SymOf(DISTS, c), a.ds[c]))
    ensures Step(a, s, m) ==
      if c >= 30 then Some(a.(mode := BAD, pos := a.pos + a.ds[c]))
      else Some(a.(mode := DISTEXT, pos := a.pos + a.ds[c], offset := DBASE[c], extra := EXTRA_DBITS[c]))
  {
    hide Decode, WellFormed, SymOf, DBASE, EXTRA_DBITS;
    if c < 30 {
      DistSymbol(c);
      assert Step(a, s, m) == DistStep(a, s);
    } else {
      UnusedDistance(c);
      assert Step(a, s, m) == DistStep(a, s);
    }
  }

  lemma UnusedDistance(c: nat)
    requires 30 <= c < 32
    ensures SymOf(DISTS, c).op / 64 % 2 == 1
  {
  }

  lemma DistDecided(a: State, s: seq<bool>, m: nat)
    requires WellFormed(a, s) && a.mode == DIST && Step(a, s, m).Some? && Step(a, s, m).value.mode != BAD
    ensures Decode(DISTS, a.ds, s, a.pos).Some? && Decode(DISTS, a.ds, s, a.pos).value.op != INVALID_CODE
  {
    hide Decode, WellFormed;
    assert Step(a, s, m) == DistStep(a, s);
  }

  lemma DistRead(a: State, s: seq<bool>, m: nat) returns (c: nat, b: State)
    requires Finishes(a, s, m) && a.mode == DIST
    ensures InCode(a.ds, c) && c < D_CODES && At(s, a.pos, CodeBits(a.ds, c))
    ensures b == a.(mode := DISTEXT, pos := a.pos + a.ds[c], offset := DBASE[c], extra := EXTRA_DBITS[c])
    ensures Leads(a, b, s, m) && Finishes(b, s, m)
  {
    hide Decode, WellFormed, SymOf, Step, Run, At, CodeBits, DBASE, EXTRA_DBITS;
    WellFormedCodes(a, s);
    b := GoesOn(a, s, m);
    DistDecided(a, s, m);
    c := CodeRead(DISTS, a.ds, s, a.pos);
    DistStepIs(a, s, m, c);
  }

  lemma MatchGoesOn(a: State, s: seq<bool>, m: nat)
    requires WellFormed(a, s) && a.mode == MATCH && a.length >= 1
    requires Step(a, s, m).Some? && Step(a, s, m).value.mode != BAD
    ensures |a.out| < m && 1 <= a.offset <= |a.out|
    ensures var b := Step(a, s, m).value;
      |b.out| == |a.out| + 1 && (b.mode == if a.length == 1 then LEN else MATCH)
      && b.length == a.length - 1 && b.offset == a.offset
  {
    hide WellFormed;
    assert Step(a, s, m) == MatchStep(a, s, m);
  }

  /** A match that was copied reaches back no farther than the output. */
  lemma {:induction false} CopyRoom(a: State, s: seq<bool>, m: nat)
    requires Finishes(a, s, m) && a.mode == MATCH && a.length >= 1
    ensures 1 <= a.offset <= |a.out| && |a.out| + a.length <= m
    decreases a.length
  {
    hide WellFormed, Step, Run;
    var b := GoesOn(a, s, m);
    MatchGoesOn(a, s, m);
    if a.length > 1 { CopyRoom(b, s, m); }
  }

  lemma CopyRead(a: State, s: seq<bool>, m: nat) returns (b: State)
    requires Finishes(a, s, m) && a.mode == MATCH && a.length >= 1
    ensures 1 <= a.offset <= |a.out|
    ensures Leads(a, b, s, m) && Finishes(b, s, m) && b.mode == LEN && SameCodes(a, b) && b.pos == a.pos
    ensures b.out == CopyMatch(a.out, a.length, a.offset)
  {
    hide WellFormed, Step, Run, CopyMatch;
    CopyRoom(a, s, m);
    b := CopyDecodes(a, s, m);
  }

  lemma LitStep(a: State, s: seq<bool>, m: nat)
    requires WellFormed(a, s) && a.mode == LIT && Step(a, s, m).Some?
    ensures Step(a, s, m).value == a.(mode := LEN, out := a.out + [a.length % 256])
  {
    hide WellFormed;
  }

  lemma LeadsOver(a: State, b: State, c: State, s: seq<bool>, m: nat)
    requires Leads(a, b, s, m) && Leads(b, c, s, m)
    ensures Leads(a, c, s, m)
  {
    LeadsOn(a, b, c, s, m);
  }

  lemma BasesPositive(lc: LengthCode, dc: DistCode)
    ensures LBASE[lc] >= 3 && DBASE[dc] >= 1
  {
  }

  /** Length and distance, each with its extra bits, and the bytes copied. */
  lemma CopySymbolRead(a: State, s: seq<bool>, m: nat, c: nat, x: State) returns (y: Symbol, b: State)
    requires WellFormed(a, s) && a.mode == LEN && 257 <= c < 286 && InCode(a.ls, c) && At(s, a.pos, CodeBits(a.ls, c))
    requires x == AfterLength(a, c, a.ls[c]) && Leads(a, x, s, m) && Finishes(x, s, m)
    ensures Codable(a.ls, a.ds, y) && InReach(a.out, TokenOf(y)) && At(s, a.pos, SymbolBits(a.ls, a.ds, y))
    ensures Leads(a, b, s, m) && Finishes(b, s, m) && b.mode == LEN && SameCodes(a, b)
    ensures b.pos == a.pos + |SymbolBits(a.ls, a.ds, y)| && b.out == ExpandOne(a.out, TokenOf(y))
  {
    hide WellFormed, Run, At, CodeBits, ToBits, Pow2, CopyMatch, EXTRA_LBITS, EXTRA_DBITS, LBASE, DBASE;
    hide Leads, Finishes;
    var lx, dx, dc: nat;
    var x2, x3, x4;
    lx, x2 := ExtraRead(x, s, m);
    dc, x3 := DistRead(x2, s, m);
    dx, x4 := ExtraRead(x3, s, m);
    BasesPositive(c - 257, dc);
    b := CopyRead(x4, s, m);
    LeadsOver(x, x2, x3, s, m);
    LeadsOver(x, x3, x4, s, m);
    LeadsOver(x, x4, b, s, m);
    LeadsOver(a, x, b, s, m);
    y := Copy(c - 257, lx, dc, dx);
    CodeBitsLength(a.ls, c);
    CodeBitsLength(a.ds, dc);
    AtJoin(s, a.pos, CodeBits(a.ls, c), ToBits(lx, x.extra));
    AtJoin(s, x2.pos, CodeBits(a.ds, dc), ToBits(dx, x3.extra));
    AtJoin(s, a.pos, CodeBits(a.ls, c) + ToBits(lx, x.extra), CodeBits(a.ds, dc) + ToBits(dx, x3.extra));
  }

  lemma LiteralRead(a: State, s: seq<bool>, m: nat, c: nat, x: State) returns (y: Symbol, b: State)
    requires WellFormed(a, s) && a.mode == LEN && c < 256 && InCode(a.ls, c) && At(s, a.pos, CodeBits(a.ls, c))
    requires x == AfterLength(a, c, a.ls[c]) && Leads(a, x, s, m) && Finishes(x, s, m)
    ensures Codable(a.ls, a.ds, y) && InReach(a.out, TokenOf(y)) && At(s, a.pos, SymbolBits(a.ls, a.ds, y))
    ensures Leads(a, b, s, m) && Finishes(b, s, m) && b.mode == LEN && SameCodes(a, b)
    ensures b.pos == a.pos + |SymbolBits(a.ls, a.ds, y)| && b.out == ExpandOne(a.out, TokenOf(y))
  {
    hide WellFormed, Run, At, CodeBits, Step, Leads;
    b := GoesOn(x, s, m);
    LitStep(x, s, m);
    LeadsOver(a, x, b, s, m);
    y := Byte(c);
    CodeBitsLength(a.ls, c);
  }

  /** The symbols up to the end of the block. */
  lemma {:induction false} SymbolsRead(a: State, s: seq<bool>, m: nat) returns (ys: seq<Symbol>, b: State)
    requires Finishes(a, s, m) && a.mode == LEN
    ensures InCode(a.ls, END_BLOCK) && SymbolsOk(a.ls, a.ds, a.out, ys)
    ensures At(s, a.pos, CodedBits(a.ls, a.ds, ys))
    ensures Leads(a, b, s, m) && Finishes(b, s, m) && b.mode == TYPE && b.last == a.last
    ensures b.pos == a.pos + |CodedBits(a.ls, a.ds, ys)| && b.out == Spelled(a.out, ys)
    decreases |s| - a.pos
  {
    hide WellFormed, Run, At, CodeBits, SymbolBits, Codable, InReach, ExpandOne, Leads;
    FinishesWithin(a, s, m);
    var c, x := LengthRead(a, s, m);
    CodeBitsLength(a.ls, c);
    if c == END_BLOCK {
      ys, b := [], x;
      assert CodedBits(a.ls, a.ds, ys) == CodeBits(a.ls, END_BLOCK);
    } else {
      var y, n;
      if c < 256 {
        y, n := LiteralRead(a, s, m, c, x);
      } else {
        y, n := CopySymbolRead(a, s, m, c, x);
      }
      SymbolTakes(a.ls, a.ds, y);
      FinishesWithin(n, s, m);
      var rest;
      rest, b := SymbolsRead(n, s, m);
      ys := [y] + rest;
      assert ys[1..] == rest;
      LeadsOver(a, n, b, s, m);
      AtJoin(s, a.pos, SymbolBits(a.ls, a.ds, y), CodedBits(a.ls, a.ds, rest));
      Glue(SymbolBits(a.ls, a.ds, y), SymbolsBits(a.ls, a.ds, rest), CodeBits(a.ls, END_BLOCK));
    }
  }

  lemma FinishesWithin(a: State, s: seq<bool>, m: nat)
    requires Finishes(a, s, m)
    ensures a.pos <= |s| && WellFormed(a, s)
  {
    hide Run;
  }

  lemma SymbolTakes(ls: seq<nat>, ds: seq<nat>, y: Symbol)
    requires Codable(ls, ds, y)
    ensures |SymbolBits(ls, ds, y)| > 0
  {
    hide ToBits, Word;
    match y {
      case Byte(c) => CodeBitsLength(ls, c);
      case Copy(lc, _, _, _) => CodeBitsLength(ls, LITERALS + 1 + lc);
    }
  }

  // ---------------------------------------------------------- dynamic headers

  lemma CountsRead(a: State, s: seq<bool>, m: nat) returns (b: State)
    requires Finishes(a, s, m) && a.mode == TABLE
    ensures b == a.(mode := LENLENS, pos := a.pos + 14, lens := [], nlen := b.nlen, ndist := b.ndist, ncode := b.ncode)
    ensures 257 <= b.nlen <= 286 && 1 <= b.ndist <= 30 && 4 <= b.ncode <= 19
    ensures At(s, a.pos, ToBits(b.nlen - 257, 5) + ToBits(b.ndist - 1, 5) + ToBits(b.ncode - 4, 4))
    ensures Leads(a, b, s, m) && Finishes(b, s, m)
  {
    hide WellFormed, Run, At, Pow2, ToBits, Field;
    b := GoesOn(a, s, m);
    assert Step(a, s, m) == TableStep(a, s);
    Pow2Values();
    FieldBits(s, a.pos, 5);
    FieldBits(s, a.pos + 5, 5);
    FieldBits(s, a.pos + 10, 4);
    AtJoin(s, a.pos, ToBits(b.nlen - 257, 5), ToBits(b.ndist - 1, 5));
    AtJoin(s, a.pos, ToBits(b.nlen - 257, 5) + ToBits(b.ndist - 1, 5), ToBits(b.ncode - 4, 4));
  }

  /** From field i on, the fields are at 3-bit steps from p. */
  ghost predicate FieldsAt(s: seq<bool>, p: nat, i: nat, fields: seq<nat>) {
    forall j :: i <= j < |fields| ==> At(s, p + 3 * (j - i), ToBits(fields[j], 3))
  }

  lemma LenLensStepIs(a: State, s: seq<bool>, m: nat)
    requires WellFormed(a, s) && a.mode == LENLENS && Step(a, s, m).Some? && Step(a, s, m).value.mode != BAD
    ensures |a.lens| <= a.ncode <= BL_CODES && AtMost(a.lens, 7)
    ensures var b := Step(a, s, m).value;
      if |a.lens| < a.ncode then a.pos + 3 <= |s| && b == a.(pos := a.pos + 3, lens := a.lens + [Field(s, a.pos, 3)])
      else Acceptable(CODES, Unorder(a.lens)) && b == a.(mode := CODELENS, codes := Unorder(a.lens), lens := [])
  {
    hide Prefix, Field, Acceptable, Unorder;
    assert Step(a, s, m) == LenLensStep(a, s);
  }

  /** The remaining bit length code lengths, and the code they make. */
  lemma {:induction false} FieldsRead(a: State, s: seq<bool>, m: nat) returns (fields: seq<nat>, b: State)
    requires Finishes(a, s, m) && a.mode == LENLENS
    ensures |a.lens| <= |fields| == a.ncode <= BL_CODES && a.lens <= fields && AtMost(fields, 7)
    ensures FieldsAt(s, a.pos, |a.lens|, fields) && Acceptable(CODES, Unorder(fields))
    ensures b == a.(mode := CODELENS, pos := a.pos + 3 * (a.ncode - |a.lens|), codes := Unorder(fields), lens := [])
    ensures Leads(a, b, s, m) && Finishes(b, s, m)
    decreases |s| - a.pos
  {
    hide WellFormed, Run, Step, At, Pow2, ToBits, Field, Unorder, Acceptable, Leads;
    FinishesWithin(a, s, m);
    var x := GoesOn(a, s, m);
    LenLensStepIs(a, s, m);
    if |a.lens| < a.ncode {
      FinishesWithin(x, s, m);
      fields, b := FieldsRead(x, s, m);
      LeadsOver(a, x, b, s, m);
      FieldBits(s, a.pos, 3);
      assert fields[|a.lens|] == x.lens[|a.lens|];
      forall j | |a.lens| <= j < |fields| ensures At(s, a.pos + 3 * (j - |a.lens|), ToBits(fields[j], 3)) {
        assert j > |a.lens| ==> a.pos + 3 * (j - |a.lens|) == x.pos + 3 * (j - |x.lens|);
      }
    } else {
      fields, b := a.lens, x;
    }
  }

  lemma {:induction false} FieldsTogether(s: seq<bool>, p: nat, fields: seq<nat>, blLens: seq<nat>, n: nat)
    requires n <= |fields| <= BL_CODES == |blLens| && FieldsAt(s, p, 0, fields) && blLens == Unorder(fields) && p <= |s|
    ensures At(s, p, BlLensBits(blLens, n)) && |BlLensBits(blLens, n)| == 3 * n
  {
    hide ToBits, Unorder, At;
    BlLensBitsLength(blLens, n);
    if n > 0 {
      FieldsTogether(s, p, fields, blLens, n - 1);
      assert At(s, p + 3 * (n - 1 - 0), ToBits(fields[n - 1], 3));
      assert blLens[BL_ORDER[n - 1]] == fields[n - 1];
      AtJoin(s, p, BlLensBits(blLens, n - 1), ToBits(fields[n - 1], 3));
    } else {
      AtNothing(s, p);
    }
  }

  lemma AtNothing(s: seq<bool>, p: nat)
    requires p <= |s|
    ensures At(s, p, [])
  {
  }

  /** One symbol of a complete bit length code. */
  lemma OpRead(a: State, s: seq<bool>, m: nat) returns (op: Rle, b: State)
    requires Finishes(a, s, m) && a.mode == CODELENS && |a.lens| < a.nlen + a.ndist && Complete(a.codes)
    ensures ValidRle(op) && InCode(a.codes, op.sym) && At(s, a.pos, OpBits(a.codes, op))
    ensures op.sym == REP_3_6 ==> |a.lens| > 0
    ensures b == a.(pos := a.pos + |OpBits(a.codes, op)|, lens := Append(a.lens, op))
    ensures Leads(a, b, s, m) && Finishes(b, s, m) && |b.lens| <= a.nlen + a.ndist && b.pos > a.pos
  {
    hide WellFormed, Run, At, Pow2, ToBits, Field, Decode, CodeBits, Complete, Append, Step;
    WellFormedCodes(a, s);
    b := GoesOn(a, s, m);
    OpDecided(a, s, m);
    var c := CodeRead(CODES, a.codes, s, a.pos);
    OpStep(a, s, m, c);
    var n := ExtraBlBits(c);
    FieldBits(s, a.pos + a.codes[c], n);
    op := Rle(c, Field(s, a.pos + a.codes[c], n));
    CodeBitsLength(a.codes, c);
    AtJoin(s, a.pos, CodeBits(a.codes, c), ToBits(op.extra, n));
  }

  lemma OpDecided(a: State, s: seq<bool>, m: nat)
    requires WellFormed(a, s) && a.mode == CODELENS && |a.lens| < a.nlen + a.ndist && Step(a, s, m).Some?
    ensures Decode(CODES, a.codes, s, a.pos).Some?
  {
    hide WellFormed, Decode, Append;
    assert Step(a, s, m) == CodeLensStep(a, s);
  }

  lemma OpStep(a: State, s: seq<bool>, m: nat, c: nat)
    requires WellFormed(a, s) && a.mode == CODELENS && |a.lens| < a.nlen + a.ndist && InCode(a.codes, c) && c < BL_CODES
    requires Decode(CODES, a.codes, s, a.pos) == Some(Entry(SymOf(CODES, c), a.codes[c]))
    requires Step(a, s, m).Some? && Step(a, s, m).value.mode != BAD
    ensures c == REP_3_6 ==> |a.lens| > 0
    ensures a.pos + a.codes[c] + ExtraBlBits(c) <= |s|
    ensures var op := Rle(c, Field(s, a.pos + a.codes[c], ExtraBlBits(c)));
      |Append(a.lens, op)| <= a.nlen + a.ndist
      && Step(a, s, m).value == a.(pos := a.pos + a.codes[c] + ExtraBlBits(c), lens := Append(a.lens, op))
  {
    hide WellFormed, Decode, Append, Field, ExtraBlBits;
    assert Step(a, s, m) == CodeLensStep(a, s);
  }

  lemma BuildRead(a: State, s: seq<bool>, m: nat) returns (b: State)
    requires Finishes(a, s, m) && a.mode == CODELENS && |a.lens| == a.nlen + a.ndist
    ensures 257 <= a.nlen <= 286 && 1 <= a.ndist <= 30 && b.ls == a.lens[..a.nlen] && b.ds == a.lens[a.nlen..]
    ensures b.ls[256] != 0 && Buildable(LENS, b.ls, 9) && Buildable(DISTS, b.ds, 6)
    ensures b == a.(mode := LEN, ls := b.ls, ds := b.ds) && Leads(a, b, s, m) && Finishes(b, s, m)
  {
    hide Run, Buildable, Prefix;
    b := GoesOn(a, s, m);
    assert Step(a, s, m) == BuildStep(a, s);
  }

  /** The lengths of both codes: they are filled exactly, and the codes are accepted. */
  lemma {:induction false} OpsRead(a: State, s: seq<bool>, m: nat) returns (ops: seq<Rle>, b: State)
    requires Finishes(a, s, m) && a.mode == CODELENS && Complete(a.codes)
    ensures Sendable(a.codes, ops) && At(s, a.pos, OpsBits(a.codes, ops)) && Expands(a.lens, ops, b.ls + b.ds)
    ensures 257 <= |b.ls| == a.nlen <= 286 && 1 <= |b.ds| == a.ndist <= 30
    ensures b.ls[256] != 0 && Buildable(LENS, b.ls, 9) && Buildable(DISTS, b.ds, 6)
    ensures Leads(a, b, s, m) && Finishes(b, s, m) && b.mode == LEN && b.out == a.out && b.last == a.last
    ensures b.pos == a.pos + |OpsBits(a.codes, ops)|
    decreases |s| - a.pos
  {
    hide WellFormed, Run, At, OpBits, Complete, Append, ValidRle, Buildable, Leads;
    FinishesWithin(a, s, m);
    LensWithin(a, s);
    if |a.lens| == a.nlen + a.ndist {
      b := BuildRead(a, s, m);
      ops := [];
      AtNothing(s, a.pos);
    } else {
      var op, x := OpRead(a, s, m);
      FinishesWithin(x, s, m);
      var rest;
      rest, b := OpsRead(x, s, m);
      ops := [op] + rest;
      assert ops[1..] == rest;
      LeadsOver(a, x, b, s, m);
      AtJoin(s, a.pos, OpBits(a.codes, op), OpsBits(a.codes, rest));
    }
  }

  lemma LensWithin(a: State, s: seq<bool>)
    requires WellFormed(a, s) && a.mode == CODELENS
    ensures |a.lens| <= a.nlen + a.ndist && 257 <= a.nlen
  {
    hide Prefix;
  }

  /** With no bit length code at all every length is zero, and no block has such codes. */
  lemma {:induction false} NoBlCode(a: State, s: seq<bool>, m: nat)
    requires WellFormed(a, s) && a.mode == CODELENS && Empty(a.codes) && Empty(a.lens)
    ensures !Finishes(a, s, m)
    decreases |s| - a.pos
  {
    hide WellFormed, Run, Decode, Step;
    if Finishes(a, s, m) {
      LensWithin(a, s);
      FinishesWithin(a, s, m);
      if |a.lens| == a.nlen + a.ndist {
        assert a.lens[..a.nlen][256] == a.lens[256];
        var b := BuildRead(a, s, m);
      } else {
        var b := GoesOn(a, s, m);
        EmptyStep(a, s, m);
        FinishesWithin(b, s, m);
        NoBlCode(b, s, m);
      }
    }
  }

  lemma EmptyStep(a: State, s: seq<bool>, m: nat)
    requires WellFormed(a, s) && a.mode == CODELENS && |a.lens| < a.nlen + a.ndist && Empty(a.codes)
    requires Step(a, s, m).Some?
    ensures Step(a, s, m).value == a.(pos := a.pos + 1, lens := a.lens + [0])
  {
    hide WellFormed, Field, MaxLen, Low, FromBits;
    WellFormedCodes(a, s);
    assert Step(a, s, m) == CodeLensStep(a, s);
    var h := FromBits(s[a.pos..]);
    assert forall c: nat :: !Matches(a.codes, c, h);
    assert Decode(CODES, a.codes, s, a.pos) == Some(Code(INVALID_CODE, 1, 0));
  }

  lemma NoEmptyCode(a: State, s: seq<bool>, m: nat)
    requires Finishes(a, s, m) && a.mode == CODELENS && a.lens == [] && Acceptable(CODES, a.codes)
    ensures Complete(a.codes)
  {
    hide WellFormed, Run, Complete;
    FinishesWithin(a, s, m);
    if Empty(a.codes) { NoBlCode(a, s, m); }
  }

  /** A dynamic header that led to symbols is one of the grammar. */
  lemma HeaderRead(a: State, s: seq<bool>, m: nat) returns (h: Header, b: State)
    requires Finishes(a, s, m) && a.mode == TABLE
    ensures HeaderOk(h) && At(s, a.pos, DynamicBits(h))
    ensures Leads(a, b, s, m) && Finishes(b, s, m) && b.mode == LEN && b.ls == h.ls && b.ds == h.ds
    ensures b.pos == a.pos + |DynamicBits(h)| && b.out == a.out && b.last == a.last
  {
    hide WellFormed, Run, At, OpsBits, Complete, Expands, ToBits, Leads, TooBig, Sendable, BlLensBits, Finishes;
    hide FieldsAt, NotOversubscribed, Empty;
    var x1 := CountsRead(a, s, m);
    var fields, x2 := FieldsRead(x1, s, m);
    var blLens := Unorder(fields);
    FinishesWithin(x1, s, m);
    FinishesWithin(x2, s, m);
    NoEmptyCode(x2, s, m);
    FieldsTogether(s, x1.pos, fields, blLens, x1.ncode);
    UnorderAtMost(fields, 7);
    var ops;
    ops, b := OpsRead(x2, s, m);
    h := Header(x1.ncode, blLens, ops, b.ls, b.ds);
    LeadsOver(a, x1, x2, s, m);
    LeadsOver(a, x2, b, s, m);
    AtJoin(s, x1.pos, BlLensBits(blLens, x1.ncode), OpsBits(blLens, ops));
    AtJoin(s, a.pos, CountsBits(h), BlLensBits(blLens, x1.ncode) + OpsBits(blLens, ops));
  }

  // ------------------------------------------------------------ stored blocks

  lemma {:induction false} DataRead(a: State, s: seq<bool>, m: nat) returns (data: seq<byte>, b: State)
    requires Finishes(a, s, m) && a.mode == COPY
    ensures |data| == a.length && At(s, a.pos, BytesToBits(data))
    ensures Leads(a, b, s, m) && Finishes(b, s, m)
    ensures b == a.(mode := TYPE, pos := a.pos + 8 * |data|, out := a.out + data, length := 0)
    decreases a.length
  {
    hide WellFormed, Run, At, Pow2, ToBits, Field, Leads;
    FinishesWithin(a, s, m);
    var x := GoesOn(a, s, m);
    assert Step(a, s, m) == CopyStep(a, s, m);
    if a.length == 0 {
      data, b := [], x;
      AtNothing(s, a.pos);
      assert a.out + data == a.out;
    } else {
      Pow2Values();
      FieldBits(s, a.pos, 8);
      var c: byte := Field(s, a.pos, 8);
      var rest;
      rest, b := DataRead(x, s, m);
      data := [c] + rest;
      assert data[1..] == rest;
      LeadsOver(a, x, b, s, m);
      AtJoin(s, a.pos, ToBits(c, 8), BytesToBits(rest));
      assert a.out + [c] + rest == a.out + data;
    }
  }

  /** Length and complement at a byte boundary. */
  lemma StoredLengthRead(a: State, s: seq<bool>, m: nat) returns (b: State)
    requires Finishes(a, s, m) && a.mode == STORED && a.pos % 8 == 0
    ensures b.length <= 0xffff && b == a.(mode := COPY, length := b.length, pos := a.pos + 32)
    ensures At(s, a.pos, ToBits(b.length, 16) + ToBits(0xffff - b.length, 16))
    ensures Leads(a, b, s, m) && Finishes(b, s, m)
  {
    hide WellFormed, Run, At, Pow2, ToBits, Field;
    b := GoesOn(a, s, m);
    assert Step(a, s, m) == StoredStep(a, s);
    Pow2Values();
    FieldBits(s, a.pos, 16);
    FieldBits(s, a.pos + 16, 16);
    AtJoin(s, a.pos, ToBits(b.length, 16), ToBits(0xffff - b.length, 16));
  }

  /** Padding to a byte boundary. */
  lemma PadRead(a: State, s: seq<bool>, m: nat) returns (pad: seq<bool>, b: State)
    requires Finishes(a, s, m) && a.mode == STORED
    ensures |pad| < 8 && (a.pos + |pad|) % 8 == 0 && At(s, a.pos, pad)
    ensures b == a.(pos := a.pos + |pad|) && Leads(a, b, s, m) && Finishes(b, s, m)
  {
    hide WellFormed, Run, Field;
    FinishesWithin(a, s, m);
    b := a;
    if a.pos % 8 != 0 {
      b := GoesOn(a, s, m);
      assert Step(a, s, m) == StoredStep(a, s);
    } else {
      LeadsNowhere(a, s, m);
    }
    pad := s[a.pos..b.pos];
  }

  // ------------------------------------------------------------ whole streams

  /** The final bit and a type that exists. */
  lemma TypeRead(a: State, s: seq<bool>, m: nat) returns (kind: nat, last: bool, b: State)
    requires Finishes(a, s, m) && a.mode == TYPE && !a.last
    ensures kind <= 2 && At(s, a.pos, KindBits(kind, last)) && Leads(a, b, s, m) && Finishes(b, s, m)
    ensures var x := a.(last := last, pos := a.pos + 3);
      b == if kind == 0 then x.(mode := STORED)
           else if kind == 1 then x.(mode := LEN, ls := FixedLitLens(), ds := FixedDistLens())
           else x.(mode := TABLE)
  {
    hide WellFormed, Run, Pow2, ToBits, Field, FixedLitLens, FixedDistLens;
    b := GoesOn(a, s, m);
    assert Step(a, s, m) == TypeStep(a, s);
    Pow2Values();
    FieldBits(s, a.pos + 1, 2);
    kind, last := Field(s, a.pos + 1, 2), s[a.pos];
    assert s[a.pos..a.pos + 1] == [last];
    AtJoin(s, a.pos, [last], ToBits(kind, 2));
  }

  /** After the final block the stream ends at the next byte boundary. */
  lemma EndRead(a: State, s: seq<bool>, m: nat) returns (pad: seq<bool>)
    requires Finishes(a, s, m) && a.mode == TYPE && a.last
    ensures |pad| < 8 && (a.pos + |pad|) % 8 == 0 && At(s, a.pos, pad)
    ensures Run(a, s, m) == a.(mode := DONE, pos := a.pos + |pad|)
  {
    hide WellFormed;
    var b := GoesOn(a, s, m);
    assert Step(a, s, m) == TypeStep(a, s);
    assert Step(b, s, m).None?;
    pad := s[a.pos..b.pos];
  }

  lemma StoredRead(a: State, s: seq<bool>, m: nat) returns (blk: Block, b: State)
    requires Finishes(a, s, m) && a.mode == STORED && a.pos >= 3
    ensures BlockOk(blk, a.pos - 3, a.out) && blk.Stored?
    ensures At(s, a.pos, blk.pad + ((ToBits(|blk.data|, 16) + ToBits(0xffff - |blk.data|, 16)) + BytesToBits(blk.data)))
    ensures Leads(a, b, s, m) && Finishes(b, s, m) && b.mode == TYPE && b.last == a.last
    ensures b.pos == a.pos + |blk.pad| + 32 + 8 * |blk.data| && b.out == Yield(blk, a.out)
  {
    hide WellFormed, Run, At, ToBits, BytesToBits, Leads;
    var pad, x1 := PadRead(a, s, m);
    var x2 := StoredLengthRead(x1, s, m);
    var data;
    data, b := DataRead(x2, s, m);
    blk := Stored(pad, data);
    LeadsOver(a, x1, x2, s, m);
    LeadsOver(a, x2, b, s, m);
    AtJoin(s, x1.pos, ToBits(|data|, 16) + ToBits(0xffff - |data|, 16), BytesToBits(data));
    AtJoin(s, a.pos, pad, (ToBits(|data|, 16) + ToBits(0xffff - |data|, 16)) + BytesToBits(data));
  }

  /** What a block that was read comes to. */
  ghost predicate ReadAs(a: State, b: State, s: seq<bool>, m: nat, blk: Block, last: bool) {
    && BlockOk(blk, a.pos, a.out) && At(s, a.pos, BlockBits(blk, last))
    && Leads(a, b, s, m) && Finishes(b, s, m) && b.mode == TYPE && b.last == last
    && b.pos == a.pos + |BlockBits(blk, last)| && b.out == Yield(blk, a.out) && b.pos > a.pos
  }

  /** The type has been read. */
  ghost predicate Typed(a: State, x: State, s: seq<bool>, m: nat, kind: nat, last: bool) {
    && a.mode == TYPE && At(s, a.pos, KindBits(kind, last)) && Leads(a, x, s, m) && Finishes(x, s, m)
    && x.pos == a.pos + 3 && x.last == last && x.out == a.out
  }

  lemma StoredBlockRead(a: State, x: State, s: seq<bool>, m: nat, last: bool) returns (blk: Block, b: State)
    requires Typed(a, x, s, m, 0, last) && x.mode == STORED
    ensures ReadAs(a, b, s, m, blk, last)
  {
    hide WellFormed, Run, At, ToBits, BytesToBits, Leads;
    blk, b := StoredRead(x, s, m);
    AtJoin(s, a.pos, KindBits(0, last),
      blk.pad + ((ToBits(|blk.data|, 16) + ToBits(0xffff - |blk.data|, 16)) + BytesToBits(blk.data)));
    LeadsOver(a, x, b, s, m);
  }

  lemma FixedBlockRead(a: State, x: State, s: seq<bool>, m: nat, last: bool) returns (blk: Block, b: State)
    requires Typed(a, x, s, m, 1, last) && x.mode == LEN && x.ls == FixedLitLens() && x.ds == FixedDistLens()
    ensures ReadAs(a, b, s, m, blk, last)
  {
    hide WellFormed, Run, At, ToBits, Leads, CodedBits, SymbolsOk, Spelled, FixedLitLens, FixedDistLens;
    var ys;
    ys, b := SymbolsRead(x, s, m);
    blk := Fixed(ys);
    AtJoin(s, a.pos, KindBits(1, last), CodedBits(x.ls, x.ds, ys));
    LeadsOver(a, x, b, s, m);
  }

  lemma DynamicBlockRead(a: State, x: State, s: seq<bool>, m: nat, last: bool) returns (blk: Block, b: State)
    requires Typed(a, x, s, m, 2, last) && x.mode == TABLE
    ensures ReadAs(a, b, s, m, blk, last)
  {
    hide WellFormed, Run, At, ToBits, Leads, HeaderOk, CodedBits, SymbolsOk, Spelled, DynamicBits;
    var h, y := HeaderRead(x, s, m);
    var ys;
    ys, b := SymbolsRead(y, s, m);
    blk := Dynamic(h, ys);
    LeadsOver(x, y, b, s, m);
    AtJoin(s, x.pos, DynamicBits(h), CodedBits(h.ls, h.ds, ys));
    AtJoin(s, a.pos, KindBits(2, last), DynamicBits(h) + CodedBits(h.ls, h.ds, ys));
    LeadsOver(a, x, b, s, m);
  }

  /** A block of any type. */
  lemma BlockRead(a: State, s: seq<bool>, m: nat) returns (blk: Block, last: bool, b: State)
    requires Finishes(a, s, m) && a.mode == TYPE && !a.last
    ensures ReadAs(a, b, s, m, blk, last)
  {
    hide WellFormed, Run, At, KindBits, Leads, FixedLitLens, FixedDistLens, ReadAs;
    var kind, x;
    kind, last, x := TypeRead(a, s, m);
    if kind == 0 {
      blk, b := StoredBlockRead(a, x, s, m, last);
    } else if kind == 1 {
      blk, b := FixedBlockRead(a, x, s, m, last);
    } else {
      blk, b := DynamicBlockRead(a, x, s, m, last);
    }
  }

  /** All blocks up to the one marked final. */
  lemma {:induction false} BlocksRead(a: State, s: seq<bool>, m: nat) returns (bs: seq<Block>, b: State)
    requires Finishes(a, s, m) && a.mode == TYPE
    ensures BlocksOk(bs, a.pos, a.out) && (bs == [] <==> a.last) && At(s, a.pos, BlocksBits(bs, a.pos, a.out))
    ensures Leads(a, b, s, m) && Finishes(b, s, m) && b.mode == TYPE && b.last
    ensures b.pos == a.pos + |BlocksBits(bs, a.pos, a.out)| && b.out == YieldAll(bs, a.out)
    decreases |s| - a.pos
  {
    hide WellFormed, Run, At, Leads, BlockBits, BlockOk, Yield, Shaped;
    FinishesWithin(a, s, m);
    if a.last {
      bs, b := [], a;
      AtNothing(s, a.pos);
      LeadsNowhere(a, s, m);
    } else {
      var blk, last, x := BlockRead(a, s, m);
      FinishesWithin(x, s, m);
      var rest;
      rest, b := BlocksRead(x, s, m);
      bs := [blk] + rest;
      assert bs[1..] == rest && (|bs| == 1 <==> last);
      LeadsOver(a, x, b, s, m);
      BlockIsShaped(blk, a.pos, a.out);
      AtJoin(s, a.pos, BlockBits(blk, last), BlocksBits(rest, x.pos, x.out));
    }
  }

  lemma BlockIsShaped(b: Block, pos: nat, out: seq<byte>)
    requires BlockOk(b, pos, out)
    ensures Shaped(b)
  {
  }

  /** What inflate accepts is a deflate stream, and its output what the stream stands for. */
  lemma AcceptsStreams(s: seq<bool>, m: nat) returns (bs: seq<Block>, pad: seq<bool>)
    requires WellFormed(Start(), s) && Run(Start(), s, m).mode == DONE
    ensures var r := Run(Start(), s, m);
      r.pos <= |s| && Stream(s[..r.pos], bs, pad) && r.out == YieldAll(bs, [])
  {
    hide WellFormed, Run, BlocksBits, BlocksOk, Leads;
    var b;
    bs, b := BlocksRead(Start(), s, m);
    pad := EndRead(b, s, m);
    RunOn(Start(), b, s, m);
    AtJoin(s, 0, BlocksBits(bs, 0, []), pad);
  }

  lemma RunOn(a: State, b: State, s: seq<bool>, m: nat)
    requires Leads(a, b, s, m)
    ensures WellFormed(a, s) && WellFormed(b, s) && Run(a, s, m) == Run(b, s, m)
  {
  }

  // ------------------------------------------------- every stream is accepted

  lemma LengthRuns(a: State, s: seq<bool>, m: nat, lc: LengthCode, lx: nat) returns (b: State)
    requires WellFormed(a, s) && a.mode == LEN && InCode(a.ls, LITERALS + 1 + lc)
    requires |EXTRA_LBITS| == LENGTH_CODES && lx < Pow2(EXTRA_LBITS[lc])
    requires At(s, a.pos, CodeBits(a.ls, LITERALS + 1 + lc) + ToBits(lx, EXTRA_LBITS[lc]))
    ensures Leads(a, b, s, m) && WellFormed(b, s) && b.mode == DIST && SameCodes(a, b) && b.out == a.out
    ensures b.pos == a.pos + |CodeBits(a.ls, LITERALS + 1 + lc)| + EXTRA_LBITS[lc] && b.length == LBASE[lc] + lx
  {
    hide WellFormed, Run, At, CodeBits, ToBits, Pow2, EXTRA_LBITS, LBASE, Leads, Field;
    AtParts(s, a.pos, CodeBits(a.ls, LITERALS + 1 + lc), ToBits(lx, EXTRA_LBITS[lc]));
    b := LengthSymbolDecodes(a, s, m, lc, ToBits(lx, EXTRA_LBITS[lc]));
    FieldAt(s, b.pos - EXTRA_LBITS[lc], lx, EXTRA_LBITS[lc]);
    LeadsTo(a, b, s, m);
  }

  lemma DistanceRuns(a: State, s: seq<bool>, m: nat, dc: DistCode, dx: nat) returns (b: State)
    requires WellFormed(a, s) && a.mode == DIST && InCode(a.ds, dc)
    requires |EXTRA_DBITS| == D_CODES && dx < Pow2(EXTRA_DBITS[dc])
    requires At(s, a.pos, CodeBits(a.ds, dc) + ToBits(dx, EXTRA_DBITS[dc]))
    ensures Leads(a, b, s, m) && WellFormed(b, s) && b.mode == MATCH && SameCodes(a, b) && b.out == a.out
    ensures b.pos == a.pos + |CodeBits(a.ds, dc)| + EXTRA_DBITS[dc]
    ensures b.length == a.length && b.offset == DBASE[dc] + dx
  {
    hide WellFormed, Run, At, CodeBits, ToBits, Pow2, EXTRA_DBITS, DBASE, Leads, Field;
    AtParts(s, a.pos, CodeBits(a.ds, dc), ToBits(dx, EXTRA_DBITS[dc]));
    b := DistanceSymbolDecodes(a, s, m, dc, ToBits(dx, EXTRA_DBITS[dc]));
    FieldAt(s, b.pos - EXTRA_DBITS[dc], dx, EXTRA_DBITS[dc]);
    LeadsTo(a, b, s, m);
  }

  lemma SymbolRuns(a: State, s: seq<bool>, m: nat, y: Symbol) returns (b: State)
    requires WellFormed(a, s) && a.mode == LEN && Codable(a.ls, a.ds, y) && InReach(a.out, TokenOf(y))
    requires At(s, a.pos, SymbolBits(a.ls, a.ds, y)) && |ExpandOne(a.out, TokenOf(y))| <= m
    ensures Leads(a, b, s, m) && b.mode == LEN && SameCodes(a, b)
    ensures b.pos == a.pos + |SymbolBits(a.ls, a.ds, y)| && b.out == ExpandOne(a.out, TokenOf(y))
  {
    hide WellFormed, Run, At, CodeBits, ToBits, Pow2, CopyMatch, EXTRA_LBITS, EXTRA_DBITS, LBASE, DBASE, Leads;
    match y
    case Byte(c) =>
      CodeBitsLength(a.ls, c);
      b := LiteralDecodes(a, s, m, c);
    case Copy(lc, lx, dc, dx) =>
      ExtraTables();
      AtParts(s, a.pos, CodeBits(a.ls, LITERALS + 1 + lc) + ToBits(lx, EXTRA_LBITS[lc]),
        CodeBits(a.ds, dc) + ToBits(dx, EXTRA_DBITS[dc]));
      var x := LengthRuns(a, s, m, lc, lx);
      var z := DistanceRuns(x, s, m, dc, dx);
      BasesPositive(lc, dc);
      b := CopyDecodes(z, s, m);
      LeadsOver(a, x, z, s, m);
      LeadsOver(a, z, b, s, m);
  }

  lemma ExtraTables()
    ensures |EXTRA_LBITS| == LENGTH_CODES && |EXTRA_DBITS| == D_CODES
  {
  }

  lemma {:induction false} SymbolsRun(a: State, s: seq<bool>, m: nat, ys: seq<Symbol>) returns (b: State)
    requires WellFormed(a, s) && a.mode == LEN && InCode(a.ls, END_BLOCK) && SymbolsOk(a.ls, a.ds, a.out, ys)
    requires At(s, a.pos, CodedBits(a.ls, a.ds, ys)) && |Spelled(a.out, ys)| <= m
    ensures Leads(a, b, s, m) && b.mode == TYPE && b.last == a.last
    ensures b.pos == a.pos + |CodedBits(a.ls, a.ds, ys)| && b.out == Spelled(a.out, ys)
    decreases |ys|
  {
    hide WellFormed, Run, At, CodeBits, SymbolBits, Codable, InReach, ExpandOne, Leads;
    if ys == [] {
      assert CodedBits(a.ls, a.ds, ys) == CodeBits(a.ls, END_BLOCK);
      CodeBitsLength(a.ls, END_BLOCK);
      b := EndDecodes(a, s, m);
    } else {
      var y, rest := ys[0], ys[1..];
      Glue(SymbolBits(a.ls, a.ds, y), SymbolsBits(a.ls, a.ds, rest), CodeBits(a.ls, END_BLOCK));
      AtParts(s, a.pos, SymbolBits(a.ls, a.ds, y), CodedBits(a.ls, a.ds, rest));
      assert |ExpandOne(a.out, TokenOf(y))| <= m;
      var x := SymbolRuns(a, s, m, y);
      LeadsTo(a, x, s, m);
      b := SymbolsRun(x, s, m, rest);
      LeadsOver(a, x, b, s, m);
    }
  }

  lemma HeaderRuns(a: State, s: seq<bool>, m: nat, h: Header) returns (b: State)
    requires WellFormed(a, s) && a.mode == TABLE && HeaderOk(h) && At(s, a.pos, DynamicBits(h))
    ensures Leads(a, b, s, m) && b.mode == LEN && b.ls == h.ls && b.ds == h.ds
    ensures b.pos == a.pos + |DynamicBits(h)| && b.out == a.out && b.last == a.last
  {
    hide WellFormed, Run, At, OpsBits, Complete, Expands, ToBits, Leads, TooBig, Sendable, BlLensBits;
    AtParts(s, a.pos, CountsBits(h), BlLensBits(h.blLens, h.ncode) + OpsBits(h.blLens, h.ops));
    AtParts(s, a.pos + 14, BlLensBits(h.blLens, h.ncode), OpsBits(h.blLens, h.ops));
    BlLensBitsLength(h.blLens, h.ncode);
    CompleteAccepted(h.blLens);
    var x1 := BlCodesDecode(a, s, m, h.ncode, h.blLens, |h.ls|, |h.ds|);
    LeadsTo(a, x1, s, m);
    var x2 := OpsDecode(x1, s, m, h.ops, h.ls + h.ds);
    LeadsTo(x1, x2, s, m);
    b := LensBuilt(x2, s, m, h.ls, h.ds);
    LeadsOver(a, x1, x2, s, m);
    LeadsOver(a, x2, b, s, m);
  }

  lemma CompleteAccepted(lens: seq<nat>)
    requires Complete(lens)
    ensures Acceptable(CODES, lens)
  {
  }

  lemma AlignIs(pos: nat, n: nat)
    requires n < 8 && (pos + n) % 8 == 0
    ensures Align(pos) == pos + n
  {
  }

  lemma PadRuns(a: State, s: seq<bool>, m: nat, pad: seq<bool>) returns (b: State)
    requires WellFormed(a, s) && a.mode == STORED && |pad| < 8 && (a.pos + |pad|) % 8 == 0 && At(s, a.pos, pad)
    ensures Leads(a, b, s, m) && b == a.(pos := a.pos + |pad|)
  {
    hide WellFormed, Run, Align, Step, Leads;
    AlignIs(a.pos, |pad|);
    b := Whole.AlignGoesOn(a, s, m);
  }

  lemma StoredRuns(a: State, s: seq<bool>, m: nat, pad: seq<bool>, data: seq<byte>) returns (b: State)
    requires WellFormed(a, s) && a.mode == STORED && |pad| < 8 && (a.pos + |pad|) % 8 == 0 && |data| <= 0xffff
    requires At(s, a.pos, pad + ((ToBits(|data|, 16) + ToBits(0xffff - |data|, 16)) + BytesToBits(data)))
    requires |a.out| + |data| <= m
    ensures Leads(a, b, s, m) && b.mode == TYPE && b.last == a.last
    ensures b.pos == a.pos + |pad| + 32 + 8 * |data| && b.out == a.out + data
  {
    hide WellFormed, Run, At, ToBits, BytesToBits, Leads, Step;
    var lens := ToBits(|data|, 16) + ToBits(0xffff - |data|, 16);
    AtParts(s, a.pos, pad, lens + BytesToBits(data));
    AtParts(s, a.pos + |pad|, lens, BytesToBits(data));
    var x := PadRuns(a, s, m, pad);
    LeadsTo(a, x, s, m);
    Whole.LengthsGoOn(x, s, m, |data|);
    var z := Step(x, s, m).value;
    LeadsOne(x, z, s, m);
    LeadsTo(x, z, s, m);
    b := Whole.CopyStored(z, s, m, data);
    LeadsOver(a, x, z, s, m);
    LeadsOver(a, z, b, s, m);
  }

  lemma TypeRuns(a: State, s: seq<bool>, m: nat, kind: nat, last: bool) returns (b: State)
    requires WellFormed(a, s) && a.mode == TYPE && !a.last && kind <= 2 && At(s, a.pos, KindBits(kind, last))
    ensures Leads(a, b, s, m)
    ensures var x := a.(last := last, pos := a.pos + 3);
      b == if kind == 0 then x.(mode := STORED)
           else if kind == 1 then x.(mode := LEN, ls := FixedLitLens(), ds := FixedDistLens())
           else x.(mode := TABLE)
  {
    hide WellFormed, Run, FixedLitLens, FixedDistLens;
    KindIsType(kind, last);
    Whole.TypeGoesOn(a, s, m, kind, last);
    b := Step(a, s, m).value;
    LeadsOne(a, b, s, m);
  }

  lemma KindIsType(kind: nat, last: bool)
    ensures KindBits(kind, last) == Whole.TypeBits(kind, last)
  {
    hide ToBits;
    var v: nat := 2 * kind + (if last then 1 else 0);
    assert v / 2 == kind && (v % 2 == 1 <==> last);
    TypeUnfolds(v);
  }

  lemma TypeUnfolds(v: nat)
    ensures ToBits(v, 3) == [v % 2 == 1] + ToBits(v / 2, 2)
  {
  }

  /** What a block of the grammar comes to. */
  ghost predicate Runs(a: State, b: State, s: seq<bool>, m: nat, blk: Block, last: bool) {
    && Shaped(blk) && Leads(a, b, s, m) && b.mode == TYPE && b.last == last
    && b.pos == a.pos + |BlockBits(blk, last)| && b.out == Yield(blk, a.out)
  }

  /** Where a block may be read. */
  ghost predicate Stands(a: State, s: seq<bool>, m: nat, blk: Block, last: bool) {
    && WellFormed(a, s) && a.mode == TYPE && !a.last && BlockOk(blk, a.pos, a.out)
    && At(s, a.pos, BlockBits(blk, last)) && |Yield(blk, a.out)| <= m
  }

  lemma StoredBlockRuns(a: State, s: seq<bool>, m: nat, blk: Block, last: bool) returns (b: State)
    requires blk.Stored? && Stands(a, s, m, blk, last)
    ensures Runs(a, b, s, m, blk, last)
  {
    hide WellFormed, Run, At, ToBits, BytesToBits, Leads;
    var body := blk.pad + ((ToBits(|blk.data|, 16) + ToBits(0xffff - |blk.data|, 16)) + BytesToBits(blk.data));
    AtParts(s, a.pos, KindBits(0, last), body);
    var x := TypeRuns(a, s, m, 0, last);
    LeadsTo(a, x, s, m);
    b := StoredRuns(x, s, m, blk.pad, blk.data);
    LeadsOver(a, x, b, s, m);
  }

  lemma FixedBlockRuns(a: State, s: seq<bool>, m: nat, blk: Block, last: bool) returns (b: State)
    requires blk.Fixed? && Stands(a, s, m, blk, last)
    ensures Runs(a, b, s, m, blk, last)
  {
    hide WellFormed, Run, At, ToBits, Leads, CodedBits, SymbolsOk, Spelled, FixedLitLens, FixedDistLens;
    AtParts(s, a.pos, KindBits(1, last), CodedBits(FixedLitLens(), FixedDistLens(), blk.ys));
    var x := TypeRuns(a, s, m, 1, last);
    LeadsTo(a, x, s, m);
    FixedHasEnd();
    b := SymbolsRun(x, s, m, blk.ys);
    LeadsOver(a, x, b, s, m);
  }

  lemma DynamicBlockRuns(a: State, s: seq<bool>, m: nat, blk: Block, last: bool) returns (b: State)
    requires blk.Dynamic? && Stands(a, s, m, blk, last)
    ensures Runs(a, b, s, m, blk, last)
  {
    hide WellFormed, Run, At, ToBits, Leads, HeaderOk, CodedBits, SymbolsOk, Spelled, DynamicBits;
    var h := blk.h;
    AtParts(s, a.pos, KindBits(2, last), DynamicBits(h) + CodedBits(h.ls, h.ds, blk.ys));
    var x := TypeRuns(a, s, m, 2, last);
    LeadsTo(a, x, s, m);
    AtParts(s, x.pos, DynamicBits(h), CodedBits(h.ls, h.ds, blk.ys));
    var y := HeaderRuns(x, s, m, h);
    LeadsTo(x, y, s, m);
    HeaderHasEnd(h);
    b := SymbolsRun(y, s, m, blk.ys);
    LeadsOver(x, y, b, s, m);
    LeadsOver(a, x, b, s, m);
  }

  /** Any block of the grammar is read as what it stands for. */
  lemma BlockRuns(a: State, s: seq<bool>, m: nat, blk: Block, last: bool) returns (b: State)
    requires Stands(a, s, m, blk, last)
    ensures Runs(a, b, s, m, blk, last)
  {
    hide Stands, Runs;
    match blk
    case Stored(_, _) => b := StoredBlockRuns(a, s, m, blk, last);
    case Fixed(_) => b := FixedBlockRuns(a, s, m, blk, last);
    case Dynamic(_, _) => b := DynamicBlockRuns(a, s, m, blk, last);
  }

  lemma FixedHasEnd()
    ensures InCode(FixedLitLens(), END_BLOCK)
  {
  }

  lemma HeaderHasEnd(h: Header)
    requires HeaderOk(h)
    ensures InCode(h.ls, END_BLOCK)
  {
  }

  lemma {:induction false} BlocksRun(a: State, s: seq<bool>, m: nat, bs: seq<Block>) returns (b: State)
    requires WellFormed(a, s) && a.mode == TYPE && (bs == [] <==> a.last) && BlocksOk(bs, a.pos, a.out)
    requires At(s, a.pos, BlocksBits(bs, a.pos, a.out)) && |YieldAll(bs, a.out)| <= m
    ensures Leads(a, b, s, m) && b.mode == TYPE && b.last
    ensures b.pos == a.pos + |BlocksBits(bs, a.pos, a.out)| && b.out == YieldAll(bs, a.out)
    decreases |bs|
  {
    hide WellFormed, Run, At, Leads, BlockBits, BlockOk, Yield, Shaped;
    if bs == [] {
      b := a;
      LeadsNowhere(a, s, m);
    } else {
      var last := |bs| == 1;
      BlockIsShaped(bs[0], a.pos, a.out);
      AtParts(s, a.pos, BlockBits(bs[0], last),
        BlocksBits(bs[1..], a.pos + |BlockBits(bs[0], last)|, Yield(bs[0], a.out)));
      assert |Yield(bs[0], a.out)| <= m;
      var x := BlockRuns(a, s, m, bs[0], last);
      LeadsTo(a, x, s, m);
      b := BlocksRun(x, s, m, bs[1..]);
      LeadsOver(a, x, b, s, m);
    }
  }

  lemma EndRuns(a: State, s: seq<bool>, m: nat, pad: seq<bool>)
    requires WellFormed(a, s) && a.mode == TYPE && a.last
    requires |pad| < 8 && (a.pos + |pad|) % 8 == 0 && At(s, a.pos, pad)
    ensures Run(a, s, m) == a.(mode := DONE, pos := a.pos + |pad|)
  {
    hide WellFormed, Align;
    AlignIs(a.pos, |pad|);
    assert Step(a, s, m) == TypeStep(a, s);
    var b := Step(a, s, m).value;
    assert Step(b, s, m).None?;
  }

  /** Every deflate stream is accepted, whatever follows it, if there is room for what it
      stands for: inflate stops at its end with exactly that. */
  lemma StreamsAccepted(s: seq<bool>, m: nat, t: seq<bool>, bs: seq<Block>, pad: seq<bool>)
    requires Stream(t, bs, pad) && t <= s && |YieldAll(bs, [])| <= m
    ensures WellFormed(Start(), s)
    ensures var r := Run(Start(), s, m); r.mode == DONE && r.pos == |t| && r.out == YieldAll(bs, [])
  {
    hide WellFormed, Run, BlocksBits, BlocksOk, Leads;
    StartWellFormed(s);
    assert At(s, 0, t);
    AtParts(s, 0, BlocksBits(bs, 0, []), pad);
    var b := BlocksRun(Start(), s, m, bs);
    LeadsTo(Start(), b, s, m);
    EndRuns(b, s, m, pad);
    RunOn(Start(), b, s, m);
  }

  // ------------------------------------------------------------------ verdicts

  /** A length whose complement is wrong is refused with nothing written. */
  lemma WrongComplement(a: State, s: seq<bool>, m: nat, len: nat, nlen: nat)
    requires WellFormed(a, s) && a.mode == STORED && a.pos % 8 == 0 && len <= 0xffff && nlen <= 0xffff
    requires At(s, a.pos, ToBits(len, 16) + ToBits(nlen, 16)) && len + nlen != 0xffff
    ensures Run(a, s, m) == a.(mode := BAD)
  {
    hide WellFormed, Field, Pow2, ToBits, At;
    AtParts(s, a.pos, ToBits(len, 16), ToBits(nlen, 16));
    Pow2Values();
    FieldAt(s, a.pos, len, 16);
    FieldAt(s, a.pos + 16, nlen, 16);
    AtEnd(s, a.pos + 16, ToBits(nlen, 16));
    assert Step(a, s, m) == StoredStep(a, s);
    BadStays(a.(mode := BAD), s, m);
  }

  /** Nothing refused can be continued to a stream. */
  lemma RefusedForGood(s: seq<bool>, m: nat, u: seq<bool>, t: seq<bool>, bs: seq<Block>, pad: seq<bool>)
    requires WellFormed(Start(), s) && Run(Start(), s, m).mode == BAD && Stream(t, bs, pad)
    ensures !(t <= s + u)
  {
    hide WellFormed, Run;
    if t <= s + u {
      var most := m + |YieldAll(bs, [])|;
      StreamsAccepted(s + u, most, t, bs, pad);
      var r := Run(Start(), s, m);
      RunInPieces(Start(), s, u, m, most);
      WellFormedMore(r, s, u);
      BadStays(r, s + u, most);
    }
  }

  /** The bits determine what they stand for: no two readings of one stream differ. */
  lemma Unambiguous(s: seq<bool>, t: seq<bool>, bs: seq<Block>, pad: seq<bool>,
                    t': seq<bool>, bs': seq<Block>, pad': seq<bool>)
    requires Stream(t, bs, pad) && Stream(t', bs', pad') && t <= s && t' <= s
    ensures t == t' && YieldAll(bs, []) == YieldAll(bs', [])
  {
    hide WellFormed, Run, Stream;
    var m := |YieldAll(bs, [])| + |YieldAll(bs', [])|;
    StreamsAccepted(s, m, t, bs, pad);
    StreamsAccepted(s, m, t', bs', pad');
    assert t == s[..|t|] && t' == s[..|t'|];
  }

  /** However input and room are split into calls, the end is reached exactly when all
      the input begins with a deflate stream that there was room for. */
  lemma CallsAccept(calls: seq<Call>) returns (bs: seq<Block>, pad: seq<bool>)
    requires Recorded(calls) && Onwards(calls) && |calls| > 0 && Last(calls).mode == DONE
    ensures var s, r := BytesToBits(calls[|calls| - 1].given), Last(calls);
      r.pos <= |s| && Stream(s[..r.pos], bs, pad) && r.out == YieldAll(bs, [])
  {
    hide WellFormed, Run, Stream, Recorded, Onwards, BytesToBits;
    CallsAgree(calls);
    var c := calls[|calls| - 1];
    bs, pad := AcceptsStreams(BytesToBits(c.given), c.room);
  }

  lemma StreamsAcceptedInCalls(calls: seq<Call>, t: seq<bool>, bs: seq<Block>, pad: seq<bool>)
    requires Recorded(calls) && Onwards(calls) && |calls| > 0 && Stream(t, bs, pad)
    requires t <= BytesToBits(calls[|calls| - 1].given) && |YieldAll(bs, [])| <= calls[|calls| - 1].room
    ensures var r := Last(calls); r.mode == DONE && r.pos == |t| && r.out == YieldAll(bs, [])
  {
    hide WellFormed, Run, Stream, Recorded, Onwards, BytesToBits;
    CallsAgree(calls);
    var c := calls[|calls| - 1];
    StreamsAccepted(BytesToBits(c.given), c.room, t, bs, pad);
  }

  /** A code is decided within fifteen bits. */
  lemma DecodeSoon(t: CodeType, lens: seq<nat>, s: seq<bool>, pos: nat)
    requires Prefix(t, lens) && pos + MAXBITS <= |s|
    ensures Decode(t, lens, s, pos).Some? && Decode(t, lens, s, pos).value.bits <= MAXBITS
  {
    hide NotOversubscribed, FromBits, Low, Word, SymOf;
    var h := FromBits(s[pos..]);
    if c: nat :| Matches(lens, c, h) { DecodeIs(t, lens, s, pos, c); }
  }

  lemma OpSoon(a: State, s: seq<bool>)
    requires WellFormed(a, s) && a.mode == CODELENS && |a.lens| < a.nlen + a.ndist && a.pos + 32 <= |s|
    ensures CodeLensStep(a, s).Some?
  {
    hide Decode, Append, Prefix;
    DecodeSoon(CODES, a.codes, s, a.pos);
  }

  /** Thirty-two bits and room for one byte are always enough for a step. */
  lemma StepSoon(a: State, s: seq<bool>, m: nat)
    requires WellFormed(a, s) && a.mode !in {DONE, BAD} && a.extra < 16 && a.pos + 32 <= |s| && |a.out| < m
    ensures Step(a, s, m).Some?
  {
    hide Decode, Append, Prefix, Field, Unorder, Acceptable, Buildable, FixedLitLens, FixedDistLens, CodeLensStep;
    match a.mode
    case CODELENS => if |a.lens| < a.nlen + a.ndist { OpSoon(a, s); }
    case LEN => DecodeSoon(LENS, a.ls, s, a.pos);
    case DIST => DecodeSoon(DISTS, a.ds, s, a.pos);
    case _ =>
  }

  lemma ExtraStays(a: State, s: seq<bool>, m: nat)
    requires WellFormed(a, s) && a.extra < 16 && Step(a, s, m).Some?
    ensures Step(a, s, m).value.extra < 16
  {
    hide Decode, Append, Prefix, Field, Unorder, Acceptable, Buildable, FixedLitLens, FixedDistLens;
  }

  /** A verdict is never put off: a run that has neither finished nor been refused lacks
      room, or has fewer than thirty-two bits left to look at. */
  lemma {:induction false} NeverStuck(a: State, s: seq<bool>, m: nat)
    requires WellFormed(a, s) && a.extra < 16
    ensures var r := Run(a, s, m); r.mode in {DONE, BAD} || |r.out| >= m || |s| < r.pos + 32
    decreases |s| - a.pos, Rank(a.mode), a.length
  {
    hide Step, Prefix;
    if Step(a, s, m).Some? {
      ExtraStays(a, s, m);
      NeverStuck(Step(a, s, m).value, s, m);
    } else if a.mode !in {DONE, BAD} && a.pos + 32 <= |s| && |a.out| < m {
      StepSoon(a, s, m);
    }
  }
}
