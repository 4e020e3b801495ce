/** inflate.c: codes looked up in tables, with the bits that are held. */
module InflateSymbols {
  import opened Bits
  import opened Canonical
  import opened BitStream
  import opened Format
  import opened TableSpace
  import opened InfTrees
  import opened InflateSpec
  import opened InflateChunks
  import opened InflateBits
  import opened InflateState
  import opened InflateSteps

  /** A code that lies within s is decided by s. */
  lemma DecodeShort(ct: CodeType, lens: seq<nat>, s: seq<bool>, u: seq<bool>, pos: nat)
    requires Prefix(ct, lens) && Acceptable(ct, lens) && pos <= |s|
    requires Decode(ct, lens, s + u, pos).Some? && Decode(ct, lens, s + u, pos).value.bits <= |s| - pos
    ensures Decode(ct, lens, s, pos) == Decode(ct, lens, s + u, pos)
  {
    hide SymOf, Acceptable;
    var h, h', n := FromBits(s[pos..]), FromBits((s + u)[pos..]), |s| - pos;
    WindowStable(s, u, pos);
    if c: nat :| Matches(lens, c, h') && lens[c] <= |s + u| - pos {
      DecodeIs(ct, lens, s + u, pos, c);
      MatchStable(lens, c, h, h', n);
      DecodeIs(ct, lens, s, pos, c);
    } else {
      UnmatchedShort(ct, lens, h');
      forall c: nat | Matches(lens, c, h)
        ensures false
      {
        MatchStable(lens, c, h, h', n);
      }
    }
  }

  /** Less than a byte more is held than the code that comes next takes. */
  ghost predicate Snug(ct: CodeType, lens: seq<nat>, bits: nat, fed: seq<byte>, pos: nat)
    requires |lens| <= MaxSymbols(ct) && pos <= 8 * |fed|
  {
    var d := Decode(ct, lens, BytesToBits(fed), pos);
    d.Some? ==> bits < d.value.bits + 8
  }

  /** A byte pulled because a code was not there in full. */
  lemma SnugPull(ct: CodeType, lens: seq<nat>, bits: nat, fed: seq<byte>, pos: nat, b: byte)
    requires Prefix(ct, lens) && Acceptable(ct, lens) && pos + bits == 8 * |fed|
    requires Decode(ct, lens, BytesToBits(fed), pos).None?
    ensures Snug(ct, lens, bits + 8, fed + [b], pos)
  {
    hide NotOversubscribed, ValidLengths, Acceptable, BytesToBits, ToBits, Decode;
    var s := BytesToBits(fed);
    BytesToBitsSnoc(fed, b);
    var d := Decode(ct, lens, s + ToBits(b, 8), pos);
    if d.Some? && d.value.bits <= bits {
      DecodeShort(ct, lens, s, ToBits(b, 8), pos);
    }
  }

  /** An entry of the second level, with the bits of both levels. */
  function Below(root: nat, e: Code): Code {
    Code(e.op, root + e.bits, e.val)
  }

  /** What the table entry for the bits held says of the code that comes next. */
  lemma EntryDecides(ct: CodeType, tab: seq<Code>, start: nat, root: nat, lens: seq<nat>, hold: nat, bits: nat,
                     fed: seq<byte>, a: State, t: seq<bool>)
    requires Held(hold, bits, fed, a, t) && TableFor(ct, tab, start, root, lens) && Prefix(ct, lens)
    ensures a.pos <= |t| && a.pos + bits == 8 * |fed| && start + Low(hold, root) < |tab| && Acceptable(ct, lens)
    ensures var e := Lookup(tab[start..], root, hold);
      1 <= e.bits <= MAXBITS
      && (e.bits <= bits ==> Decode(ct, lens, t, a.pos) == Decode(ct, lens, BytesToBits(fed), a.pos) == Some(e))
      && (e.bits > bits ==> Decode(ct, lens, BytesToBits(fed), a.pos) == None)
    ensures var e0, e := tab[start + Low(hold, root)], Lookup(tab[start..], root, hold);
      (IsLink(e0) ==>
        e0.bits == root && start + e0.val + Low(Shr(hold, root), e0.op) < |tab| && ct != CODES
        && e == Below(root, tab[start + e0.val + Low(Shr(hold, root), e0.op)]))
      && (!IsLink(e0) ==> e == e0)
  {
    hide Acceptable, Prefix, BytesToBits, FromBits, Low, Shr, Pow2, Decodes;
    HeldBits(hold, bits, fed, a, t);
    LookupDecides(ct, lens, tab[start..], root, hold, bits, fed, a.pos, t);
    LookupDecides(ct, lens, tab[start..], root, hold, bits, fed, a.pos, BytesToBits(fed));
    LowFits(hold, root);
  }

  // ------------------------------------------------------------ code lengths

  lemma CodesPrefix(a: State, t: seq<bool>)
    requires WellFormed(a, t)
    ensures Prefix(CODES, a.codes) && Prefix(LENS, a.ls) && Prefix(DISTS, a.ds)
    ensures a.mode == CODELENS ==>
      257 <= a.nlen <= 286 && 1 <= a.ndist <= 30 && |a.lens| <= a.nlen + a.ndist && AtMost(a.lens, MAXBITS)
  {
    hide Prefix;
  }

  lemma CodeLensSnug(bits: nat, a: State, fed: seq<byte>)
    requires Tight(bits, a, fed) && a.mode == CODELENS && |a.lens| < a.nlen + a.ndist && a.pos + bits == 8 * |fed|
    ensures |a.codes| <= MaxSymbols(CODES) && Snug(CODES, a.codes, bits, fed, a.pos)
  {
    hide NotOversubscribed, ValidLengths, Field, BytesToBits, Decode;
    var s := BytesToBits(fed);
    assert Step(a, s, |a.out| + 1) == CodeLensStep(a, s);
  }

  lemma CodeLensWaits(hold: nat, bits: nat, fed: seq<byte>, a: State, t: seq<bool>, m: nat)
    requires Held(hold, bits, fed, a, t) && bits < 32 && BytesToBits(fed) == t && a.mode == CODELENS
    requires |a.lens| < a.nlen + a.ndist
    requires |a.codes| <= MaxSymbols(CODES)
    requires var d := Decode(CODES, a.codes, t, a.pos); d.None? || d.value.bits + ExtraBlBits(d.value.val) > bits
    ensures Stuck(a, t, m) && Tight(bits, a, fed)
  {
    hide WellFormed, Field, BytesToBits, Decode, Tight;
    HeldBits(hold, bits, fed, a, t);
    assert Step(a, t, m) == CodeLensStep(a, t) == Step(a, t, |a.out| + 1);
    TightWaits(bits, a, fed, t);
  }

  ghost function CodeLensNext(a: State, here: Code, x: nat): State {
    if here.val == REP_3_6 && |a.lens| == 0 then a.(mode := BAD, pos := a.pos + here.bits)
    else
      var lens := Append(a.lens, Rle(here.val, x));
      var b := a.(pos := a.pos + here.bits + ExtraBlBits(here.val));
      if |lens| > a.nlen + a.ndist then b.(mode := BAD) else b.(lens := lens)
  }

  lemma CodeLensReads(hold: nat, bits: nat, fed: seq<byte>, a: State, t: seq<bool>, m: nat, here: Code)
    requires Held(hold, bits, fed, a, t) && a.mode == CODELENS && |a.lens| < a.nlen + a.ndist && a.pos <= |t|
    requires |a.codes| <= MaxSymbols(CODES) && Decode(CODES, a.codes, t, a.pos) == Some(here)
    requires here.bits + ExtraBlBits(here.val) <= bits < here.bits + ExtraBlBits(here.val) + 8 && here.bits <= 7 + 8
    ensures var n := ExtraBlBits(here.val);
      var c := CodeLensNext(a, here, Low(Shr(hold, here.bits), n));
      Moved(a, c, t, m) &&
      if here.val == REP_3_6 && |a.lens| == 0 then
        Held(Shr(hold, here.bits), bits - here.bits, fed, c, t) && Tight(bits - here.bits, c, fed)
      else Held(Shr(Shr(hold, here.bits), n), bits - here.bits - n, fed, c, t) && Tight(bits - here.bits - n, c, fed)
  {
    hide WellFormed, BytesToBits, Field, Decode, Append, Pow2, Shr, Low, Accumulated, Moved, Tight;
    var n := ExtraBlBits(here.val);
    var c := CodeLensNext(a, here, Low(Shr(hold, here.bits), n));
    HeldBits(hold, bits, fed, a, t);
    Dropped(hold, bits, fed, a.pos, here.bits);
    Taken(Shr(hold, here.bits), bits - here.bits, fed, a.pos + here.bits, t, n);
    assert Step(a, t, m) == CodeLensStep(a, t);
    Moves(a, c, t, m);
    MovedTo(a, c, t, m);
    if c.mode == BAD {
      TightBad(8 * |fed| - c.pos, c, fed, t);
    } else {
      TightNow(bits - here.bits - n, c, fed, t);
    }
  }

  lemma BuildTight(bits: nat, a: State, fed: seq<byte>)
    requires Tight(bits, a, fed) && a.mode == CODELENS && |a.lens| == a.nlen + a.ndist
    ensures bits < 8
  {
    hide Prefix, Buildable, BytesToBits;
    var s := BytesToBits(fed);
    assert Step(a, s, |a.out| + 1) == BuildStep(a, s);
  }

  ghost function BuildNext(a: State): State
    requires |a.lens| == a.nlen + a.ndist && a.nlen >= 257 && a.nlen <= 288 && a.ndist <= 32
  {
    var ls, ds := a.lens[..a.nlen], a.lens[a.nlen..];
    if ls[256] == 0 || !Buildable(LENS, ls, 9) || !Buildable(DISTS, ds, 6) then a.(mode := BAD)
    else a.(mode := LEN, ls := ls, ds := ds)
  }

  lemma BuildReads(hold: nat, bits: nat, fed: seq<byte>, a: State, t: seq<bool>, m: nat)
    requires Held(hold, bits, fed, a, t) && bits < 8 && a.mode == CODELENS && |a.lens| == a.nlen + a.ndist
    ensures 257 <= a.nlen <= 286 && 1 <= a.ndist <= 30
    ensures var c := BuildNext(a); Moved(a, c, t, m) && Held(hold, bits, fed, c, t) && Tight(bits, c, fed)
  {
    hide Buildable, Prefix, BytesToBits, Accumulated, Moved, Tight;
    HeldBits(hold, bits, fed, a, t);
    CodesPrefix(a, t);
    var c := BuildNext(a);
    assert Step(a, t, m) == BuildStep(a, t);
    Moves(a, c, t, m);
    MovedTo(a, c, t, m);
    TightNow(bits, c, fed, t);
  }

  lemma BuildKeeps(a: State)
    requires |a.lens| == a.nlen + a.ndist && a.nlen >= 257 && a.nlen <= 288 && a.ndist <= 32
    ensures var c := BuildNext(a); c.mode in {BAD, LEN} && c.out == a.out && c.last == a.last
  {
  }

  lemma CodeLensKeeps(a: State, here: Code, x: nat)
    requires a.mode == CODELENS
    ensures var c := CodeLensNext(a, here, x);
      c.mode in {CODELENS, BAD} && c.out == a.out && c.last == a.last && c.codes == a.codes && c.ls == a.ls
      && c.ds == a.ds
      && c.nlen == a.nlen && c.ndist == a.ndist && c.ncode == a.ncode
  {
  }

  lemma SingleNext(a: State, here: Code)
    requires here.val < 16 && |a.lens| < a.nlen + a.ndist
    ensures CodeLensNext(a, here, 0) == a.(pos := a.pos + here.bits, lens := a.lens + [here.val])
  {
  }

  /** A length on its own, in terms of the fields. */
  lemma SingleReads(hold: nat, bits: nat, fed: seq<byte>, a: State, t: seq<bool>, m: nat, here: Code, nlen: nat,
                    ndist: nat, ncode: nat, have: nat, lens: seq<nat>)
    requires Held(hold, bits, fed, a, t) && a.mode == CODELENS && |a.lens| < a.nlen + a.ndist
    requires |a.codes| <= MaxSymbols(CODES) && a.pos <= |t|
    requires here.bits <= bits < here.bits + 8 && here.bits <= MAXBITS
    requires Decode(CODES, a.codes, t, a.pos) == Some(here) && here.val < 16
    requires Gathered(a, nlen, ndist, ncode, have, lens) && |lens| == 320
    ensures nlen == a.nlen && ndist == a.ndist && ncode == a.ncode && have == |a.lens| < |lens|
    ensures lens[..have] == a.lens
    ensures var c := a.(pos := a.pos + here.bits, lens := a.lens + [here.val]);
      Moved(a, c, t, m) && Held(Shr(hold, here.bits), bits - here.bits, fed, c, t) && Tight(bits - here.bits, c, fed)
  {
    hide Held, Decode, Gathered, Moved, Tight, Shr, Low;
    HeldBits(hold, bits, fed, a, t);
    CodesPrefix(a, t);
    HaveLens(a, nlen, ndist, ncode, have, lens);
    LensSoFar(a, nlen, ndist, ncode, have, lens);
    CodeLensReads(hold, bits, fed, a, t, m, here);
    NoField(Shr(hold, here.bits));
    SingleNext(a, here);
  }

  /** A repeat, in terms of the fields. */
  lemma RepeatReads(hold: nat, bits: nat, fed: seq<byte>, a: State, t: seq<bool>, m: nat, here: Code, nlen: nat,
                    ndist: nat, ncode: nat, have: nat, lens: seq<nat>)
    requires Held(hold, bits, fed, a, t) && a.mode == CODELENS && |a.lens| < a.nlen + a.ndist
    requires |a.codes| <= MaxSymbols(CODES) && a.pos <= |t|
    requires here.bits + ExtraBlBits(here.val) <= bits < here.bits + ExtraBlBits(here.val) + 8 && here.bits <= MAXBITS
    requires Decode(CODES, a.codes, t, a.pos) == Some(here) && Gathered(a, nlen, ndist, ncode, have, lens)
    requires |lens| == 320
    ensures nlen == a.nlen && ndist == a.ndist && ncode == a.ncode && have == |a.lens| <= nlen + ndist <= |lens|
    ensures lens[..have] == a.lens
    ensures var n := ExtraBlBits(here.val);
      var c := CodeLensNext(a, here, Low(Shr(hold, here.bits), n));
      c.mode in {CODELENS, BAD} && SameBlock(a, c) && c.nlen == a.nlen && c.ndist == a.ndist && c.ncode == a.ncode
      && Moved(a, c, t, m)
      && if here.val == REP_3_6 && |a.lens| == 0 then
        Held(Shr(hold, here.bits), bits - here.bits, fed, c, t) && Tight(bits - here.bits, c, fed)
      else Held(Shr(Shr(hold, here.bits), n), bits - here.bits - n, fed, c, t) && Tight(bits - here.bits - n, c, fed)
  {
    hide Held, Decode, Gathered, Moved, Tight, Shr, Low, CodeLensNext;
    HeldBits(hold, bits, fed, a, t);
    CodesPrefix(a, t);
    HaveLens(a, nlen, ndist, ncode, have, lens);
    LensSoFar(a, nlen, ndist, ncode, have, lens);
    CodeLensReads(hold, bits, fed, a, t, m, here);
    CodeLensKeeps(a, here, Low(Shr(hold, here.bits), ExtraBlBits(here.val)));
  }

  lemma NoField(x: nat)
    ensures Low(x, 0) == 0 && Shr(x, 0) == x
  {
  }

  lemma LensSoFar(a: State, nlen: nat, ndist: nat, ncode: nat, have: nat, lens: seq<nat>)
    requires a.mode == CODELENS && Gathered(a, nlen, ndist, ncode, have, lens)
    ensures have <= |lens| && lens[..have] == a.lens
  {
  }

  lemma EnoughSpace()
    ensures Enough(LENS) + Enough(DISTS) <= 1444
  {
  }

  // ------------------------------------------------------------ literals, lengths, distances

  /** No literal, length or distance entry looks like a link to a second level. */
  lemma SymbolKinds(ct: CodeType, lens: seq<nat>, s: seq<bool>, pos: nat)
    requires ct != CODES && |lens| <= MaxSymbols(ct) && pos <= |s| && Decode(ct, lens, s, pos).Some?
    ensures var e := Decode(ct, lens, s, pos).value; KindOk(ct, e.op, e.val)
  {
    hide FromBits, Low, Word, MaxLen, KindOk, SymOf;
    var e := Decode(ct, lens, s, pos).value;
    if e != Code(INVALID_CODE, 1, 0) {
      var c: nat :| Matches(lens, c, FromBits(s[pos..])) && e == Entry(SymOf(ct, c), lens[c]);
      assert e == Entry(SymOf(ct, c), lens[c]);
      SymKind(ct, c);
    } else {
      InvalidKind(ct);
    }
  }

  ghost predicate KindOk(ct: CodeType, op: nat, val: nat) {
    && (op == 0 || op >= 16) && (ct == DISTS ==> op != 0) && (op != 0 ==> op / 16 % 16 != 0)
    && (op / 16 % 2 == 1 <==> op != 0 && op / 64 % 2 == 0 && (ct == LENS ==> op / 32 % 2 == 0))
    && (op != 0 ==> op / 16 % 2 == 1 || op / 64 % 2 == 1)
    && (ct == LENS && op == 0 ==> val < 256)
    && (ct == LENS && op != 0 && op / 32 % 2 == 0 && op / 64 % 2 == 0 ==>
          16 <= op <= 21 && 3 <= val && val + Pow2(op % 16) <= 259)
    && (ct == DISTS && op / 64 % 2 == 0 ==> 16 <= op <= 29 && 1 <= val && val + Pow2(op % 16) <= 32769)
  }

  lemma InvalidKind(ct: CodeType)
    ensures KindOk(ct, INVALID_CODE, 0)
  {
  }

  lemma SymKind(ct: CodeType, c: nat)
    requires ct != CODES && c < MaxSymbols(ct)
    ensures KindOk(ct, SymOf(ct, c).op, SymOf(ct, c).val)
  {
    hide KindOk;
    if ct == DISTS {
      DistKind(c);
    } else if c > 256 {
      LenKind(c - 257);
    } else {
      LitKind(c);
    }
  }

  lemma LitKind(c: nat)
    requires c <= 256
    ensures KindOk(LENS, SymOf(LENS, c).op, SymOf(LENS, c).val)
  {
  }

  lemma LenKind(i: nat)
    requires i < 31
    ensures KindOk(LENS, LEXT[i], LBASE[i])
  {
    hide Pow2;
    Pow2Values();
    if i < 29 { ExtraOp(LEXT[i]); }
  }

  lemma DistKind(i: nat)
    requires i < 32
    ensures KindOk(DISTS, DEXT[i], DBASE[i])
  {
    hide Pow2;
    Pow2Values();
    if i < 30 { ExtraOp(DEXT[i]); }
  }

  /** The number of extra bits is an op's low half. */
  lemma ExtraOp(op: nat)
    requires 16 <= op < 32
    ensures op / 16 % 16 == 1 && op / 16 % 2 == 1 && op / 32 % 2 == 0 && op / 64 % 2 == 0 && op % 16 == op - 16
  {
  }

  /** Whether an entry of a table for literals and lengths, or for distances, is a link, as inflate tests it. */
  predicate LooksLink(ct: CodeType, e: Code) {
    (ct == DISTS || e.op != 0) && e.op / 16 % 16 == 0
  }

  /** The table entry for the bits held, and what it says of the code that comes next. */
  ghost predicate Seen(ct: CodeType, lens: seq<nat>, code: seq<Code>, start: nat, root: nat, hold: nat, bits: nat,
                       fed: seq<byte>, pos: nat, t: seq<bool>)
    requires |lens| <= MaxSymbols(ct) && pos <= |t| && pos + bits == 8 * |fed|
  {
    hide Decode, BytesToBits, Low, Shr, Lookup, LooksLink;
    && start + Low(hold, root) < |code|
    && var e0, e := code[start + Low(hold, root)], Lookup(code[start..], root, hold);
    && 1 <= e.bits <= MAXBITS
    && (e.bits <= bits ==> Decode(ct, lens, t, pos) == Decode(ct, lens, BytesToBits(fed), pos) == Some(e))
    && (e.bits > bits ==> Decode(ct, lens, BytesToBits(fed), pos) == None)
    && (e0.bits <= bits ==> (LooksLink(ct, e0) <==> IsLink(e0)))
    && (!IsLink(e0) ==> e == e0)
    && (IsLink(e0) ==> e0.bits == root && start + e0.val + Low(Shr(hold, root), e0.op) < |code|
                       && e == Below(root, code[start + e0.val + Low(Shr(hold, root), e0.op)]))
  }

  lemma TableSeen(ct: CodeType, tab: seq<Code>, start: nat, root: nat, lens: seq<nat>, hold: nat, bits: nat,
                  fed: seq<byte>, a: State, t: seq<bool>)
    requires Held(hold, bits, fed, a, t) && TableFor(ct, tab, start, root, lens) && Prefix(ct, lens) && ct != CODES
    ensures |lens| <= MaxSymbols(ct) && Acceptable(ct, lens) && a.pos <= |t| && a.pos + bits == 8 * |fed|
    ensures Seen(ct, lens, tab, start, root, hold, bits, fed, a.pos, t)
  {
    hide Acceptable, Decode, BytesToBits, FromBits, Low, Shr, Pow2, Decodes, Held, TableFor, NotOversubscribed;
    hide ValidLengths, Lookup;
    EntryDecides(ct, tab, start, root, lens, hold, bits, fed, a, t);
    var e0 := tab[start + Low(hold, root)];
    if !IsLink(e0) && e0.bits <= bits { SymbolKinds(ct, lens, t, a.pos); }
  }

  lemma LowPull(hold: nat, bits: nat, b: nat, n: nat)
    requires n <= bits
    ensures Low(hold + b * Pow2(bits), n) == Low(hold, n)
  {
    var q := bits - n;
    Pow2Sum(n, q);
    assert n + q == bits;
    Split(hold, n);
    Rearrange(Shr(hold, n), b, Pow2(n), Pow2(q));
    SplitUnique(hold + b * Pow2(bits), n, Shr(hold, n) + b * Pow2(q), Low(hold, n));
  }

  lemma Rearrange(x: nat, b: nat, p: nat, q: nat)
    ensures (x + b * q) * p == x * p + b * (p * q)
  {
    assert (b * q) * p == b * (p * q);
  }

  /** The code whose turn it is between symbols. */
  function TypeOf(mode: Mode): CodeType {
    if mode == LEN then LENS else DISTS
  }

  function LensOf(a: State): seq<nat> {
    if a.mode == LEN then a.ls else a.ds
  }

  lemma SymbolSnug(bits: nat, a: State, fed: seq<byte>)
    requires Tight(bits, a, fed) && a.mode in {LEN, DIST} && a.pos + bits == 8 * |fed|
    ensures |LensOf(a)| <= MaxSymbols(TypeOf(a.mode)) && Snug(TypeOf(a.mode), LensOf(a), bits, fed, a.pos)
  {
    hide NotOversubscribed, ValidLengths, Field, BytesToBits, Decode;
    var s := BytesToBits(fed);
    assert Step(a, s, |a.out| + 1) == if a.mode == LEN then LenStep(a, s) else DistStep(a, s);
  }

  lemma SymbolWaits(hold: nat, bits: nat, fed: seq<byte>, a: State, t: seq<bool>, m: nat)
    requires Held(hold, bits, fed, a, t) && bits < 32 && BytesToBits(fed) == t && a.mode in {LEN, DIST} && a.pos <= |t|
    requires |LensOf(a)| <= MaxSymbols(TypeOf(a.mode)) && Decode(TypeOf(a.mode), LensOf(a), t, a.pos).None?
    ensures Stuck(a, t, m) && Tight(bits, a, fed)
  {
    hide WellFormed, Field, BytesToBits, Decode, Tight;
    HeldBits(hold, bits, fed, a, t);
    assert Step(a, t, m) == (if a.mode == LEN then LenStep(a, t) else DistStep(a, t)) == Step(a, t, |a.out| + 1);
    TightWaits(bits, a, fed, t);
  }

  ghost function SymbolNext(a: State, e: Code): State {
    if a.mode == LEN then
      var b := a.(pos := a.pos + e.bits, length := e.val);
      if Literal?(e) then b.(mode := LIT)
      else if EndOfBlock?(e) then b.(mode := TYPE)
      else if Invalid?(e) then b.(mode := BAD)
      else b.(mode := LENEXT, extra := e.op % 16)
    else
      var b := a.(pos := a.pos + e.bits);
      if Invalid?(e) then b.(mode := BAD) else b.(mode := DISTEXT, offset := e.val, extra := e.op % 16)
  }

  lemma SymbolReads(hold: nat, bits: nat, fed: seq<byte>, a: State, t: seq<bool>, m: nat, e: Code)
    requires Held(hold, bits, fed, a, t) && a.mode in {LEN, DIST} && a.pos <= |t| && e.bits <= bits < e.bits + 8
    requires |LensOf(a)| <= MaxSymbols(TypeOf(a.mode)) && Decode(TypeOf(a.mode), LensOf(a), t, a.pos) == Some(e)
    ensures KindOk(TypeOf(a.mode), e.op, e.val)
    ensures var c := SymbolNext(a, e);
      Moved(a, c, t, m) && Held(Shr(hold, e.bits), bits - e.bits, fed, c, t) && Tight(bits - e.bits, c, fed)
  {
    hide WellFormed, BytesToBits, Decode, Pow2, Shr, Accumulated, Moved, Tight, KindOk;
    var c := SymbolNext(a, e);
    HeldBits(hold, bits, fed, a, t);
    SymbolKinds(TypeOf(a.mode), LensOf(a), t, a.pos);
    Dropped(hold, bits, fed, a.pos, e.bits);
    assert Step(a, t, m) == if a.mode == LEN then LenStep(a, t) else DistStep(a, t);
    Moves(a, c, t, m);
    MovedTo(a, c, t, m);
    TightNow(bits - e.bits, c, fed, t);
  }

  lemma SymbolKeeps(a: State, e: Code, length: nat, offset: nat, extra: nat, length': nat, offset': nat, extra': nat)
    requires a.mode in {LEN, DIST} && KindOk(TypeOf(a.mode), e.op, e.val) && Scratch(a, length, offset, extra)
    requires length' == if a.mode == LEN then e.val else length
    requires SymbolNext(a, e).mode in {LENEXT, DISTEXT} ==> extra' == e.op % 16
    requires SymbolNext(a, e).mode == DISTEXT ==> offset' == e.val
    ensures SymbolNext(a, e).mode in {LIT, TYPE, BAD, LENEXT, DISTEXT} && SameBlock(a, SymbolNext(a, e))
    ensures Scratch(SymbolNext(a, e), length', offset', extra')
  {
  }

  ghost predicate SameBlock(a: State, c: State) {
    c.out == a.out && c.last == a.last && c.codes == a.codes && c.ls == a.ls && c.ds == a.ds
  }

  // ------------------------------------------------------------ extra bits

  lemma ExtraTight(bits: nat, a: State, fed: seq<byte>)
    requires Tight(bits, a, fed) && a.mode in {LENEXT, DISTEXT} && a.pos + bits == 8 * |fed|
    ensures bits < 8 || bits < a.extra
  {
    hide Prefix, Field, BytesToBits;
  }

  lemma ExtraWaits(hold: nat, bits: nat, fed: seq<byte>, a: State, t: seq<bool>, m: nat)
    requires Held(hold, bits, fed, a, t) && bits < a.extra <= 13 && BytesToBits(fed) == t && a.mode in {LENEXT, DISTEXT}
    ensures Stuck(a, t, m) && Tight(bits, a, fed)
  {
    hide WellFormed, Field, BytesToBits, Tight;
    HeldBits(hold, bits, fed, a, t);
    TightWaits(bits, a, fed, t);
  }

  ghost function ExtraNext(a: State, x: nat): State {
    if a.mode == LENEXT then a.(mode := DIST, length := a.length + x, pos := a.pos + a.extra)
    else a.(mode := MATCH, offset := a.offset + x, pos := a.pos + a.extra)
  }

  lemma ExtraReads(hold: nat, bits: nat, fed: seq<byte>, a: State, t: seq<bool>, m: nat)
    requires Held(hold, bits, fed, a, t) && a.extra <= bits < a.extra + 8 && a.mode in {LENEXT, DISTEXT}
    ensures var c := ExtraNext(a, Low(hold, a.extra));
      Moved(a, c, t, m) && Held(Shr(hold, a.extra), bits - a.extra, fed, c, t) && Tight(bits - a.extra, c, fed)
  {
    hide WellFormed, BytesToBits, Field, Pow2, Shr, Low, Accumulated, Moved, Tight;
    var c := ExtraNext(a, Low(hold, a.extra));
    HeldBits(hold, bits, fed, a, t);
    Taken(hold, bits, fed, a.pos, t, a.extra);
    Moves(a, c, t, m);
    MovedTo(a, c, t, m);
    TightNow(bits - a.extra, c, fed, t);
  }

  lemma ExtraSame(a: State, x: nat)
    requires a.mode in {LENEXT, DISTEXT}
    ensures SameBlock(a, ExtraNext(a, x)) && ExtraNext(a, x).mode == (if a.mode == LENEXT then DIST else MATCH)
    ensures ExtraNext(a, x).pos == a.pos + a.extra
  {
  }

  lemma ExtraKeeps(a: State, x: nat, length: nat, offset: nat, extra: nat)
    requires a.mode in {LENEXT, DISTEXT} && Scratch(a, length, offset, extra) && x < Pow2(a.extra)
    ensures extra == a.extra <= 13
    ensures a.mode == LENEXT ==> Scratch(ExtraNext(a, x), length + x, offset, extra)
    ensures a.mode == DISTEXT ==> Scratch(ExtraNext(a, x), length, offset + x, extra)
  {
  }

  /** Extra bits, in terms of the fields. */
  lemma ExtraOne(hold: nat, bits: nat, fed: seq<byte>, a: State, t: seq<bool>, m: nat, length: nat, offset: nat,
                 extra: nat)
    requires Held(hold, bits, fed, a, t) && extra <= bits < extra + 8 && a.mode in {LENEXT, DISTEXT}
    requires Scratch(a, length, offset, extra)
    ensures extra == a.extra
    ensures var c := ExtraNext(a, Low(hold, extra));
      Moved(a, c, t, m) && Held(Shr(hold, extra), bits - extra, fed, c, t) && Tight(bits - extra, c, fed)
      && SameBlock(a, c) && c.mode in {DIST, MATCH}
      && (a.mode == LENEXT ==> Scratch(c, length + Low(hold, extra), offset, extra))
      && (a.mode == DISTEXT ==> Scratch(c, length, offset + Low(hold, extra), extra))
  {
    hide Held, Moved, Tight, Scratch, Pow2, Shr, Low, ExtraNext;
    ExtraKeeps(a, 0, length, offset, extra);
    LowFits(hold, a.extra);
    ExtraKeeps(a, Low(hold, extra), length, offset, extra);
    ExtraReads(hold, bits, fed, a, t, m);
    ExtraSame(a, Low(hold, extra));
  }

  // ------------------------------------------------------------ output

  lemma OutputTight(bits: nat, a: State, fed: seq<byte>)
    requires Tight(bits, a, fed) && a.mode in {MATCH, LIT}
    ensures bits < 8
  {
    hide Prefix, BytesToBits;
  }

  lemma OutputWaits(hold: nat, bits: nat, fed: seq<byte>, a: State, t: seq<bool>, m: nat)
    requires Held(hold, bits, fed, a, t) && bits < 8 && a.mode in {MATCH, LIT} && |a.out| >= m
    requires a.mode == MATCH ==> a.length > 0
    ensures Stuck(a, t, m) && Tight(bits, a, fed)
  {
    hide WellFormed, BytesToBits, Tight;
    HeldBits(hold, bits, fed, a, t);
    TightNow(bits, a, fed, t);
  }

  lemma LitFits(a: State, length: nat, offset: nat, extra: nat)
    requires a.mode == LIT && Scratch(a, length, offset, extra)
    ensures length == a.length < 256
    ensures forall out: seq<byte> {:trigger a.(mode := LEN, out := out)} ::
      Scratch(a.(mode := LEN, out := out), length, offset, extra)
  {
  }

  lemma LitWrites(hold: nat, bits: nat, fed: seq<byte>, a: State, t: seq<bool>, m: nat)
    requires Held(hold, bits, fed, a, t) && bits < 8 && a.mode == LIT && |a.out| < m
    ensures var c := a.(mode := LEN, out := a.out + [a.length % 256]);
      Moved(a, c, t, m) && Held(hold, bits, fed, c, t) && Tight(bits, c, fed)
  {
    hide WellFormed, BytesToBits, Accumulated, Moved, Tight;
    var c := a.(mode := LEN, out := a.out + [a.length % 256]);
    HeldBits(hold, bits, fed, a, t);
    Moves(a, c, t, m);
    MovedTo(a, c, t, m);
    TightNow(bits, c, fed, t);
  }

  lemma TooFar(hold: nat, bits: nat, fed: seq<byte>, a: State, t: seq<bool>, m: nat)
    requires Held(hold, bits, fed, a, t) && bits < 8 && a.mode == MATCH && |a.out| < m && a.offset > |a.out|
    ensures var c := a.(mode := BAD); Moved(a, c, t, m) && Held(hold, bits, fed, c, t) && Tight(bits, c, fed)
  {
    hide WellFormed, BytesToBits, Accumulated, Moved, Tight;
    var c := a.(mode := BAD);
    HeldBits(hold, bits, fed, a, t);
    Moves(a, c, t, m);
    MovedTo(a, c, t, m);
    TightNow(bits, c, fed, t);
  }

  /** Each byte is the one offset positions before it. */
  ghost predicate Echoes(out: seq<byte>, offset: nat, data: seq<byte>) {
    1 <= offset <= |out| && forall i :: 0 <= i < |data| ==> data[i] == (out + data)[|out| + i - offset]
  }

  ghost function MatchNext(a: State, data: seq<byte>): State
    requires |data| <= a.length
  {
    a.(out := a.out + data, length := a.length - |data|, mode := if |data| == a.length then LEN else MATCH)
  }

  lemma {:induction false} MatchMany(a: State, t: seq<bool>, m: nat, data: seq<byte>)
    requires WellFormed(a, t) && a.mode == MATCH && 0 < |data| <= a.length && |a.out| + |data| <= m
    requires Echoes(a.out, a.offset, data)
    ensures Moved(a, MatchNext(a, data), t, m)
    decreases |data|
  {
    hide WellFormed, Moved;
    var x := data[0];
    var b := MatchNext(a, [x]);
    assert (a.out + data)[|a.out| - a.offset] == a.out[|a.out| - a.offset] == x;
    Moves(a, b, t, m);
    if |data| == 1 {
      assert data == [x];
    } else {
      MovedTo(a, b, t, m);
      assert a.out + [x] + data[1..] == a.out + data;
      EchoesRest(a.out, a.offset, data);
      MatchMany(b, t, m, data[1..]);
      assert MatchNext(b, data[1..]) == MatchNext(a, data);
      MovedOn(a, b, MatchNext(a, data), t, m);
    }
  }

  lemma EchoesRest(out: seq<byte>, offset: nat, data: seq<byte>)
    requires Echoes(out, offset, data) && |data| > 0
    ensures Echoes(out + [data[0]], offset, data[1..])
  {
    var rest := data[1..];
    assert out + [data[0]] + rest == out + data;
    forall i | 0 <= i < |rest|
      ensures rest[i] == (out + [data[0]] + rest)[|out| + 1 + i - offset]
    {
      assert rest[i] == data[i + 1];
    }
  }

  lemma MatchWrites(hold: nat, bits: nat, fed: seq<byte>, a: State, t: seq<bool>, m: nat, data: seq<byte>)
    requires Held(hold, bits, fed, a, t) && bits < 8 && a.mode == MATCH && 0 < |data| <= a.length
    requires |a.out| + |data| <= m
    requires Echoes(a.out, a.offset, data)
    ensures var c := MatchNext(a, data); Moved(a, c, t, m) && Held(hold, bits, fed, c, t) && Tight(bits, c, fed)
  {
    hide WellFormed, BytesToBits, Accumulated, Moved, Tight, Echoes;
    var c := MatchNext(a, data);
    HeldBits(hold, bits, fed, a, t);
    MatchMany(a, t, m, data);
    MovedTo(a, c, t, m);
    TightNow(bits, c, fed, t);
  }

  lemma MatchScratch(a: State, data: seq<byte>, length: nat, offset: nat, extra: nat)
    requires a.mode == MATCH && Scratch(a, length, offset, extra) && |data| <= length
    ensures length == a.length && offset == a.offset
    ensures var c := MatchNext(a, data);
      c.mode in {LEN, MATCH} && c.out == a.out + data && c.last == a.last && c.codes == a.codes && c.ls == a.ls
      && c.ds == a.ds
      && Scratch(c, length - |data|, offset, extra)
  {
  }

  lemma EchoesMore(hist: seq<byte>, out: seq<byte>, offset: nat, data: seq<byte>)
    requires Echoes(out, offset, data)
    ensures Echoes(hist + out, offset, data)
  {
    assert (hist + out) + data == hist + (out + data);
  }

  /** More than the window holds is more than was ever written. */
  lemma BeyondWindow(wsize: nat, whave: nat, wnext: nat, w: seq<byte>, hist: seq<byte>, need: nat)
    requires History(wsize, whave, wnext, w, hist) && need <= WSIZE
    ensures need > whave <==> need > |hist|
    ensures need > 0 && need <= whave ==> |w| == wsize && wnext < |w| && (need > wnext ==> need - wnext <= |w|)
  {
  }

  /** Where in the window the byte need positions back in the history is, and those that follow it. */
  lemma InWindow(wsize: nat, whave: nat, wnext: nat, w: seq<byte>, hist: seq<byte>, need: nat, from: nat, copy: nat,
                 i: nat)
    requires History(wsize, whave, wnext, w, hist) && 0 < need <= whave && i < copy
    requires if need > wnext then from == wsize - (need - wnext) && copy <= need - wnext
      else from == wnext - need && copy <= need
    ensures from + copy <= |w| && copy <= need <= |hist| && w[from + i] == hist[|hist| - need + i]
  {
  }

  lemma WindowEchoes(wsize: nat, whave: nat, wnext: nat, w: seq<byte>, hist: seq<byte>, out: seq<byte>, need: nat,
                     from: nat, copy: nat)
    requires History(wsize, whave, wnext, w, hist) && 0 < need <= whave && copy > 0
    requires if need > wnext then from == wsize - (need - wnext) && copy <= need - wnext
      else from == wnext - need && copy <= need
    ensures from + copy <= |w| && Echoes(hist + out, need + |out|, w[from..from + copy])
  {
    hide History;
    InWindow(wsize, whave, wnext, w, hist, need, from, copy, 0);
    var data := w[from..from + copy];
    forall i | 0 <= i < |data|
      ensures data[i] == (hist + out + data)[|hist + out| + i - (need + |out|)]
    {
      InWindow(wsize, whave, wnext, w, hist, need, from, copy, i);
    }
  }
}
