/** inffast.c: the steps of a symbol without regard to how many bits are held, and the
copying of matches. */
module InflateFastSteps {
  import opened Bits
  import opened Canonical
  import opened BitStream
  import opened Format
  import opened TableSpace
  import opened InfTrees
  import opened InflateSpec
  import opened InflateChunks
  import opened InflateBits
  import opened InflateState
  import opened InflateSteps
  import opened InflateSymbols

  /** A literal or length, or a distance. */
  lemma SymbolMoves(hold: nat, bits: nat, fed: seq<byte>, a: State, t: seq<bool>, m: nat, e: Code)
    requires Held(hold, bits, fed, a, t) && a.mode in {LEN, DIST} && a.pos <= |t| && e.bits <= bits
    requires |LensOf(a)| <= MaxSymbols(TypeOf(a.mode)) && Decode(TypeOf(a.mode), LensOf(a), t, a.pos) == Some(e)
    ensures KindOk(TypeOf(a.mode), e.op, e.val)
    ensures var c := SymbolNext(a, e); Moved(a, c, t, m) && Held(Shr(hold, e.bits), bits - e.bits, fed, c, t)
  {
    hide WellFormed, BytesToBits, Decode, Pow2, Shr, Accumulated, Moved, KindOk;
    var c := SymbolNext(a, e);
    SymbolKinds(TypeOf(a.mode), LensOf(a), t, a.pos);
    Dropped(hold, bits, fed, a.pos, e.bits);
    assert Step(a, t, m) == if a.mode == LEN then LenStep(a, t) else DistStep(a, t);
    Moves(a, c, t, m);
    MovedTo(a, c, t, m);
  }

  /** Extra bits. */
  lemma ExtraMoves(hold: nat, bits: nat, fed: seq<byte>, a: State, t: seq<bool>, m: nat)
    requires Held(hold, bits, fed, a, t) && a.extra <= bits && a.mode in {LENEXT, DISTEXT}
    ensures var c := ExtraNext(a, Low(hold, a.extra));
      Moved(a, c, t, m) && Held(Shr(hold, a.extra), bits - a.extra, fed, c, t)
  {
    hide WellFormed, BytesToBits, Field, Pow2, Shr, Low, Accumulated, Moved;
    var c := ExtraNext(a, Low(hold, a.extra));
    HeldBits(hold, bits, fed, a, t);
    Taken(hold, bits, fed, a.pos, t, a.extra);
    Moves(a, c, t, m);
    MovedTo(a, c, t, m);
  }

  /** A literal written, a match copied, a distance too far. */
  lemma LitMoves(hold: nat, bits: nat, fed: seq<byte>, a: State, t: seq<bool>, m: nat)
    requires Held(hold, bits, fed, a, t) && a.mode == LIT && |a.out| < m
    ensures var c := a.(mode := LEN, out := a.out + [a.length % 256]); Moved(a, c, t, m) && Held(hold, bits, fed, c, t)
  {
    hide WellFormed, BytesToBits, Accumulated, Moved;
    var c := a.(mode := LEN, out := a.out + [a.length % 256]);
    Moves(a, c, t, m);
    MovedTo(a, c, t, m);
  }

  lemma TooFarMoves(hold: nat, bits: nat, fed: seq<byte>, a: State, t: seq<bool>, m: nat)
    requires Held(hold, bits, fed, a, t) && a.mode == MATCH && |a.out| < m && a.offset > |a.out|
    ensures var c := a.(mode := BAD); Moved(a, c, t, m) && Held(hold, bits, fed, c, t)
  {
    hide WellFormed, BytesToBits, Accumulated, Moved;
    var c := a.(mode := BAD);
    Moves(a, c, t, m);
    MovedTo(a, c, t, m);
  }

  lemma MatchMoves(hold: nat, bits: nat, fed: seq<byte>, a: State, t: seq<bool>, m: nat, data: seq<byte>)
    requires Held(hold, bits, fed, a, t) && a.mode == MATCH && 0 < |data| <= a.length && |a.out| + |data| <= m
    requires Echoes(a.out, a.offset, data)
    ensures var c := MatchNext(a, data); Moved(a, c, t, m) && Held(hold, bits, fed, c, t)
  {
    hide WellFormed, BytesToBits, Accumulated, Moved, Echoes;
    MatchMany(a, t, m, data);
    MovedTo(a, MatchNext(a, data), t, m);
  }

  /** One stretch after another. */
  lemma EchoesOn(out: seq<byte>, offset: nat, d1: seq<byte>, d2: seq<byte>)
    requires Echoes(out, offset, d1) && Echoes(out + d1, offset, d2)
    ensures Echoes(out, offset, d1 + d2)
  {
    assert out + d1 + d2 == out + (d1 + d2);
    forall i | 0 <= i < |d1 + d2|
      ensures (d1 + d2)[i] == (out + (d1 + d2))[|out| + i - offset]
    {
      if i < |d1| {
        assert d1[i] == (out + d1)[|out| + i - offset];
      } else {
        assert d2[i - |d1|] == (out + d1 + d2)[|out + d1| + (i - |d1|) - offset];
      }
    }
  }

  lemma EchoesNone(out: seq<byte>, offset: nat)
    requires 1 <= offset <= |out|
    ensures Echoes(out, offset, [])
  {
  }

  lemma EchoesOne(out: seq<byte>, offset: nat, x: byte)
    requires 1 <= offset <= |out| && x == out[|out| - offset]
    ensures Echoes(out, offset, [x])
  {
  }

  /** The code decided by fifteen bits. */
  lemma FullCode(ct: CodeType, tab: seq<Code>, start: nat, root: nat, lens: seq<nat>, hold: nat, bits: nat,
                 fed: seq<byte>, a: State, t: seq<bool>)
    requires Held(hold, bits, fed, a, t) && TableFor(ct, tab, start, root, lens) && Prefix(ct, lens) && ct != CODES
    requires bits >= MAXBITS
    ensures |lens| <= MaxSymbols(ct) && a.pos <= |t| && start + Low(hold, root) < |tab|
    ensures var e0 := tab[start + Low(hold, root)];
      && (if IsLink(e0) then
            e0.bits == root && start + e0.val + Low(Shr(hold, root), e0.op) < |tab|
            && Decode(ct, lens, t, a.pos) == Some(Below(root, tab[start + e0.val + Low(Shr(hold, root), e0.op)]))
            && root + tab[start + e0.val + Low(Shr(hold, root), e0.op)].bits <= MAXBITS
          else Decode(ct, lens, t, a.pos) == Some(e0) && e0.bits <= MAXBITS)
  {
    hide Acceptable, Decode, BytesToBits, Low, Shr, Lookup, LooksLink, NotOversubscribed, ValidLengths, Held, TableFor;
    TableSeen(ct, tab, start, root, lens, hold, bits, fed, a, t);
  }

  /** What a match needs of the state before it. */
  lemma ScratchMatch(a: State, length: nat, offset: nat, extra: nat)
    requires a.mode == MATCH && Scratch(a, length, offset, extra)
    ensures length == a.length && offset == a.offset && 1 <= length <= 258 && 1 <= offset <= WSIZE
  {
  }

  lemma ScratchNone(a: State, length: nat, offset: nat, extra: nat)
    requires a.mode in {LEN, TYPE, BAD}
    ensures Scratch(a, length, offset, extra)
  {
  }

  lemma ScratchExtra(a: State, length: nat, offset: nat, extra: nat)
    requires a.mode in {LENEXT, DISTEXT} && Scratch(a, length, offset, extra)
    ensures extra == a.extra <= (if a.mode == LENEXT then 5 else 13) && length == a.length
    ensures (a.mode == DISTEXT ==> offset == a.offset)
  {
  }

  lemma NextModes(a: State, e: Code)
    requires a.mode in {LEN, DIST} && KindOk(TypeOf(a.mode), e.op, e.val)
    ensures var c := SymbolNext(a, e);
      c.pos == a.pos + e.bits && SameBlock(a, c)
      && (a.mode == LEN && e.op == 0 ==> c.mode == LIT && c.length == e.val < 256)
      && (e.op / 16 % 2 == 1 ==> c.mode == (if a.mode == LEN then LENEXT else DISTEXT))
      && (a.mode == LEN && e.op != 0 && e.op / 16 % 2 == 0 ==> c.mode == if e.op / 32 % 2 == 1 then TYPE else BAD)
      && (a.mode == DIST && e.op / 16 % 2 == 0 ==> c.mode == BAD)
  {
  }

  /** Whether an entry is a link, as inflate_fast tests it. */
  predicate FastLink(e: Code) {
    e.op != 0 && e.op / 16 % 2 == 0 && e.op / 64 % 2 == 0
  }

  /** e is what the next code stands for. */
  ghost predicate FastResult(a: State, t: seq<bool>, e: Code) {
    |LensOf(a)| <= MaxSymbols(TypeOf(a.mode)) && a.pos <= |t| && Decode(TypeOf(a.mode), LensOf(a), t, a.pos) == Some(e)
    && e.bits <= MAXBITS && KindOk(TypeOf(a.mode), e.op, e.val)
  }

  lemma FastSeen(tab: seq<Code>, start: nat, root: nat, hold: nat, bits: nat, fed: seq<byte>, a: State, t: seq<bool>)
    requires Held(hold, bits, fed, a, t) && TableFor(TypeOf(a.mode), tab, start, root, LensOf(a))
    requires a.mode in {LEN, DIST} && bits >= MAXBITS
    ensures start + Low(hold, root) < |tab|
    ensures var e0 := tab[start + Low(hold, root)];
      && (FastLink(e0) ==> e0.bits == root && start + e0.val + Low(Shr(hold, root), e0.op) < |tab|)
      && (FastLink(e0) ==> FastResult(a, t, Below(root, tab[start + e0.val + Low(Shr(hold, root), e0.op)])))
      && (!FastLink(e0) ==> FastResult(a, t, e0))
  {
    hide Held, TableFor, Decode, Low, Shr, NotOversubscribed, ValidLengths, KindOk;
    HeldBits(hold, bits, fed, a, t);
    CodesPrefix(a, t);
    FullCode(TypeOf(a.mode), tab, start, root, LensOf(a), hold, bits, fed, a, t);
    SymbolKinds(TypeOf(a.mode), LensOf(a), t, a.pos);
    var e0 := tab[start + Low(hold, root)];
    if IsLink(e0) { LinkOp(e0.op); } else { KindNoLink(TypeOf(a.mode), e0); }
  }

  lemma LinkOp(op: nat)
    requires 0 < op < 16
    ensures op / 16 % 2 == 0 && op / 64 % 2 == 0
  {
  }

  lemma KindNoLink(ct: CodeType, e: Code)
    requires KindOk(ct, e.op, e.val)
    ensures !FastLink(e)
  {
  }

  lemma NotYet(bits: nat, a: State, fed: seq<byte>)
    requires Tight(bits, a, fed) && a.mode == LEN && a.pos + bits == 8 * |fed| && bits >= 8
    ensures |a.ls| <= MaxSymbols(LENS) && Decode(LENS, a.ls, BytesToBits(fed), a.pos).None?
  {
    hide NotOversubscribed, ValidLengths, Field, BytesToBits, Decode;
    var s := BytesToBits(fed);
    assert Step(a, s, |a.out| + 1) == LenStep(a, s);
  }

  /** A code that could not be read from what was held takes more than that. */
  lemma MoreThanHeld(bits: nat, a: State, fed: seq<byte>, t: seq<bool>)
    requires Tight(bits, a, fed) && a.mode == LEN && a.pos + bits == 8 * |fed| && BytesToBits(fed) <= t
    requires Acceptable(LENS, a.ls)
    requires WellFormed(a, t) && Decode(LENS, a.ls, t, a.pos).Some?
    ensures bits < 8 || Decode(LENS, a.ls, t, a.pos).value.bits > bits
  {
    hide NotOversubscribed, ValidLengths, Acceptable, BytesToBits, Decode, Tight;
    var s := BytesToBits(fed);
    if bits >= 8 {
      NotYet(bits, a, fed);
      assert s + t[|s|..] == t;
      CodesPrefix(a, t);
      if Decode(LENS, a.ls, t, a.pos).value.bits <= bits {
        DecodeShort(LENS, a.ls, s, t[|s|..], a.pos);
      }
    }
  }

  /** The first symbol takes more bits than were held, or fewer than a byte was. */
  lemma FirstTakes(bits: nat, a: State, fed: seq<byte>, t: seq<bool>, pos: nat)
    requires Tight(bits, a, fed) && a.mode == LEN && a.pos + bits == 8 * |fed| && BytesToBits(fed) <= t
    requires Acceptable(LENS, a.ls) && WellFormed(a, t)
    requires exists e :: FastResult(a, t, e) && pos >= a.pos + e.bits
    ensures pos > a.pos && (bits < 8 || pos > a.pos + bits)
  {
    hide Tight, WellFormed, Decode, Acceptable, BytesToBits, KindOk;
    MoreThanHeld(bits, a, fed, t);
  }

  lemma SymbolTakes(a: State, t: seq<bool>, pos: nat)
    requires exists e :: FastResult(a, t, e) && pos >= a.pos + e.bits
    ensures pos > a.pos
  {
    hide Decode, KindOk;
  }

  /** Whole bytes not used go back to the input. */
  lemma HeldBack(hold: nat, bits: nat, fed: seq<byte>, a: State, t: seq<bool>, k: nat)
    requires Held(hold, bits, fed, a, t) && 8 * k <= bits
    ensures k <= |fed| && Held(Low(hold, bits - 8 * k), bits - 8 * k, fed[..|fed| - k], a, t)
  {
    hide WellFormed, BytesToBits, Accumulated, Low;
    Returned(hold, bits, fed, a.pos, k);
    BytesToBitsConcat(fed[..|fed| - k], fed[|fed| - k..]);
    assert fed[..|fed| - k] + fed[|fed| - k..] == fed;
  }
}
