/** inflate.c: what each case of the switch does to the accumulator and to the state of
InflateSpec: ...Reads when the bits it needs are there, ...Waits when they are not. */
module InflateSteps {
  import opened Bits
  import opened Canonical
  import opened BitStream
  import opened Format
  import opened FixedCodes
  import opened TableSpace
  import opened InfTrees
  import opened InflateSpec
  import opened InflateBits
  import opened InflateState

  // ------------------------------------------------------------ block headers

  /** The state after the header of a block. */
  ghost function TypeNext(a: State, b: nat, kind: nat): State {
    var c := a.(last := b == 1, pos := a.pos + 3);
    match kind
    case 0 => c.(mode := STORED)
    case 1 => c.(mode := LEN, ls := FixedLitLens(), ds := FixedDistLens())
    case 2 => c.(mode := TABLE)
    case _ => c.(mode := BAD)
  }

  lemma TypeKeeps(a: State, b: nat, kind: nat)
    ensures var c := TypeNext(a, b, kind);
      c.mode in {STORED, LEN, TABLE, BAD} && c.out == a.out && c.last == (b == 1)
      && (c.mode == LEN ==> c.ls == FixedLitLens() && c.ds == FixedDistLens())
  {
    hide FixedLitLens, FixedDistLens;
  }

  lemma TypeReads(hold: nat, bits: nat, fed: seq<byte>, a: State, t: seq<bool>, m: nat)
    requires Held(hold, bits, fed, a, t) && 3 <= bits < 11 && a.mode == TYPE && !a.last
    ensures var c := TypeNext(a, Low(hold, 1), Low(Shr(hold, 1), 2));
      Moved(a, c, t, m) && Held(Shr(Shr(hold, 1), 2), bits - 3, fed, c, t) && Tight(bits - 3, c, fed)
  {
    hide WellFormed, BytesToBits, Pow2, Shr, Low, Field, Run, Step, FixedLitLens, FixedDistLens, Accumulated, Moved;
    hide Tight;
    Pow2Values();
    Taken(hold, bits, fed, a.pos, t, 1);
    Taken(Shr(hold, 1), bits - 1, fed, a.pos + 1, t, 2);
    var c := TypeNext(a, Low(hold, 1), Low(Shr(hold, 1), 2));
    TypeStarts(a, t, m, Low(hold, 1), Low(Shr(hold, 1), 2));
    Moves(a, c, t, m);
    MovedTo(a, c, t, m);
    HeldBits(hold, bits, fed, a, t);
    TightNow(bits - 3, c, fed, t);
  }

  lemma TypeStarts(a: State, t: seq<bool>, m: nat, b: nat, kind: nat)
    requires WellFormed(a, t) && a.mode == TYPE && !a.last && a.pos + 3 <= |t|
    requires b == Field(t, a.pos, 1) && kind == Field(t, a.pos + 1, 2)
    ensures Step(a, t, m) == Some(TypeNext(a, b, kind)) && kind < 4
  {
    hide WellFormed, FixedLitLens, FixedDistLens, Field;
    OneBitField(t, a.pos);
    Pow2Values();
    assert Step(a, t, m) == TypeStep(a, t);
  }

  lemma OneBitField(t: seq<bool>, pos: nat)
    requires pos < |t|
    ensures Field(t, pos, 1) == if t[pos] then 1 else 0
  {
    var x := t[pos..pos + 1];
    assert x[1..] == [];
  }

  lemma TypeEnds(hold: nat, bits: nat, fed: seq<byte>, a: State, t: seq<bool>, m: nat)
    requires Held(hold, bits, fed, a, t) && bits < 8 && a.mode == TYPE && a.last
    ensures var c := a.(mode := DONE, pos := Align(a.pos));
      Moved(a, c, t, m) && Held(Shr(hold, bits % 8), bits - bits % 8, fed, c, t) && Tight(bits - bits % 8, c, fed)
  {
    hide WellFormed, BytesToBits, Pow2, Shr, Low, Run, Accumulated, Moved, Tight;
    var c := a.(mode := DONE, pos := Align(a.pos));
    Aligned(hold, bits, fed, a, t);
    assert Step(a, t, m) == TypeStep(a, t);
    Moves(a, c, t, m);
    MovedTo(a, c, t, m);
    HeldBits(hold, bits, fed, a, t);
    TightNow(bits - bits % 8, c, fed, t);
  }

  lemma TypeWaits(hold: nat, bits: nat, fed: seq<byte>, a: State, t: seq<bool>, m: nat)
    requires Held(hold, bits, fed, a, t) && bits < 3 && BytesToBits(fed) == t && a.mode == TYPE && !a.last
    ensures Stuck(a, t, m) && Tight(bits, a, fed)
  {
    hide WellFormed, BytesToBits, Tight;
    HeldBits(hold, bits, fed, a, t);
    assert Step(a, t, m) == TypeStep(a, t);
    TightNow(bits, a, fed, t);
  }

  /** With a byte in the accumulator a header can be read. */
  lemma TypeTight(bits: nat, a: State, fed: seq<byte>)
    requires Tight(bits, a, fed) && a.mode == TYPE && a.pos + bits == 8 * |fed|
    ensures bits < 8
  {
    hide WellFormed, FixedLitLens, FixedDistLens, Field, BytesToBits;
    var s := BytesToBits(fed);
    assert Step(a, s, |a.out| + 1) == TypeStep(a, s);
  }

  /** PULLBYTE */
  lemma PullHeld(hold: nat, bits: nat, fed: seq<byte>, a: State, t: seq<bool>, b: byte, rest: seq<byte>)
    requires Held(hold, bits, fed, a, t) && t == BytesToBits(fed + [b] + rest)
    ensures Held(hold + Placed(b, bits), bits + 8, fed + [b], a, t)
  {
    hide WellFormed, BytesToBits, Pow2, Accumulated;
    Pulled(hold, bits, fed, a.pos, b);
    BytesToBitsConcat(fed + [b], rest);
  }

  // ------------------------------------------------------------ byte boundary

  lemma HeldBits(hold: nat, bits: nat, fed: seq<byte>, a: State, t: seq<bool>)
    requires Held(hold, bits, fed, a, t)
    ensures a.pos + bits == 8 * |fed| == |BytesToBits(fed)| <= |t| && WellFormed(a, t)
  {
    hide WellFormed, BytesToBits, FromBits;
  }

  lemma MovedTo(a: State, b: State, t: seq<bool>, m: nat)
    requires Moved(a, b, t, m)
    ensures WellFormed(b, t)
  {
    hide WellFormed, Run;
  }

  /** BYTEBITS */
  lemma Aligned(hold: nat, bits: nat, fed: seq<byte>, a: State, t: seq<bool>)
    requires Held(hold, bits, fed, a, t)
    ensures Align(a.pos) == a.pos + bits % 8 <= |t| && Align(a.pos) % 8 == 0
    ensures Accumulated(Shr(hold, bits % 8), bits - bits % 8, fed, Align(a.pos))
  {
    hide WellFormed, BytesToBits, FromBits, Pow2, Shr, Low;
    AlignUp(a.pos, bits, |fed|);
    Dropped(hold, bits, fed, a.pos, bits % 8);
  }

  lemma AlignUp(pos: nat, bits: nat, f: nat)
    requires pos + bits == 8 * f
    ensures (8 - pos % 8) % 8 == bits % 8 && (pos + bits % 8) % 8 == 0
  {
  }

  // ------------------------------------------------------------ stored blocks

  lemma StoredAligns(hold: nat, bits: nat, fed: seq<byte>, a: State, t: seq<bool>, m: nat)
    requires Held(hold, bits, fed, a, t) && a.mode == STORED
    ensures var c := a.(pos := Align(a.pos));
      (c == a || Moved(a, c, t, m)) && Held(Shr(hold, bits % 8), bits - bits % 8, fed, c, t)
  {
    hide WellFormed, BytesToBits, Pow2, Shr, Low, Run, Accumulated, Moved;
    var c := a.(pos := Align(a.pos));
    Aligned(hold, bits, fed, a, t);
    if a.pos % 8 != 0 {
      assert Step(a, t, m) == StoredStep(a, t);
      Moves(a, c, t, m);
      MovedTo(a, c, t, m);
    }
  }

  lemma StoredWaits(hold: nat, bits: nat, fed: seq<byte>, a: State, t: seq<bool>, m: nat)
    requires Held(hold, bits, fed, a, t) && bits < 32 && BytesToBits(fed) == t && a.mode == STORED && a.pos % 8 == 0
    ensures Stuck(a, t, m) && Tight(bits, a, fed)
  {
    hide WellFormed, BytesToBits, Field, Tight;
    HeldBits(hold, bits, fed, a, t);
    assert Step(a, t, m) == StoredStep(a, t) == Step(a, t, |a.out| + 1);
    TightWaits(bits, a, fed, t);
  }

  ghost function StoredNext(a: State, len: nat, nlen: nat): State {
    if len != 0xffff - nlen then a.(mode := BAD) else a.(mode := COPY, length := len, pos := a.pos + 32)
  }

  lemma StoredReads(hold: nat, fed: seq<byte>, a: State, t: seq<bool>, m: nat)
    requires Held(hold, 32, fed, a, t) && a.mode == STORED && a.pos % 8 == 0
    ensures Shr(hold, 16) < 65536
    ensures var c := StoredNext(a, Low(hold, 16), Shr(hold, 16));
      Moved(a, c, t, m)
      && if c.mode == BAD then Held(hold, 32, fed, c, t) && Tight(32, c, fed)
         else Held(0, 0, fed, c, t) && Tight(0, c, fed)
  {
    hide WellFormed, BytesToBits, Field, Run, Accumulated, Moved, Tight, Pow2, Shr, Low;
    var c := StoredNext(a, Low(hold, 16), Shr(hold, 16));
    Pow2Values();
    Taken(hold, 32, fed, a.pos, t, 16);
    Taken(Shr(hold, 16), 16, fed, a.pos + 16, t, 16);
    HalfHeld(hold, fed, a, t);
    assert Step(a, t, m) == StoredStep(a, t);
    Moves(a, c, t, m);
    MovedTo(a, c, t, m);
    HeldBits(hold, 32, fed, a, t);
    if c.mode == BAD { TightBad(32, c, fed, t); } else { TightNow(0, c, fed, t); }
  }

  lemma HalfHeld(hold: nat, fed: seq<byte>, a: State, t: seq<bool>)
    requires Held(hold, 32, fed, a, t)
    ensures Shr(hold, 16) < 65536 && Accumulated(0, 0, fed, a.pos + 32) && Low(Shr(hold, 16), 16) == Shr(hold, 16)
  {
    hide WellFormed, BytesToBits, Pow2, Shr, Low, Accumulated;
    Pow2Values();
    Taken(hold, 32, fed, a.pos, t, 16);
    HoldBound(Shr(hold, 16), 16, fed, a.pos + 16);
    LowIdentity(Shr(hold, 16), 16);
    Dropped(Shr(hold, 16), 16, fed, a.pos + 16, 16);
    HoldEmpty(Shr(Shr(hold, 16), 16), fed, a.pos + 32);
  }

  /** An empty accumulator. */
  lemma HoldEmpty(hold: nat, fed: seq<byte>, pos: nat)
    requires Accumulated(hold, 0, fed, pos)
    ensures hold == 0
  {
  }

  lemma CopyWaits(hold: nat, fed: seq<byte>, a: State, t: seq<bool>, m: nat)
    requires Held(hold, 0, fed, a, t) && a.mode == COPY && a.length != 0 && (BytesToBits(fed) == t || |a.out| >= m)
    ensures Stuck(a, t, m) && Tight(0, a, fed)
  {
    hide WellFormed, BytesToBits, Field, Tight;
    HeldBits(hold, 0, fed, a, t);
    TightNow(0, a, fed, t);
  }

  lemma CopyEnds(hold: nat, fed: seq<byte>, a: State, t: seq<bool>, m: nat)
    requires Held(hold, 0, fed, a, t) && a.mode == COPY && a.length == 0
    ensures var c := a.(mode := TYPE); Moved(a, c, t, m) && Held(hold, 0, fed, c, t) && Tight(0, c, fed)
  {
    hide WellFormed, BytesToBits, Field, Tight, Moved, Accumulated;
    var c := a.(mode := TYPE);
    Moves(a, c, t, m);
    MovedTo(a, c, t, m);
    HeldBits(hold, 0, fed, a, t);
    TightNow(0, c, fed, t);
  }

  lemma CopyOne(a: State, t: seq<bool>, m: nat, fed: seq<byte>, x: byte)
    requires WellFormed(a, t) && a.mode == COPY && a.length > 0 && |a.out| < m
    requires a.pos == 8 * |fed| && BytesToBits(fed + [x]) <= t
    ensures Step(a, t, m) == Some(a.(out := a.out + [x], pos := a.pos + 8, length := a.length - 1))
  {
    hide WellFormed, BytesToBits, ToBits, Pow2, Shr, Low;
    BytesToBitsSnoc(fed, x);
    assert t[a.pos..a.pos + 8] == ToBits(x, 8);
    FromToBits(x, 8);
    Pow2Values();
    LowIdentity(x, 8);
    assert Step(a, t, m) == CopyStep(a, t, m);
  }

  ghost function Copied(a: State, data: seq<byte>): State
    requires |data| <= a.length
  {
    a.(out := a.out + data, pos := a.pos + 8 * |data|, length := a.length - |data|)
  }

  /** Bytes of a stored block, copied one for one. */
  lemma {:induction false} CopyMany(a: State, t: seq<bool>, m: nat, fed: seq<byte>, data: seq<byte>)
    requires WellFormed(a, t) && a.mode == COPY && 0 < |data| <= a.length && |a.out| + |data| <= m
    requires a.pos == 8 * |fed| && BytesToBits(fed + data) <= t
    ensures Moved(a, Copied(a, data), t, m)
    decreases |data|
  {
    hide WellFormed, BytesToBits, Step, Moved;
    var x := data[0];
    var b := Copied(a, [x]);
    assert fed + data == fed + [x] + data[1..];
    BytesToBitsConcat(fed + [x], data[1..]);
    CopyOne(a, t, m, fed, x);
    Moves(a, b, t, m);
    if |data| == 1 {
      assert data == [x];
    } else {
      MovedTo(a, b, t, m);
      CopyMany(b, t, m, fed + [x], data[1..]);
      assert a.out + [x] + data[1..] == a.out + data;
      assert Copied(b, data[1..]) == Copied(a, data);
      MovedOn(a, b, Copied(a, data), t, m);
    }
  }

  lemma CopyReads(hold: nat, fed: seq<byte>, a: State, t: seq<bool>, m: nat, data: seq<byte>, rest: seq<byte>)
    requires Held(hold, 0, fed, a, t) && a.mode == COPY && 0 < |data| <= a.length && |a.out| + |data| <= m
    requires t == BytesToBits(fed + data + rest)
    ensures var c := Copied(a, data); Moved(a, c, t, m) && Held(hold, 0, fed + data, c, t) && Tight(0, c, fed + data)
  {
    hide WellFormed, BytesToBits, Step, Moved, Tight, FromBits;
    var c := Copied(a, data);
    BytesToBitsConcat(fed + data, rest);
    HeldBits(hold, 0, fed, a, t);
    CopyMany(a, t, m, fed, data);
    MovedTo(a, c, t, m);
    TightNow(0, c, fed + data, t);
    NothingHeld(hold, fed, fed + data, a.pos);
  }

  lemma NothingHeld(hold: nat, fed: seq<byte>, more: seq<byte>, pos: nat)
    requires Accumulated(hold, 0, fed, pos)
    ensures Accumulated(hold, 0, more, 8 * |more|)
  {
  }

  // ------------------------------------------------------------ the three counts

  lemma TableWaits(hold: nat, bits: nat, fed: seq<byte>, a: State, t: seq<bool>, m: nat)
    requires Held(hold, bits, fed, a, t) && bits < 14 && BytesToBits(fed) == t && a.mode == TABLE
    ensures Stuck(a, t, m) && Tight(bits, a, fed)
  {
    hide WellFormed, BytesToBits, Field, Tight;
    HeldBits(hold, bits, fed, a, t);
    assert Step(a, t, m) == TableStep(a, t) == Step(a, t, |a.out| + 1);
    TightWaits(bits, a, fed, t);
  }

  lemma TableTight(bits: nat, a: State, fed: seq<byte>)
    requires Tight(bits, a, fed) && a.mode == TABLE && a.pos + bits == 8 * |fed|
    ensures bits < 14
  {
    hide WellFormed, Field, BytesToBits;
    var s := BytesToBits(fed);
    assert Step(a, s, |a.out| + 1) == TableStep(a, s);
  }

  ghost function TableNext(a: State, n1: nat, n2: nat, n3: nat): State {
    a.(mode := if n1 + 257 > 286 || n2 + 1 > 30 then BAD else LENLENS, pos := a.pos + 14, lens := [],
       nlen := n1 + 257, ndist := n2 + 1, ncode := n3 + 4)
  }

  lemma TableReads(hold: nat, bits: nat, fed: seq<byte>, a: State, t: seq<bool>, m: nat)
    requires Held(hold, bits, fed, a, t) && 14 <= bits < 22 && a.mode == TABLE
    ensures var c := TableNext(a, Low(hold, 5), Low(Shr(hold, 5), 5), Low(Shr(Shr(hold, 5), 5), 4));
      Moved(a, c, t, m) && Held(Shr(Shr(Shr(hold, 5), 5), 4), bits - 14, fed, c, t) && Tight(bits - 14, c, fed)
  {
    hide WellFormed, BytesToBits, Field, Pow2, Shr, Low, Accumulated, Moved, Tight;
    var c := TableNext(a, Low(hold, 5), Low(Shr(hold, 5), 5), Low(Shr(Shr(hold, 5), 5), 4));
    Pow2Values();
    HeldBits(hold, bits, fed, a, t);
    Taken(hold, bits, fed, a.pos, t, 5);
    Taken(Shr(hold, 5), bits - 5, fed, a.pos + 5, t, 5);
    Taken(Shr(Shr(hold, 5), 5), bits - 10, fed, a.pos + 10, t, 4);
    assert Step(a, t, m) == TableStep(a, t);
    Moves(a, c, t, m);
    MovedTo(a, c, t, m);
    TightNow(bits - 14, c, fed, t);
  }

  // ------------------------------------------------------------ lengths of the bit length code

  lemma LenLensRoom(a: State, t: seq<bool>)
    requires WellFormed(a, t) && a.mode == LENLENS
    ensures |a.lens| <= a.ncode <= 19
  {
    hide Prefix;
  }

  lemma LenLensTight(bits: nat, a: State, fed: seq<byte>)
    requires Tight(bits, a, fed) && a.mode == LENLENS && a.pos + bits == 8 * |fed|
    ensures bits < 8
  {
    hide Prefix, Field, Unorder, Acceptable, BytesToBits;
    var s := BytesToBits(fed);
    assert Step(a, s, |a.out| + 1) == LenLensStep(a, s);
  }

  lemma LenLensWaits(hold: nat, bits: nat, fed: seq<byte>, a: State, t: seq<bool>, m: nat)
    requires Held(hold, bits, fed, a, t) && bits < 3 && BytesToBits(fed) == t && a.mode == LENLENS && |a.lens| < a.ncode
    ensures Stuck(a, t, m) && Tight(bits, a, fed)
  {
    hide Prefix, Unorder, Acceptable, BytesToBits, Tight, Field;
    HeldBits(hold, bits, fed, a, t);
    assert Step(a, t, m) == LenLensStep(a, t);
    TightNow(bits, a, fed, t);
  }

  lemma LenLensReads(hold: nat, bits: nat, fed: seq<byte>, a: State, t: seq<bool>, m: nat)
    requires Held(hold, bits, fed, a, t) && 3 <= bits < 11 && a.mode == LENLENS && |a.lens| < a.ncode
    ensures var c := a.(pos := a.pos + 3, lens := a.lens + [Low(hold, 3)]);
      Moved(a, c, t, m) && Held(Shr(hold, 3), bits - 3, fed, c, t) && Tight(bits - 3, c, fed)
  {
    hide Prefix, Field, Unorder, Acceptable, BytesToBits, Pow2, Shr, Low, Accumulated, Moved, Tight;
    var c := a.(pos := a.pos + 3, lens := a.lens + [Low(hold, 3)]);
    Pow2Values();
    HeldBits(hold, bits, fed, a, t);
    Taken(hold, bits, fed, a.pos, t, 3);
    assert Step(a, t, m) == LenLensStep(a, t);
    Moves(a, c, t, m);
    MovedTo(a, c, t, m);
    TightNow(bits - 3, c, fed, t);
  }

  /** A length of the bit length code, in terms of the fields. */
  lemma LenLensOne(hold: nat, bits: nat, fed: seq<byte>, a: State, t: seq<bool>, m: nat, nlen: nat, ndist: nat,
                   ncode: nat, have: nat, lens: seq<nat>)
    requires Held(hold, bits, fed, a, t) && 3 <= bits < 11 && a.mode == LENLENS && have < ncode
    requires Gathered(a, nlen, ndist, ncode, have, lens)
    ensures have == |a.lens| && ncode == a.ncode && have < 19 && BL_ORDER[have] < 19 <= |lens|
    ensures var c := a.(pos := a.pos + 3, lens := a.lens + [Low(hold, 3)]);
      Moved(a, c, t, m) && Held(Shr(hold, 3), bits - 3, fed, c, t) && Tight(bits - 3, c, fed)
      && Gathered(c, nlen, ndist, ncode, have + 1, lens[BL_ORDER[have] := Low(hold, 3)])
  {
    hide Held, Gathered, Moved, Tight, Shr, Low;
    HeldBits(hold, bits, fed, a, t);
    LenLensRoom(a, t);
    HaveLens(a, nlen, ndist, ncode, have, lens);
    LenLensReads(hold, bits, fed, a, t, m);
    GatherOne(a, nlen, ndist, ncode, have, lens, Low(hold, 3));
    OrderDistinct(have);
  }

  ghost function LenLensNext(a: State): State
    requires |a.lens| <= BL_CODES
  {
    if Acceptable(CODES, Unorder(a.lens)) then a.(mode := CODELENS, codes := Unorder(a.lens), lens := [])
      else a.(mode := BAD)
  }

  lemma LenLensBuilds(hold: nat, bits: nat, fed: seq<byte>, a: State, t: seq<bool>, m: nat)
    requires Held(hold, bits, fed, a, t) && bits < 8 && a.mode == LENLENS && |a.lens| == a.ncode <= BL_CODES
    ensures var c := LenLensNext(a); Moved(a, c, t, m) && Held(hold, bits, fed, c, t) && Tight(bits, c, fed)
    ensures AtMost(Unorder(a.lens), 7)
  {
    hide Acceptable, Unorder, Prefix, Accumulated, Moved, Tight, BytesToBits;
    var c := LenLensNext(a);
    HeldBits(hold, bits, fed, a, t);
    UnorderAtMost(a.lens, 7);
    assert Step(a, t, m) == LenLensStep(a, t);
    Moves(a, c, t, m);
    MovedTo(a, c, t, m);
    TightNow(bits, c, fed, t);
  }

  lemma UnorderIs(s: seq<nat>, fields: seq<nat>)
    requires |s| == 19 && |fields| <= 19
    requires forall i {:trigger BL_ORDER[i]} :: 0 <= i < 19 ==>
      BL_ORDER[i] < 19 && s[BL_ORDER[i]] == if i < |fields| then fields[i] else 0
    ensures s == Unorder(fields)
  {
    var r := Unorder(fields);
    forall v | 0 <= v < 19 ensures s[v] == r[v] {
      RankIs(v);
      assert s[BL_ORDER[BL_RANK[v]]] == r[BL_ORDER[BL_RANK[v]]];
    }
  }

  lemma RankIs(v: nat)
    requires v < 19
    ensures BL_RANK[v] < 19 && BL_ORDER[BL_RANK[v]] == v
  {
  }
}
