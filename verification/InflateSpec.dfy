/** inflate.c as a state machine over the whole bit string received so far: one step
for each field, code or byte that inflate handles without being able to stop inside it. */
module InflateSpec {
  import opened Bits
  import opened Canonical
  import opened BitStream
  import opened Format
  import opened FixedCodes
  import opened TableSpace
  import opened InfTrees

  datatype Mode = TYPE | STORED | COPY | TABLE | LENLENS | CODELENS
                | LEN | LENEXT | DIST | DISTEXT | MATCH | LIT | DONE | BAD

  /** pos is the first bit not consumed; lens the lengths read so far, of the bit length
      codes in LENLENS and of both other codes in CODELENS; out everything written. */
  datatype State = State(mode: Mode, last: bool, pos: nat, length: nat, offset: nat, extra: nat,
                         nlen: nat, ndist: nat, ncode: nat, lens: seq<nat>,
                         codes: seq<nat>, ls: seq<nat>, ds: seq<nat>, out: seq<byte>)

  datatype Option<T> = None | Some(value: T)

  function Start(): State {
    State(TYPE, false, 0, 0, 0, 0, 0, 0, 0, [], [], [], [], [])
  }

  /** The n-bit field at pos. */
  function Field(s: seq<bool>, pos: nat, n: nat): (v: nat)
    requires pos + n <= |s|
    ensures v < Pow2(n)
  {
    FromBits(s[pos..pos + n])
  }

  /** The next byte boundary. */
  function Align(pos: nat): nat {
    pos + (8 - pos % 8) % 8
  }

  /** The entry of the symbol whose code comes next, the invalid marker if there is
      none, nothing if more bits are needed to tell. */
  ghost function Decode(t: CodeType, lens: seq<nat>, s: seq<bool>, pos: nat): (r: Option<Code>)
    requires |lens| <= MaxSymbols(t) && pos <= |s|
    ensures r.Some? ==> 1 <= r.value.bits <= |s| - pos
    ensures r.Some? && t == CODES ==> r.value.val < BL_CODES
  {
    var h := FromBits(s[pos..]);
    if exists c: nat :: Matches(lens, c, h) && lens[c] <= |s| - pos then
      var c: nat :| Matches(lens, c, h) && lens[c] <= |s| - pos;
      Some(Entry(SymOf(t, c), lens[c]))
    else if !Matched(lens, h) && 1 <= |s| - pos && MaxLen(lens) <= |s| - pos then Some(Code(INVALID_CODE, 1, 0))
    else None
  }

  /** The bit length code lengths from the fields in the order they travel. */
  function Unorder(fields: seq<nat>): (r: seq<nat>)
    requires |fields| <= BL_CODES
    ensures |r| == BL_CODES
    ensures forall i {:trigger r[BL_ORDER[i]]} :: 0 <= i < BL_CODES ==>
      r[BL_ORDER[i]] == if i < |fields| then fields[i] else 0
  {
    seq(BL_CODES, v requires 0 <= v < BL_CODES =>
      if BL_RANK[v] < |fields| then fields[BL_RANK[v]] else 0)
  }

  lemma UnorderAtMost(fields: seq<nat>, max: nat)
    requires |fields| <= BL_CODES && AtMost(fields, max)
    ensures AtMost(Unorder(fields), max)
  {
  }

  /** Where each symbol stands in BL_ORDER. */
  const BL_RANK: seq<nat> := [3, 17, 15, 13, 11, 9, 7, 5, 4, 6, 8, 10, 12, 14, 16, 18, 0, 1, 2]

  predicate Literal?(e: Code) { e.op == 0 }
  predicate EndOfBlock?(e: Code) { e.op / 32 % 2 == 1 }
  predicate Invalid?(e: Code) { e.op / 64 % 2 == 1 }

  /** Lengths that give every string at most one reading. */
  ghost predicate Prefix(t: CodeType, lens: seq<nat>) {
    |lens| <= MaxSymbols(t) && ValidLengths(lens) && NotOversubscribed(lens)
  }

  ghost predicate AtMost(lens: seq<nat>, max: nat) {
    forall i :: 0 <= i < |lens| ==> lens[i] <= max
  }

  ghost predicate WellFormed(a: State, s: seq<bool>) {
    && a.pos <= |s|
    && Prefix(LENS, a.ls) && Prefix(DISTS, a.ds) && Prefix(CODES, a.codes)
    && (a.mode == LENLENS ==> |a.lens| <= a.ncode <= BL_CODES && AtMost(a.lens, 7))
    && (a.mode == LENLENS || a.mode == CODELENS ==> 257 <= a.nlen <= 286 && 1 <= a.ndist <= 30)
    && (a.mode == CODELENS ==> |a.lens| <= a.nlen + a.ndist && AtMost(a.lens, MAXBITS))
  }

  lemma AcceptablePrefix(t: CodeType, lens: seq<nat>)
    requires Acceptable(t, lens) && |lens| <= MaxSymbols(t) && AtMost(lens, MAXBITS)
    ensures Prefix(t, lens)
  {
    if Empty(lens) {
      forall l: nat | l >= 1 ensures Count(lens, l) == 0 { NoneOf(lens, l); }
      UsedJump(lens, 0, MAXBITS);
    }
  }

  lemma EmptyPrefix(t: CodeType)
    ensures Prefix(t, [])
  {
    hide Pow2;
    forall l: nat | l >= 1 ensures Count([], l) == 0 { }
    UsedJump([], 0, MAXBITS);
  }

  lemma StartWellFormed(s: seq<bool>)
    ensures WellFormed(Start(), s)
  {
    hide Prefix;
    EmptyPrefix(LENS);
    EmptyPrefix(DISTS);
    EmptyPrefix(CODES);
  }

  function Rank(mode: Mode): nat {
    match mode
    case DONE | BAD => 0
    case TYPE | LEN | DIST => 1
    case COPY | LIT | MATCH | LENEXT | CODELENS => 2
    case DISTEXT | LENLENS => 3
    case TABLE | STORED => 4
  }

  /** Each step consumes input, or moves on to a mode of lower rank, or copies a byte. */
  ghost predicate Decreases(a: State, b: State) {
    || b.pos > a.pos
    || (b.pos == a.pos && Rank(b.mode) < Rank(a.mode))
    || (b.pos == a.pos && Rank(b.mode) == Rank(a.mode) && b.length < a.length)
  }

  /** A step leads to a well-formed state that is closer to the end. */
  ghost predicate Onward(a: State, r: Option<State>, s: seq<bool>) {
    r.Some? ==> WellFormed(r.value, s) && Decreases(a, r.value)
  }

  lemma FixedPrefix()
    ensures Prefix(LENS, FixedLitLens()) && Prefix(DISTS, FixedDistLens())
  {
    FixedLitComplete();
    FixedDistComplete();
  }

  ghost function TypeStep(a: State, s: seq<bool>): (r: Option<State>)
    requires WellFormed(a, s) && a.mode == TYPE
    ensures Onward(a, r, s)
  {
    hide Prefix, FixedLitLens, FixedDistLens, Field;
    if a.last then
      if Align(a.pos) <= |s| then Some(a.(mode := DONE, pos := Align(a.pos))) else None
    else if a.pos + 3 > |s| then None
    else
      var b := a.(last := s[a.pos], pos := a.pos + 3);
      FixedPrefix();
      match Field(s, a.pos + 1, 2)
      case 0 => Some(b.(mode := STORED))
      case 1 => Some(b.(mode := LEN, ls := FixedLitLens(), ds := FixedDistLens()))
      case 2 => Some(b.(mode := TABLE))
      case _ => Some(b.(mode := BAD))
  }

  lemma AlignUp(pos: nat)
    ensures Align(pos) >= pos && (pos % 8 != 0 ==> Align(pos) > pos)
  {
  }

  ghost function StoredStep(a: State, s: seq<bool>): (r: Option<State>)
    requires WellFormed(a, s) && a.mode == STORED
    ensures Onward(a, r, s)
  {
    hide Align, Prefix, Field, Pow2;
    AlignUp(a.pos);
    if a.pos % 8 != 0 then
      if Align(a.pos) <= |s| then Some(a.(pos := Align(a.pos))) else None
    else if a.pos + 32 > |s| then None
    else
      var len := Field(s, a.pos, 16);
      if len != 0xffff - Field(s, a.pos + 16, 16) then Some(a.(mode := BAD))
      else Some(a.(mode := COPY, length := len, pos := a.pos + 32))
  }

  ghost function CopyStep(a: State, s: seq<bool>, m: nat): (r: Option<State>)
    requires WellFormed(a, s) && a.mode == COPY
    ensures Onward(a, r, s)
  {
    if a.length == 0 then Some(a.(mode := TYPE))
    else if a.pos + 8 > |s| || |a.out| >= m then None
    else
      Pow2Values();
      Some(a.(out := a.out + [Field(s, a.pos, 8)], pos := a.pos + 8, length := a.length - 1))
  }

  ghost function TableStep(a: State, s: seq<bool>): (r: Option<State>)
    requires WellFormed(a, s) && a.mode == TABLE
    ensures Onward(a, r, s)
  {
    if a.pos + 14 > |s| then None
    else
      Pow2Values();
      var b := a.(pos := a.pos + 14, lens := [], nlen := Field(s, a.pos, 5) + 257,
                  ndist := Field(s, a.pos + 5, 5) + 1, ncode := Field(s, a.pos + 10, 4) + 4);
      Some(b.(mode := if b.nlen > 286 || b.ndist > 30 then BAD else LENLENS))
  }

  ghost function LenLensStep(a: State, s: seq<bool>): (r: Option<State>)
    requires WellFormed(a, s) && a.mode == LENLENS
    ensures Onward(a, r, s)
  {
    hide Acceptable, Unorder;
    Pow2Values();
    UnorderAtMost(a.lens, 7);
    if |a.lens| < a.ncode then
      if a.pos + 3 > |s| then None
      else Some(a.(pos := a.pos + 3, lens := a.lens + [Field(s, a.pos, 3)]))
    else
      var codes := Unorder(a.lens);
      if Acceptable(CODES, codes) then
        AcceptablePrefix(CODES, codes);
        Some(a.(mode := CODELENS, codes := codes, lens := []))
      else Some(a.(mode := BAD))
  }

  /** A code length or a repeat, its field included. */
  ghost function CodeLensStep(a: State, s: seq<bool>): (r: Option<State>)
    requires WellFormed(a, s) && a.mode == CODELENS && |a.lens| < a.nlen + a.ndist
    ensures Onward(a, r, s)
  {
    var d := Decode(CODES, a.codes, s, a.pos);
    if d.None? then None
    else
      var e := d.value;
      var n := ExtraBlBits(e.val);
      if e.bits + n > |s| - a.pos then None
      else if e.val == REP_3_6 && |a.lens| == 0 then Some(a.(mode := BAD, pos := a.pos + e.bits))
      else
        var b := a.(pos := a.pos + e.bits + n);
        var lens := Append(a.lens, Rle(e.val, Field(s, a.pos + e.bits, n)));
        if |lens| > a.nlen + a.ndist then Some(b.(mode := BAD)) else Some(b.(lens := lens))
  }

  /** All lengths are in: both codes must be acceptable and their tables fit. */
  ghost function BuildStep(a: State, s: seq<bool>): (r: Option<State>)
    requires WellFormed(a, s) && a.mode == CODELENS && |a.lens| == a.nlen + a.ndist
    ensures Onward(a, r, s)
  {
    hide Acceptable, TooBig;
    var ls, ds := a.lens[..a.nlen], a.lens[a.nlen..];
    if ls[256] == 0 || !Buildable(LENS, ls, 9) || !Buildable(DISTS, ds, 6) then Some(a.(mode := BAD))
    else
      AcceptablePrefix(LENS, ls);
      AcceptablePrefix(DISTS, ds);
      Some(a.(mode := LEN, ls := ls, ds := ds))
  }

  ghost predicate Buildable(t: CodeType, lens: seq<nat>, bits: nat) {
    Acceptable(t, lens) && !TooBig(t, lens, bits)
  }

  ghost function LenStep(a: State, s: seq<bool>): (r: Option<State>)
    requires WellFormed(a, s) && a.mode == LEN
    ensures Onward(a, r, s)
  {
    var d := Decode(LENS, a.ls, s, a.pos);
    if d.None? then None
    else
      var e := d.value;
      var b := a.(pos := a.pos + e.bits, length := e.val);
      if Literal?(e) then Some(b.(mode := LIT))
      else if EndOfBlock?(e) then Some(b.(mode := TYPE))
      else if Invalid?(e) then Some(b.(mode := BAD))
      else Some(b.(mode := LENEXT, extra := e.op % 16))
  }

  ghost function DistStep(a: State, s: seq<bool>): (r: Option<State>)
    requires WellFormed(a, s) && a.mode == DIST
    ensures Onward(a, r, s)
  {
    var d := Decode(DISTS, a.ds, s, a.pos);
    if d.None? then None
    else
      var e := d.value;
      var b := a.(pos := a.pos + e.bits);
      if Invalid?(e) then Some(b.(mode := BAD))
      else Some(b.(mode := DISTEXT, offset := e.val, extra := e.op % 16))
  }

  /** One byte of a match, m being the most output there is room for. */
  ghost function MatchStep(a: State, s: seq<bool>, m: nat): (r: Option<State>)
    requires WellFormed(a, s) && a.mode == MATCH
    ensures Onward(a, r, s)
  {
    if a.length == 0 && 1 <= a.offset <= |a.out| then Some(a.(mode := LEN))
    else if |a.out| >= m then None
    else if a.offset > |a.out| || a.offset == 0 then Some(a.(mode := BAD))
    else
      var b := a.(out := a.out + [a.out[|a.out| - a.offset]], length := a.length - 1);
      Some(b.(mode := if b.length == 0 then LEN else MATCH))
  }

  /** One step with the bits s and room for m bytes of output in all; None if it needs
      more of either, or there is no further step. */
  ghost function Step(a: State, s: seq<bool>, m: nat): (r: Option<State>)
    requires WellFormed(a, s)
    ensures Onward(a, r, s)
  {
    match a.mode
    case TYPE => TypeStep(a, s)
    case STORED => StoredStep(a, s)
    case COPY => CopyStep(a, s, m)
    case TABLE => TableStep(a, s)
    case LENLENS => LenLensStep(a, s)
    case CODELENS => if |a.lens| < a.nlen + a.ndist then CodeLensStep(a, s) else BuildStep(a, s)
    case LEN => LenStep(a, s)
    case LENEXT =>
      if a.pos + a.extra > |s| then None
      else Some(a.(mode := DIST, length := a.length + Field(s, a.pos, a.extra), pos := a.pos + a.extra))
    case DIST => DistStep(a, s)
    case DISTEXT =>
      if a.pos + a.extra > |s| then None
      else Some(a.(mode := MATCH, offset := a.offset + Field(s, a.pos, a.extra), pos := a.pos + a.extra))
    case MATCH => MatchStep(a, s, m)
    case LIT => if |a.out| >= m then None else Some(a.(mode := LEN, out := a.out + [a.length % 256]))
    case DONE => None
    case BAD => None
  }

  /** As many steps as possible. */
  ghost function Run(a: State, s: seq<bool>, m: nat): (r: State)
    requires WellFormed(a, s)
    ensures WellFormed(r, s) && Step(r, s, m).None?
    decreases |s| - a.pos, Rank(a.mode), a.length
  {
    var b := Step(a, s, m);
    if b.None? then a else Run(b.value, s, m)
  }
}
