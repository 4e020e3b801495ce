/** inflate.c: input may arrive, and output space be granted, in any number of pieces. */
module InflateChunks {
  import opened Bits
  import opened Canonical
  import opened BitStream
  import opened InfTrees
  import opened TableSpace
  import opened Format
  import opened InflateSpec

  lemma FieldStable(s: seq<bool>, u: seq<bool>, pos: nat, n: nat)
    requires pos + n <= |s|
    ensures Field(s + u, pos, n) == Field(s, pos, n)
  {
    assert (s + u)[pos..pos + n] == s[pos..pos + n];
  }

  /** Further bits leave the low end of the window as it is. */
  lemma WindowStable(s: seq<bool>, u: seq<bool>, pos: nat)
    requires pos <= |s|
    ensures Low(FromBits((s + u)[pos..]), |s| - pos) == FromBits(s[pos..])
  {
    var x := (s + u)[pos..];
    FromBitsPrefix(x, |s| - pos);
    assert x[..|s| - pos] == s[pos..];
  }

  lemma MatchStable(lens: seq<nat>, c: nat, h: nat, h': nat, n: nat)
    requires Low(h', n) == h && c < |lens| && lens[c] <= n
    ensures Matches(lens, c, h) <==> Matches(lens, c, h')
  {
    LowLow(h', lens[c], n);
  }

  /** A code once decided stays decided the same way. */
  lemma DecodeStable(t: CodeType, lens: seq<nat>, s: seq<bool>, u: seq<bool>, pos: nat)
    requires Prefix(t, lens) && pos <= |s|
    requires Decode(t, lens, s, pos).Some?
    ensures Decode(t, lens, s + u, pos) == Decode(t, lens, s, pos)
  {
    hide SymOf, MaxLen;
    var h, h', n := FromBits(s[pos..]), FromBits((s + u)[pos..]), |s| - pos;
    WindowStable(s, u, pos);
    if c: nat :| Matches(lens, c, h) && lens[c] <= n {
      DecodeIs(t, lens, s, pos, c);
      MatchStable(lens, c, h, h', n);
      DecodeIs(t, lens, s + u, pos, c);
    } else {
      forall c: nat | Matches(lens, c, h')
        ensures false
      {
        MatchStable(lens, c, h, h', n);
      }
    }
  }

  /** The code that comes next, when it is there in full. */
  lemma DecodeIs(t: CodeType, lens: seq<nat>, s: seq<bool>, pos: nat, c: nat)
    requires Prefix(t, lens) && pos <= |s|
    requires Matches(lens, c, FromBits(s[pos..])) && lens[c] <= |s| - pos
    ensures Decode(t, lens, s, pos) == Some(Entry(SymOf(t, c), lens[c]))
  {
    hide SymOf, MaxLen, NotOversubscribed, ValidLengths, Word, FromBits, Low;
    forall d: nat | Matches(lens, d, FromBits(s[pos..]))
      ensures d == c
    {
      PrefixFree(lens, d, c, FromBits(s[pos..]));
    }
  }

  lemma TypeStable(a: State, s: seq<bool>, u: seq<bool>)
    requires WellFormed(a, s) && a.mode == TYPE && TypeStep(a, s).Some?
    ensures TypeStep(a, s + u) == TypeStep(a, s)
  {
    hide Prefix, Field, FixedLitLens, FixedDistLens;
    if a.pos + 3 <= |s| { FieldStable(s, u, a.pos + 1, 2); }
  }

  lemma StoredStable(a: State, s: seq<bool>, u: seq<bool>)
    requires WellFormed(a, s) && a.mode == STORED && StoredStep(a, s).Some?
    ensures StoredStep(a, s + u) == StoredStep(a, s)
  {
    hide Prefix, Field, Pow2;
    if a.pos + 32 <= |s| {
      FieldStable(s, u, a.pos, 16);
      FieldStable(s, u, a.pos + 16, 16);
    }
  }

  lemma CopyStable(a: State, s: seq<bool>, u: seq<bool>, m: nat, m': nat)
    requires WellFormed(a, s) && a.mode == COPY && (m <= m' || |a.out| < m') && CopyStep(a, s, m).Some?
    ensures CopyStep(a, s + u, m') == CopyStep(a, s, m)
  {
    hide Prefix, Field, Pow2;
    if a.pos + 8 <= |s| { FieldStable(s, u, a.pos, 8); }
  }

  lemma TableStable(a: State, s: seq<bool>, u: seq<bool>)
    requires WellFormed(a, s) && a.mode == TABLE && TableStep(a, s).Some?
    ensures TableStep(a, s + u) == TableStep(a, s)
  {
    hide Prefix, Field, Pow2;
    FieldStable(s, u, a.pos, 5);
    FieldStable(s, u, a.pos + 5, 5);
    FieldStable(s, u, a.pos + 10, 4);
  }

  lemma LenLensStable(a: State, s: seq<bool>, u: seq<bool>)
    requires WellFormed(a, s) && a.mode == LENLENS && LenLensStep(a, s).Some?
    ensures LenLensStep(a, s + u) == LenLensStep(a, s)
  {
    hide Prefix, Field, Pow2, Acceptable, Unorder;
    if |a.lens| < a.ncode { FieldStable(s, u, a.pos, 3); }
  }

  lemma CodeLensStable(a: State, s: seq<bool>, u: seq<bool>)
    requires WellFormed(a, s) && a.mode == CODELENS && |a.lens| < a.nlen + a.ndist && CodeLensStep(a, s).Some?
    ensures CodeLensStep(a, s + u) == CodeLensStep(a, s)
  {
    hide Field, Pow2, Decode, Append;
    DecodeStable(CODES, a.codes, s, u, a.pos);
    var e := Decode(CODES, a.codes, s, a.pos).value;
    if e.bits + ExtraBlBits(e.val) <= |s| - a.pos { FieldStable(s, u, a.pos + e.bits, ExtraBlBits(e.val)); }
  }

  /** A step that can be made is made the same way with more input and with any room left. */
  lemma StepStable(a: State, s: seq<bool>, u: seq<bool>, m: nat, m': nat)
    requires WellFormed(a, s) && (m <= m' || |a.out| < m') && Step(a, s, m).Some?
    ensures Step(a, s + u, m') == Step(a, s, m)
  {
    hide Prefix, Field, Decode, TypeStep, StoredStep, CopyStep, TableStep, LenLensStep, CodeLensStep, BuildStep;
    match a.mode
    case TYPE => TypeStable(a, s, u);
    case STORED => StoredStable(a, s, u);
    case COPY => CopyStable(a, s, u, m, m');
    case TABLE => TableStable(a, s, u);
    case LENLENS => LenLensStable(a, s, u);
    case CODELENS => if |a.lens| < a.nlen + a.ndist { CodeLensStable(a, s, u); } else { BuildStable(a, s, u); }
    case LEN => DecodeStable(LENS, a.ls, s, u, a.pos);
    case LENEXT => FieldStable(s, u, a.pos, a.extra);
    case DIST => DecodeStable(DISTS, a.ds, s, u, a.pos);
    case DISTEXT => FieldStable(s, u, a.pos, a.extra);
    case _ =>
  }

  lemma BuildStable(a: State, s: seq<bool>, u: seq<bool>)
    requires WellFormed(a, s) && a.mode == CODELENS && |a.lens| == a.nlen + a.ndist
    ensures BuildStep(a, s + u) == BuildStep(a, s)
  {
    hide Prefix, Buildable;
  }

  /** Nothing written is taken back. */
  lemma StepWrites(a: State, s: seq<bool>, m: nat)
    requires WellFormed(a, s) && Step(a, s, m).Some?
    ensures a.out <= Step(a, s, m).value.out
  {
    hide Prefix, Field, Decode, Buildable, Acceptable, Unorder, Append, FixedLitLens, FixedDistLens;
  }

  lemma {:induction false} RunWrites(a: State, s: seq<bool>, m: nat)
    requires WellFormed(a, s)
    ensures a.out <= Run(a, s, m).out
    decreases |s| - a.pos, Rank(a.mode), a.length
  {
    hide Step, Prefix;
    var b := Step(a, s, m);
    if b.Some? {
      StepWrites(a, s, m);
      RunWrites(b.value, s, m);
    }
  }

  /** Running on what is there and then on the rest is running on everything. */
  lemma {:induction false} RunInPieces(a: State, s: seq<bool>, u: seq<bool>, m: nat, m': nat)
    requires WellFormed(a, s) && (m <= m' || |Run(a, s, m).out| < m')
    ensures Run(Run(a, s, m), s + u, m') == Run(a, s + u, m')
    decreases |s| - a.pos, Rank(a.mode), a.length
  {
    hide Step, Prefix;
    var b := Step(a, s, m);
    RunWrites(a, s, m);
    if b.Some? {
      StepStable(a, s, u, m, m');
      RunInPieces(b.value, s, u, m, m');
    }
  }

  // ------------------------------------------------------------ calls

  /** One call: all input offered up to then, the most output there was room for, the state it left. */
  datatype Call = Call(given: seq<byte>, room: nat, after: State)

  ghost function Last(calls: seq<Call>): State {
    if |calls| == 0 then Start() else calls[|calls| - 1].after
  }

  /** Each call goes on from where the one before it stopped. */
  ghost predicate Recorded(calls: seq<Call>) {
    |calls| > 0 ==>
      var before, c := calls[..|calls| - 1], calls[|calls| - 1];
      Recorded(before) && WellFormed(Last(before), BytesToBits(c.given)) && |Last(before).out| <= c.room
      && c.after == Run(Last(before), BytesToBits(c.given), c.room)
  }

  lemma NoCalls()
    ensures Recorded([]) && Last([]) == Start()
  {
  }

  lemma RecordedMore(calls: seq<Call>, given: seq<byte>, room: nat, after: State)
    requires Recorded(calls) && WellFormed(Last(calls), BytesToBits(given)) && |Last(calls).out| <= room
    requires after == Run(Last(calls), BytesToBits(given), room)
    ensures Recorded(calls + [Call(given, room, after)]) && Last(calls + [Call(given, room, after)]) == after
  {
    hide WellFormed, Run, BytesToBits;
    assert (calls + [Call(given, room, after)])[..|calls|] == calls;
  }

  /** No input offered is withheld later. */
  ghost predicate Onwards(calls: seq<Call>) {
    forall k :: 0 < k < |calls| ==> calls[k - 1].given <= calls[k].given
  }

  /** A match from too far back, of which nothing is known before there is room for it. */
  ghost predicate OutOfReach(a: State) {
    a.mode == MATCH && (a.offset > |a.out| || a.offset == 0)
  }

  /** The same state, except that such a match may have been refused already when the
      space of m bytes is used up. */
  ghost predicate Alike(r: State, q: State, m: nat) {
    r == q || (OutOfReach(q) && |q.out| == m && r == q.(mode := BAD))
  }

  /** Less room makes no other difference as long as nothing more is written. */
  lemma {:induction false} LessRoom(a: State, s: seq<bool>, m: nat, m': nat)
    requires WellFormed(a, s) && m' <= m && |Run(a, s, m).out| <= m'
    ensures Alike(Run(a, s, m), Run(a, s, m'), m')
    decreases |s| - a.pos, Rank(a.mode), a.length
  {
    hide Prefix, Step, OutOfReach;
    var b := Step(a, s, m);
    assert s + [] == s;
    RunWrites(a, s, m);
    if b.Some? {
      RunWrites(b.value, s, m);
      if Step(a, s, m').Some? {
        StepStable(a, s, [], m', m);
        LessRoom(b.value, s, m, m');
      } else {
        NoRoom(a, s, m, m');
        if OutOfReach(a) { BadStays(b.value, s, m); }
      }
    } else if Step(a, s, m').Some? {
      StepStable(a, s, [], m', m);
    }
  }

  /** A step that waits for room only: it would write, or finds a match too far back. */
  lemma NoRoom(a: State, s: seq<bool>, m: nat, m': nat)
    requires WellFormed(a, s) && m' <= m && |a.out| <= m' && Step(a, s, m).Some? && Step(a, s, m').None?
    ensures |a.out| == m' && a.mode in {COPY, LIT, MATCH}
    ensures if OutOfReach(a) then Step(a, s, m).value == a.(mode := BAD) else |Step(a, s, m).value.out| > m'
  {
    hide Prefix, Field, Decode, TypeStep, StoredStep, TableStep, LenLensStep, CodeLensStep, BuildStep, LenStep;
    hide DistStep;
  }

  lemma BadStays(a: State, s: seq<bool>, m: nat)
    requires WellFormed(a, s) && a.mode == BAD
    ensures Run(a, s, m) == a
  {
    hide WellFormed;
  }

  /** A match too far back waits while there is no room, and is refused once there is. */
  lemma OutOfReachRuns(a: State, s: seq<bool>, m: nat)
    requires WellFormed(a, s) && OutOfReach(a)
    ensures WellFormed(a.(mode := BAD), s) && Run(a, s, m) == if |a.out| >= m then a else a.(mode := BAD)
  {
    hide Prefix;
    if |a.out| < m { BadStays(a.(mode := BAD), s, m); }
  }

  lemma WellFormedMore(a: State, s: seq<bool>, u: seq<bool>)
    requires WellFormed(a, s)
    ensures WellFormed(a, s + u)
  {
    hide Prefix;
  }

  /** One more call: from a state like that of a single call to one like it. */
  lemma AlikeMore(r: State, s: seq<bool>, u: seq<bool>, m: nat, m': nat)
    requires WellFormed(Start(), s) && WellFormed(Start(), s + u) && WellFormed(r, s) && WellFormed(r, s + u)
    requires Alike(r, Run(Start(), s, m), m) && |r.out| <= m'
    ensures Alike(Run(r, s + u, m'), Run(Start(), s + u, m'), m')
  {
    hide WellFormed, Run, Step, Start;
    var q := Run(Start(), s, m);
    if m <= m' || |q.out| < m' {
      RunInPieces(Start(), s, u, m, m');
      WellFormedMore(q, s, u);
      if r != q {
        OutOfReachRuns(q, s + u, m');
        BadStays(r, s + u, m');
      }
    } else {
      LessRoom(Start(), s, m, m');
      RunInPieces(Start(), s, u, m', m');
      var x := Run(Start(), s, m');
      WellFormedMore(x, s, u);
      if q != x {
        OutOfReachRuns(x, s + u, m');
        BadStays(q, s + u, m');
      }
    }
  }

  /** However input and output space are split into calls, the state is like that of a
      single call with the same input and space, and the same if space is left. */
  lemma {:induction false} CallsAgree(calls: seq<Call>)
    requires Recorded(calls) && Onwards(calls) && |calls| > 0
    ensures var c := calls[|calls| - 1];
      && WellFormed(Start(), BytesToBits(c.given)) && WellFormed(c.after, BytesToBits(c.given))
      && Alike(c.after, Run(Start(), BytesToBits(c.given), c.room), c.room)
      && (|c.after.out| < c.room ==> c.after == Run(Start(), BytesToBits(c.given), c.room))
    decreases |calls|
  {
    hide WellFormed, Run, BytesToBits, OutOfReach;
    var before, c := calls[..|calls| - 1], calls[|calls| - 1];
    StartWellFormed(BytesToBits(c.given));
    if |before| > 0 {
      var b := before[|before| - 1];
      assert Onwards(before) by {
        forall k | 0 < k < |before| ensures before[k - 1].given <= before[k].given {
          assert calls[k - 1].given <= calls[k].given;
        }
      }
      CallsAgree(before);
      assert b == calls[|calls| - 2] && b.given <= c.given;
      var more := c.given[|b.given|..];
      assert b.given + more == c.given;
      BytesToBitsConcat(b.given, more);
      AlikeMore(b.after, BytesToBits(b.given), BytesToBits(more), b.room, c.room);
    }
  }

  /** The same input and space, split in any two ways: the same bytes, and the same state
      but for a match too far back that one of them may have refused already. */
  lemma SplitsAgree(one: seq<Call>, other: seq<Call>)
    requires Recorded(one) && Onwards(one) && |one| > 0 && Recorded(other) && Onwards(other) && |other| > 0
    requires one[|one| - 1].given == other[|other| - 1].given && one[|one| - 1].room == other[|other| - 1].room
    ensures Last(one).out == Last(other).out
    ensures |Last(one).out| < one[|one| - 1].room ==> Last(one) == Last(other)
    ensures Last(one) == Last(other) || (OutOfReach(Last(one)) && Last(other) == Last(one).(mode := BAD))
      || (OutOfReach(Last(other)) && Last(one) == Last(other).(mode := BAD))
  {
    hide Run, WellFormed, OutOfReach, BytesToBits, Alike, Recorded, Onwards;
    var c := one[|one| - 1];
    CallsAgree(one);
    CallsAgree(other);
    AlikeBoth(Last(one), Last(other), Run(Start(), BytesToBits(c.given), c.room), c.room);
  }

  lemma AlikeBoth(r1: State, r2: State, q: State, m: nat)
    requires Alike(r1, q, m) && Alike(r2, q, m)
    ensures r1.out == r2.out && (|r1.out| < m ==> r1 == r2)
    ensures r1 == r2 || (OutOfReach(r1) && r2 == r1.(mode := BAD)) || (OutOfReach(r2) && r1 == r2.(mode := BAD))
  {
  }
}
