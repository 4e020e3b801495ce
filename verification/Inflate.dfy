/** inflate.c: the state machine on a bit accumulator, decoding tables and a circular
window, refining the steps of InflateSpec. */
module Inflate {
  import opened Bits
  import opened Canonical
  import opened BitStream
  import opened Format
  import opened FixedCodes
  import opened TableSpace
  import opened InfTrees
  import opened InflateSpec
  import opened InflateChunks
  import opened InflateBits
  import opened InflateState
  import opened InflateSteps
  import opened InflateSymbols
  import opened InflateWindow
  import opened InflateFastSteps
  import opened InflateFixed

  const ENOUGH := 1444

  /** A decoding table: where it starts and how many bits index its first level. */
  datatype Table = Table(code: array<Code>, start: nat, bits: nat)

  /** The local variables hold, bits and in of inflate_fast. */
  datatype Local = Local(hold: nat, bits: nat, at: nat)

  /** Nothing more will be written, and no window was ever needed. */
  predicate Over(mode: Mode, wsize: nat, whave: nat, put: nat) {
    mode in {DONE, BAD} && wsize == 0 && whave == 0 && put == 0
  }

  datatype Verdict = OK | STREAM_END | DATA_ERROR | BUF_ERROR

  /** What is read and written, and what was before this call. */
  ghost predicate Buffers(t: seq<bool>, m: nat, fed: seq<byte>, input: seq<byte>, next: nat, hist: seq<byte>,
                          buf: seq<byte>, put: nat, out: seq<byte>) {
    && next <= |input| && put <= |buf| && m == |hist| + |buf|
    && t == BytesToBits(fed + input[next..]) && out == hist + buf[..put]
  }

  lemma BuffersMore(t: seq<bool>, m: nat, fed: seq<byte>, input: seq<byte>, next: nat, hist: seq<byte>,
                    was: seq<byte>, put: nat, out: seq<byte>, now: seq<byte>, data: seq<byte>)
    requires Buffers(t, m, fed, input, next, hist, was, put, out) && |now| == |was| && put + |data| <= |now|
    requires now[..put + |data|] == was[..put] + data
    ensures Buffers(t, m, fed, input, next, hist, now, put + |data|, out + data)
  {
    hide BytesToBits;
  }

  lemma BuffersNext(t: seq<bool>, m: nat, fed: seq<byte>, input: seq<byte>, next: nat, hist: seq<byte>,
                    buf: seq<byte>, put: nat, out: seq<byte>, at: nat)
    requires Buffers(t, m, fed, input, next, hist, buf, put, out) && next <= at <= |input|
    ensures Buffers(t, m, fed + input[next..at], input, at, hist, buf, put, out)
  {
    hide BytesToBits;
    assert fed + input[next..at] + input[at..] == fed + input[next..];
  }

  lemma BuffersBack(t: seq<bool>, m: nat, fed: seq<byte>, input: seq<byte>, next: nat, hist: seq<byte>,
                    buf: seq<byte>, put: nat, out: seq<byte>, k: nat, fed0: seq<byte>, next0: nat)
    requires Buffers(t, m, fed, input, next, hist, buf, put, out) && next0 + k <= next && k <= |fed|
    requires t == BytesToBits(fed0 + input[next0..])
    ensures Buffers(t, m, fed[..|fed| - k], input, next - k, hist, buf, put, out)
  {
    hide BytesToBits;
    BytesOfBits(fed + input[next..], fed0 + input[next0..]);
    assert |fed| == |fed0| + next - next0;
    var n := |fed| - k;
    var all := fed + input[next..];
    assert fed[..n] == all[..n];
    assert input[next - k..] == (fed0 + input[next0..])[n..];
    assert fed[..n] + input[next - k..] == all;
  }

  /** The tables in use, which lie in codes or in fixed. */
  ghost predicate Tables(mode: Mode, bl: seq<nat>, ls: seq<nat>, ds: seq<nat>, codes: array<Code>, fixed: array<Code>,
                         c: seq<Code>, f: seq<Code>, lencode: Table, distcode: Table) {
    && (mode == CODELENS ==> lencode.code == codes && TableFor(CODES, c, lencode.start, lencode.bits, bl))
    && (Symbolic(mode) ==>
      && (lencode.code == codes || lencode.code == fixed) && (distcode.code == codes || distcode.code == fixed)
      && TableFor(LENS, if lencode.code == codes then c else f, lencode.start, lencode.bits, ls)
      && TableFor(DISTS, if distcode.code == codes then c else f, distcode.start, distcode.bits, ds))
  }

  class Inflater {
    var mode: Mode
    var last: bool
    var hold: nat
    var bits: nat
    var length: nat
    var offset: nat
    var extra: nat
    var nlen: nat
    var ndist: nat
    var ncode: nat
    var have: nat
    const lens: array<nat>
    const work: array<nat>
    const codes: array<Code>
    const fixed: array<Code>
    var lencode: Table
    var distcode: Table
    const window: array<byte>
    var wsize: nat
    var whave: nat
    var wnext: nat
    var input: seq<byte>
    var next: nat
    var buf: array<byte>
    var put: nat
    ghost var a: State
    ghost var fed: seq<byte>
    ghost var hist: seq<byte>
    ghost var calls: seq<Call>

    /** inflateReset, and the fixed tables. */
    constructor ()
      ensures Between() && fresh(lens) && fresh(work) && fresh(codes) && fresh(fixed) && fresh(window)
      ensures a == Start() && fed == [] && calls == []
    {
      hide Held, Tight, FixedTable, Circular, Scratch, Recorded, Gathered, Tables, Pow2, BytesToBits, WellFormed;
      hide Decodes, Acceptable;
      hide FixedLitLens, FixedDistLens, TableFor, Step, Run;
      mode, last, hold, bits, length, offset, extra, nlen, ndist, ncode, have := TYPE, false, 0, 0, 0, 0, 0, 0, 0, 0, 0;
      lens := new nat[320](_ => 0);
      work := new nat[288](_ => 0);
      codes := new Code[ENOUGH](_ => Code(0, 0, 0));
      var f := new Code[ENOUGH](_ => Code(0, 0, 0));
      fixed := f;
      lencode, distcode := Table(f, 0, 0), Table(f, 0, 0);
      window := new byte[WSIZE](_ => 0);
      wsize, whave, wnext, input, next, put := 0, 0, 0, [], 0, 0;
      buf := new byte[0](_ => 0);
      a, fed, hist, calls := Start(), [], [], [];
      new;
      NoCalls();
      BuildFixed();
      NothingYet();
      Settled();
    }

    /** fixedtables, which the source builds on first use */
    method BuildFixed()
      requires Shape()
      modifies work, fixed
      ensures FixedTable(fixed[..])
    {
      hide Decodes, Direct, Acceptable, Empty, SpaceNeeded, RootOf, FixedLitLens, FixedDistLens;
      FixedAcceptable();
      FixedLitSpace();
      FixedDistSpace();
      EnoughSpace();
      var ret, used, root := InflateTable(LENS, FixedLitLens(), fixed, 0, 9, work);
      ghost var first := fixed[..512];
      assert fixed[0..0 + used] == first;
      ret, used, root := InflateTable(DISTS, FixedDistLens(), fixed, 512, 5, work);
      assert fixed[..512] == first && fixed[512..512 + used] == fixed[..][512..544] && fixed[..][0..512] == first;
    }

    /** The invariant between calls. */
    ghost predicate Between()
      reads this, lens, codes, fixed, window
    {
      && Shape() && Held(hold, bits, fed, a, BytesToBits(fed)) && Tight(bits, a, fed) && Recorded(calls)
      && a == Last(calls)
      && mode == a.mode && last == a.last && Scratch(a, length, offset, extra)
      && Gathered(a, nlen, ndist, ncode, have, lens[..])
      && Tables(a.mode, a.codes, a.ls, a.ds, codes, fixed, codes[..], fixed[..], lencode, distcode)
      && (History(wsize, whave, wnext, window[..], a.out) || Over(mode, wsize, whave, 0)) && FixedTable(fixed[..])
    }

    ghost predicate Shape() {
      && lens.Length == 320 && work.Length == 288 && codes.Length == ENOUGH && fixed.Length == ENOUGH
      && window.Length == WSIZE
      && lens != work && codes != fixed
    }

    /** a is the state of the specification that the fields stand for, t all bits received
        so far, pulled or not, and m the most output there is room for. */
    ghost predicate Ready(t: seq<bool>, m: nat)
      reads this, buf, lens, codes, fixed, window
    {
      && Shape() && window != buf && Buffers(t, m, fed, input, next, hist, buf[..], put, a.out)
      && Held(hold, bits, fed, a, t)
      && mode == a.mode && last == a.last && Scratch(a, length, offset, extra)
      && Gathered(a, nlen, ndist, ncode, have, lens[..])
      && Tables(a.mode, a.codes, a.ls, a.ds, codes, fixed, codes[..], fixed[..], lencode, distcode)
      && (History(wsize, whave, wnext, window[..], hist) || Over(mode, wsize, whave, put)) && FixedTable(fixed[..])
    }

    ghost predicate Inv(t: seq<bool>, m: nat)
      reads this, buf, lens, codes, fixed, window
    {
      Ready(t, m) && Tight(bits, a, fed)
    }

    /** What a case of the switch does: steps of the specification, or as many as there is
        input and room for if it leaves. */
    twostate predicate Handled(leave: bool, t: seq<bool>, m: nat)
      reads this, buf, lens, codes, fixed, window
    {
      && Inv(t, m)
      && (if leave then Stuck(a, t, m) && (a == old(a) || Moved(old(a), a, t, m)) else Moved(old(a), a, t, m))
      && hist == old(hist) && buf == old(buf) && input == old(input) && calls == old(calls) && next >= old(next)
      && put >= old(put)
    }

    // ------------------------------------------------------------ accumulator

    /** PULLBYTE, with input at hand. */
    method PullByte(ghost t: seq<bool>, ghost m: nat)
      requires Ready(t, m) && next < |input|
      modifies this`hold, this`bits, this`fed, this`next
      ensures Ready(t, m) && bits == old(bits) + 8 && fed == old(fed) + [input[old(next)]] && next == old(next) + 1
      ensures hold == old(hold) + input[old(next)] * Pow2(old(bits))
    {
      hide Held, BytesToBits, Pow2, Tables, History, FixedTable, Scratch, Gathered;
      assert fed + input[next..] == fed + [input[next]] + input[next + 1..];
      PullHeld(hold, bits, fed, a, t, input[next], input[next + 1..]);
      hold := hold + input[next] * Pow2(bits);
      fed := fed + [input[next]];
      next := next + 1;
      bits := bits + 8;
    }

    /** NEEDBITS: false if the input ends before there are n bits. */
    method NeedBits(n: nat, ghost t: seq<bool>, ghost m: nat) returns (ok: bool)
      requires Ready(t, m)
      modifies this`hold, this`bits, this`fed, this`next
      ensures Ready(t, m) && (ok ==> n <= bits) && old(fed) <= fed && next >= old(next)
      ensures !ok ==> bits < n && next == |input| && BytesToBits(fed) == t
      ensures bits == old(bits) || bits < n + 8
    {
      hide Ready;
      while bits < n
        invariant Ready(t, m) && old(fed) <= fed && (bits == old(bits) || bits < n + 8) && next >= old(next)
        decreases n - bits
      {
        Bounds(t, m);
        if next == |input| { return false; }
        PullByte(t, m);
      }
      ok := true;
    }

    lemma Bounds(t: seq<bool>, m: nat)
      requires Ready(t, m)
      ensures next <= |input| && mode == a.mode && a.pos + bits == 8 * |fed| && Held(hold, bits, fed, a, t)
      ensures next == |input| ==> BytesToBits(fed) == t
    {
      hide BytesToBits, WellFormed, Tables, History, FixedTable, Scratch, Gathered;
      HeldBits(hold, bits, fed, a, t);
      if next == |input| { assert fed + input[next..] == fed; }
    }

    lemma Sizes()
      requires Shape()
      ensures lens.Length == 320 && codes != fixed
    {
    }

    lemma Counts(t: seq<bool>, m: nat)
      requires Ready(t, m) && mode in {LENLENS, CODELENS}
      ensures have == |a.lens| && nlen == a.nlen && ndist == a.ndist && ncode == a.ncode
    {
      hide Held, Tables, History, FixedTable, Buffers, Scratch, Shape;
      HaveLens(a, nlen, ndist, ncode, have, lens[..]);
    }

    /** In most modes the scratch fields do not matter. */
    lemma Settled()
      requires a.mode in {TYPE, STORED, TABLE, DONE, BAD} || (a.mode == LENLENS && have == 0 && a.lens == [])
      requires a.mode == LENLENS ==> nlen == a.nlen && ndist == a.ndist && ncode == a.ncode && lens.Length >= 19
      ensures Scratch(a, length, offset, extra) && Gathered(a, nlen, ndist, ncode, have, lens[..])
      ensures Tables(a.mode, a.codes, a.ls, a.ds, codes, fixed, codes[..], fixed[..], lencode, distcode)
    {
    }

    // ------------------------------------------------------------ block headers

    /** case TYPE */
    method DoType(ghost t: seq<bool>, ghost m: nat) returns (leave: bool)
      requires Inv(t, m) && mode == TYPE
      modifies this
      ensures Handled(leave, t, m)
    {
      hide Held, Moved, Tight, Stuck, History, FixedTable, Buffers, Tables, Scratch, Gathered, Pow2, BytesToBits, Shr;
      hide Low, Shape;
      Bounds(t, m);
      TypeTight(bits, a, fed);
      leave := false;
      if last {
        EndStream(t, m);
      } else {
        var ok := NeedBits(3, t, m);
        if ok {
          StartBlock(t, m);
        } else {
          Bounds(t, m);
          TypeWaits(hold, bits, fed, a, t, m);
          leave := true;
        }
      }
    }

    /** After the last block: to the byte boundary. */
    method EndStream(ghost t: seq<bool>, ghost m: nat)
      requires Ready(t, m) && bits < 8 && mode == TYPE && last
      modifies this`hold, this`bits, this`mode, this`a
      ensures Handled(false, t, m)
    {
      hide Held, Moved, Tight, Stuck, History, FixedTable, Buffers, Tables, Scratch, Gathered, Pow2, BytesToBits, Shr;
      hide Low, Shape;
      TypeEnds(hold, bits, fed, a, t, m);
      DropToByte();
      mode := DONE;
      a := a.(mode := DONE);
      Settled();
    }

    /** The three bits of a block header. */
    method StartBlock(ghost t: seq<bool>, ghost m: nat)
      requires Ready(t, m) && 3 <= bits < 11 && mode == TYPE && !last
      modifies this`hold, this`bits, this`mode, this`last, this`a, this`lencode, this`distcode
      ensures Handled(false, t, m)
    {
      hide Held, Moved, Tight, Stuck, History, FixedTable, Buffers, Tables, Scratch, Gathered, Pow2, BytesToBits, Shr;
      hide Low, Shape;
      hide TypeNext, FixedLitLens, FixedDistLens;
      Sizes();
      TypeReads(hold, bits, fed, a, t, m);
      TypeKeeps(a, Low(hold, 1), Low(Shr(hold, 1), 2));
      TakeHeader();
      if mode == LEN { FixedSet(); } else { Settled(); }
    }

    method TakeHeader()
      requires bits >= 3
      modifies this`hold, this`bits, this`mode, this`last, this`a, this`lencode, this`distcode
      ensures hold == Shr(Shr(old(hold), 1), 2) && bits == old(bits) - 3 && mode == a.mode && last == a.last
      ensures a == TypeNext(old(a), Low(old(hold), 1), Low(Shr(old(hold), 1), 2))
      ensures mode == LEN ==> lencode == Table(fixed, 0, 9) && distcode == Table(fixed, 512, 5)
    {
      hide Shr, Low, FixedLitLens, FixedDistLens, Pow2;
      Pow2Values();
      last := Low(hold, 1) == 1;
      hold := Shr(hold, 1);
      bits := bits - 1;
      match Low(hold, 2) {
        case 0 => mode := STORED;
        case 1 =>
          lencode, distcode := Table(fixed, 0, 9), Table(fixed, 512, 5);
          mode := LEN;
        case 2 => mode := TABLE;
        case _ => mode := BAD;
      }
      a := TypeNext(a, Low(old(hold), 1), Low(hold, 2));
      hold := Shr(hold, 2);
      bits := bits - 2;
    }

    /** fixedtables */
    lemma FixedSet()
      requires a.mode == LEN && a.ls == FixedLitLens() && a.ds == FixedDistLens() && FixedTable(fixed[..])
      requires codes != fixed && lencode == Table(fixed, 0, 9) && distcode == Table(fixed, 512, 5)
      ensures Scratch(a, length, offset, extra) && Gathered(a, nlen, ndist, ncode, have, lens[..])
      ensures Tables(a.mode, a.codes, a.ls, a.ds, codes, fixed, codes[..], fixed[..], lencode, distcode)
    {
      hide TableFor, FixedTable;
      FixedReady(fixed[..]);
    }

    // ------------------------------------------------------------ stored blocks

    /** case STORED */
    method DoStored(ghost t: seq<bool>, ghost m: nat) returns (leave: bool)
      requires Inv(t, m) && mode == STORED
      modifies this
      ensures Handled(leave, t, m)
    {
      hide Held, Moved, Tight, Stuck, History, FixedTable, Buffers, Tables, Scratch, Gathered, Pow2, BytesToBits, Shr;
      hide Low, Shape;
      TightBits(bits, a, fed);
      ByteBits(t, m);
      ghost var b := a;
      leave := FourBytes(t, m);
      if b != old(a) && a != b { MovedOn(old(a), b, a, t, m); }
    }

    /** The rest of the header of a stored block, on a byte boundary. */
    method FourBytes(ghost t: seq<bool>, ghost m: nat) returns (leave: bool)
      requires Ready(t, m) && mode == STORED && bits % 8 == 0 && bits <= 24 && a.pos % 8 == 0
      modifies this
      ensures Handled(leave, t, m)
    {
      hide Held, Moved, Tight, Stuck, History, FixedTable, Buffers, Tables, Scratch, Gathered, Pow2, BytesToBits, Shr;
      hide Low, Shape;
      var ok := NeedBits(32, t, m);
      leave := !ok;
      Bounds(t, m);
      if ok {
        StoredLengths(t, m);
      } else {
        StoredWaits(hold, bits, fed, a, t, m);
      }
    }

    /** BYTEBITS */
    method ByteBits(ghost t: seq<bool>, ghost m: nat)
      requires Ready(t, m) && bits < 32 && mode == STORED
      modifies this`hold, this`bits, this`a
      ensures Ready(t, m) && bits % 8 == 0 && a.pos % 8 == 0 && bits <= 24 && (a == old(a) || Moved(old(a), a, t, m))
    {
      hide Held, Moved, Tight, Stuck, History, FixedTable, Buffers, Tables, Scratch, Gathered, Pow2, BytesToBits, Shr;
      hide Low, Shape;
      Aligned(hold, bits, fed, a, t);
      StoredAligns(hold, bits, fed, a, t, m);
      DropToByte();
      Settled();
    }

    method DropToByte()
      modifies this`hold, this`bits, this`a
      ensures hold == Shr(old(hold), old(bits) % 8) && bits == old(bits) - old(bits) % 8 && bits % 8 == 0
      ensures a == old(a).(pos := Align(old(a.pos)))
    {
      hide Shr, Pow2;
      hold := Shr(hold, bits % 8);
      bits := bits - bits % 8;
      a := a.(pos := Align(a.pos));
    }

    /** The length of a stored block and its complement. */
    method StoredLengths(ghost t: seq<bool>, ghost m: nat)
      requires Ready(t, m) && bits == 32 && mode == STORED && a.pos % 8 == 0
      modifies this`hold, this`bits, this`mode, this`length, this`a
      ensures Handled(false, t, m)
    {
      hide Held, Moved, Tight, Stuck, History, FixedTable, Buffers, Tables, Scratch, Gathered, Pow2, BytesToBits, Shr;
      hide Low, Shape;
      StoredReads(hold, fed, a, t, m);
      TakeLengths();
      StoredSet();
    }

    method TakeLengths()
      modifies this`hold, this`bits, this`mode, this`length, this`a
      ensures a == StoredNext(old(a), Low(old(hold), 16), Shr(old(hold), 16)) && mode == a.mode
      ensures if mode == BAD then hold == old(hold) && bits == old(bits)
        else hold == 0 && bits == 0 && length == a.length
    {
      hide Shr, Low, Pow2;
      a := StoredNext(a, Low(hold, 16), Shr(hold, 16));
      if Low(hold, 16) != 0xffff - Shr(hold, 16) {
        mode := BAD;
      } else {
        length := Low(hold, 16);
        hold, bits := 0, 0;
        mode := COPY;
      }
    }

    lemma StoredSet()
      requires a.mode in {BAD, COPY} && (a.mode == COPY ==> length == a.length)
      ensures Scratch(a, length, offset, extra) && Gathered(a, nlen, ndist, ncode, have, lens[..])
      ensures Tables(a.mode, a.codes, a.ls, a.ds, codes, fixed, codes[..], fixed[..], lencode, distcode)
    {
    }

    /** case COPY: as many bytes as there are and as fit. */
    method DoCopy(ghost t: seq<bool>, ghost m: nat) returns (leave: bool)
      requires Inv(t, m) && mode == COPY
      modifies this, buf
      ensures Handled(leave, t, m)
    {
      hide Held, Moved, Tight, Stuck, History, FixedTable, Tables, Gathered, Pow2, BytesToBits, Shr, Low, Shape;
      Bounds(t, m);
      TightBits(bits, a, fed);
      leave := false;
      var copy := length;
      if copy != 0 {
        if copy > |input| - next { copy := |input| - next; }
        if copy > buf.Length - put { copy := buf.Length - put; }
        if copy == 0 {
          CopyWaits(hold, fed, a, t, m);
          return true;
        }
        CopyOver(copy, t, m);
      } else {
        CopyEnds(hold, fed, a, t, m);
        mode := TYPE;
        a := a.(mode := TYPE);
        Settled();
      }
    }

    method CopyOver(copy: nat, ghost t: seq<bool>, ghost m: nat)
      requires Ready(t, m) && mode == COPY && bits == 0
      requires 0 < copy <= length && copy <= |input| - next && copy <= buf.Length - put
      modifies this`next, this`fed, this`put, this`length, this`a, buf
      ensures Handled(false, t, m)
    {
      hide Held, Moved, Tight, Stuck, History, FixedTable, Tables, Gathered, Pow2, BytesToBits, Shr, Low, Shape;
      ghost var data := input[next..next + copy];
      assert fed + input[next..] == fed + data + input[next + copy..];
      CopyReads(hold, fed, a, t, m, data, input[next + copy..]);
      CopyBytes(copy);
      StoredSet();
      assert (hist + old(buf[..put])) + data == hist + (old(buf[..put]) + data);
    }

    method CopyBytes(copy: nat)
      requires copy <= length <= a.length && next + copy <= |input| && put + copy <= buf.Length && window != buf
      modifies this`next, this`fed, this`put, this`length, this`a, buf
      ensures put == old(put) + copy && next == old(next) + copy && length == old(length) - copy
      ensures a == Copied(old(a), input[old(next)..next]) && fed == old(fed) + input[old(next)..next]
      ensures buf[..put] == old(buf[..put]) + input[old(next)..next]
    {
      forall i | 0 <= i < copy { buf[put + i] := input[next + i]; }
      put := put + copy;
      next := next + copy;
      length := length - copy;
      a := Copied(a, input[old(next)..next]);
      fed := fed + input[old(next)..next];
    }

    // ------------------------------------------------------------ dynamic blocks

    /** case TABLE */
    method DoTable(ghost t: seq<bool>, ghost m: nat) returns (leave: bool)
      requires Inv(t, m) && mode == TABLE
      modifies this
      ensures Handled(leave, t, m)
    {
      hide Ready, Held, Moved, Tight, Stuck, History, FixedTable, Buffers, Tables, Scratch, Gathered, Pow2, BytesToBits;
      hide Shr, Low, Shape;
      Bounds(t, m);
      TableTight(bits, a, fed);
      var ok := NeedBits(14, t, m);
      leave := !ok;
      if ok {
        Numbers(t, m);
      } else {
        Bounds(t, m);
        TableWaits(hold, bits, fed, a, t, m);
      }
    }

    /** The three counts of a dynamic block. */
    method Numbers(ghost t: seq<bool>, ghost m: nat)
      requires Ready(t, m) && 14 <= bits < 22 && mode == TABLE
      modifies this`hold, this`bits, this`mode, this`nlen, this`ndist, this`ncode, this`have, this`a
      ensures Handled(false, t, m)
    {
      hide Held, Moved, Tight, Stuck, History, FixedTable, Buffers, Tables, Scratch, Gathered, Pow2, BytesToBits, Shr;
      hide Low, Shape;
      Sizes();
      TableReads(hold, bits, fed, a, t, m);
      TakeNumbers();
      Settled();
    }

    method TakeNumbers()
      requires bits >= 14
      modifies this`hold, this`bits, this`mode, this`nlen, this`ndist, this`ncode, this`have, this`a
      ensures nlen == Low(old(hold), 5) + 257 && ndist == Low(Shr(old(hold), 5), 5) + 1
      ensures ncode == Low(Shr(Shr(old(hold), 5), 5), 4) + 4
      ensures hold == Shr(Shr(Shr(old(hold), 5), 5), 4) && bits == old(bits) - 14 && mode == a.mode
      ensures (mode == LENLENS ==> have == 0)
      ensures a == TableNext(old(a), nlen - 257, ndist - 1, ncode - 4)
    {
      hide Shr, Low, Pow2;
      nlen := Low(hold, 5) + 257;
      hold := Shr(hold, 5);
      ndist := Low(hold, 5) + 1;
      hold := Shr(hold, 5);
      ncode := Low(hold, 4) + 4;
      hold := Shr(hold, 4);
      bits := bits - 14;
      a := TableNext(a, nlen - 257, ndist - 1, ncode - 4);
      if nlen > 286 || ndist > 30 {
        mode := BAD;
      } else {
        have := 0;
        mode := LENLENS;
      }
    }

    /** case LENLENS */
    method DoLenLens(ghost t: seq<bool>, ghost m: nat) returns (leave: bool)
      requires Inv(t, m) && mode == LENLENS
      modifies this, lens, work, codes
      ensures Handled(leave, t, m)
    {
      hide Ready, Held, Moved, Tight, Stuck, History, FixedTable, Buffers, Tables, Scratch, Gathered, Pow2, BytesToBits;
      hide Shr, Low, Shape;
      Counts(t, m);
      while have < ncode
        invariant Inv(t, m) && mode == LENLENS && have == |a.lens| && ncode == a.ncode
        invariant a == old(a) || Moved(old(a), a, t, m)
        invariant hist == old(hist) && buf == old(buf) && input == old(input) && calls == old(calls)
        invariant next >= old(next) && put == old(put)
        decreases ncode - have
      {
        ghost var b := a;
        Bounds(t, m);
        LenLensTight(bits, a, fed);
        var ok := NeedBits(3, t, m);
        Bounds(t, m);
        if !ok {
          LenLensWaits(hold, bits, fed, a, t, m);
          return true;
        }
        ReadLenLen(t, m);
        if b != old(a) { MovedOn(old(a), b, a, t, m); }
      }
      ghost var b := a;
      Bounds(t, m);
      LenLensTight(bits, a, fed);
      HeldBits(hold, bits, fed, a, t);
      LenLensRoom(a, t);
      BuildCodes(t, m);
      if b != old(a) { MovedOn(old(a), b, a, t, m); }
      leave := false;
    }

    /** One length of the bit length code. */
    method ReadLenLen(ghost t: seq<bool>, ghost m: nat)
      requires Ready(t, m) && mode == LENLENS && have < ncode && 3 <= bits < 11
      modifies this`hold, this`bits, this`have, this`a, lens
      ensures Handled(false, t, m) && mode == LENLENS && have == |a.lens| && ncode == a.ncode && have == old(have) + 1
    {
      hide Held, Moved, Tight, Stuck, History, FixedTable, Buffers, Tables, Gathered, Pow2, BytesToBits, Shr, Low;
      hide Shape;
      Sizes();
      LenLensOne(hold, bits, fed, a, t, m, nlen, ndist, ncode, have, lens[..]);
      PutLenLen();
    }

    method PutLenLen()
      requires have < 19 && bits >= 3 && lens.Length == 320 && BL_ORDER[have] < 19
      modifies this`hold, this`bits, this`have, this`a, lens
      ensures hold == Shr(old(hold), 3) && bits == old(bits) - 3 && have == old(have) + 1
      ensures lens[..] == old(lens[..])[BL_ORDER[old(have)] := Low(old(hold), 3)]
      ensures a == old(a).(pos := old(a.pos) + 3, lens := old(a.lens) + [Low(old(hold), 3)])
    {
      hide Shr, Low, Pow2;
      a := a.(pos := a.pos + 3, lens := a.lens + [Low(hold, 3)]);
      lens[BL_ORDER[have]] := Low(hold, 3);
      have := have + 1;
      hold := Shr(hold, 3);
      bits := bits - 3;
    }

    /** Lengths not sent are zero. */
    method FillLens()
      requires lens.Length == 320 && have == |a.lens| && InOrder(a, have, lens[..])
      modifies this`have, lens
      ensures have == 19 && lens[..19] == Unorder(a.lens)
    {
      while have < 19
        invariant |a.lens| <= have <= 19
        invariant forall i {:trigger BL_ORDER[i]} :: 0 <= i < have ==>
          lens[BL_ORDER[i]] == if i < |a.lens| then a.lens[i] else 0
      {
        OrderDistinct(have);
        lens[BL_ORDER[have]] := 0;
        have := have + 1;
      }
      UnorderIs(lens[..19], a.lens);
    }

    /** The table of the bit length code. */
    method BuildCodes(ghost t: seq<bool>, ghost m: nat)
      requires Ready(t, m) && mode == LENLENS && |a.lens| == a.ncode <= 19 && bits < 8
      modifies this`mode, this`lencode, this`have, this`a, lens, work, codes
      ensures Handled(false, t, m)
    {
      hide Held, Moved, Tight, Stuck, History, FixedTable, Buffers, Tables, Scratch, Pow2, BytesToBits, Shr, Low;
      hide Acceptable, Unorder, TableFor;
      LenLensBuilds(hold, bits, fed, a, t, m);
      FillLens();
      MakeCodes();
      CodesSet();
    }

    method MakeCodes()
      requires Shape() && |a.lens| <= 19 && lens[..19] == Unorder(a.lens) && AtMost(Unorder(a.lens), 7)
      modifies this`mode, this`lencode, this`have, this`a, work, codes
      ensures a == LenLensNext(old(a)) && mode == a.mode && mode in {CODELENS, BAD} && (mode == CODELENS ==> have == 0)
      ensures mode == CODELENS ==>
        lencode.code == codes && TableFor(CODES, codes[..], lencode.start, lencode.bits, a.codes)
    {
      hide Decodes, Direct, Acceptable, Unorder, Pow2;
      var ret, used, root := InflateTable(CODES, lens[..19], codes, 0, 7, work);
      lencode := Table(codes, 0, root);
      a := LenLensNext(a);
      if ret != 0 {
        mode := BAD;
      } else {
        TableMade(CODES, codes[..], 0, used, root, a.codes);
        have := 0;
        mode := CODELENS;
      }
    }

    lemma CodesSet()
      requires a.mode == BAD
        || (a.mode == CODELENS && have == 0 && a.lens == [] && nlen == a.nlen && ndist == a.ndist && ncode == a.ncode)
      requires a.mode == CODELENS ==>
        lencode.code == codes && TableFor(CODES, codes[..], lencode.start, lencode.bits, a.codes)
      ensures Scratch(a, length, offset, extra) && Gathered(a, nlen, ndist, ncode, have, lens[..])
      ensures Tables(a.mode, a.codes, a.ls, a.ds, codes, fixed, codes[..], fixed[..], lencode, distcode)
    {
      hide TableFor;
    }

    /** case CODELENS */
    method DoCodeLens(ghost t: seq<bool>, ghost m: nat) returns (leave: bool)
      requires Inv(t, m) && mode == CODELENS
      modifies this, lens, work, codes
      ensures Handled(leave, t, m)
    {
      hide Ready, Held, Moved, Tight, Stuck, History, FixedTable, Buffers, Tables, Scratch, Gathered, Pow2, BytesToBits;
      hide Shr, Low, Shape;
      Counts(t, m);
      while have < nlen + ndist
        invariant Inv(t, m) && mode == CODELENS && have == |a.lens| && nlen == a.nlen && ndist == a.ndist
        invariant a == old(a) || Moved(old(a), a, t, m)
        invariant hist == old(hist) && buf == old(buf) && input == old(input) && calls == old(calls)
        invariant next >= old(next) && put == old(put)
        decreases nlen + ndist - have
      {
        ghost var b := a;
        var ok, here := NextCode(t, m);
        if !ok {
          Bounds(t, m);
          CodeLensWaits(hold, bits, fed, a, t, m);
          return true;
        }
        leave := Lengths(here, t, m);
        if b != old(a) && a != b { MovedOn(old(a), b, a, t, m); }
        if leave || mode == BAD { return; }
        Counts(t, m);
      }
      ghost var b := a;
      Bounds(t, m);
      HeldBits(hold, bits, fed, a, t);
      CodesPrefix(a, t);
      BuildTight(bits, a, fed);
      BuildTables(t, m);
      if b != old(a) { MovedOn(old(a), b, a, t, m); }
      leave := false;
    }

    /** The next code of the bit length code, once all its bits are there. */
    method NextCode(ghost t: seq<bool>, ghost m: nat) returns (ok: bool, here: Code)
      requires Inv(t, m) && mode == CODELENS && have == |a.lens| < a.nlen + a.ndist
      modifies this`hold, this`bits, this`fed, this`next
      ensures Ready(t, m) && next >= old(next) && |a.codes| <= MaxSymbols(CODES) && a.pos <= |t|
      ensures ok ==>
        here.bits <= bits < here.bits + 8 && here.bits <= MAXBITS && Decode(CODES, a.codes, t, a.pos) == Some(here)
      ensures !ok ==>
        bits < MAXBITS && next == |input| && BytesToBits(fed) == t && Decode(CODES, a.codes, t, a.pos).None?
    {
      hide Ready, Prefix, Decode, Symbolic, Held, Moved, Tight, Stuck, History, FixedTable, Buffers, Tables, Scratch;
      hide Gathered, Pow2, BytesToBits, Shr, Low, Shape;
      Bounds(t, m);
      CodeEntry(t, m);
      CodeLensSnug(bits, a, fed);
      ok := true;
      here := lencode.code[lencode.start + Low(hold, lencode.bits)];
      while here.bits > bits
        invariant Ready(t, m) && next >= old(next)
        invariant lencode.code == codes && lencode.start + Low(hold, lencode.bits) < codes.Length
        invariant here == codes[lencode.start + Low(hold, lencode.bits)]
        invariant a.pos <= 8 * |fed| && Snug(CODES, a.codes, bits, fed, a.pos)
        decreases |input| - next
      {
        Bounds(t, m);
        CodeEntry(t, m);
        if next == |input| { return false, here; }
        SnugPull(CODES, a.codes, bits, fed, a.pos, input[next]);
        PullByte(t, m);
        CodeEntry(t, m);
        here := lencode.code[lencode.start + Low(hold, lencode.bits)];
      }
      CodeEntry(t, m);
    }

    lemma CodeEntry(t: seq<bool>, m: nat)
      requires Ready(t, m) && mode == CODELENS
      ensures lencode.code == codes && lencode.start + Low(hold, lencode.bits) < codes.Length
      ensures Prefix(CODES, a.codes) && Acceptable(CODES, a.codes) && |a.codes| <= MaxSymbols(CODES) && a.pos <= |t|
      ensures a.pos + bits == 8 * |fed|
      ensures var here := codes[lencode.start + Low(hold, lencode.bits)];
        1 <= here.bits <= MAXBITS
        && (here.bits <= bits ==>
              Decode(CODES, a.codes, t, a.pos) == Decode(CODES, a.codes, BytesToBits(fed), a.pos) == Some(here))
        && (here.bits > bits ==> Decode(CODES, a.codes, BytesToBits(fed), a.pos) == None)
    {
      hide Held, Prefix, Acceptable, Decodes, Decode, Direct, History, FixedTable, Buffers, Scratch, Gathered, Pow2;
      hide BytesToBits, Shr, Low, Lookup;
      HeldBits(hold, bits, fed, a, t);
      CodesPrefix(a, t);
      EntryDecides(CODES, codes[..], lencode.start, lencode.bits, a.codes, hold, bits, fed, a, t);
    }

    /** The length or lengths that a code of the bit length code stands for. */
    method Lengths(here: Code, ghost t: seq<bool>, ghost m: nat) returns (leave: bool)
      requires Ready(t, m) && mode == CODELENS && |a.lens| < a.nlen + a.ndist && |a.codes| <= MaxSymbols(CODES)
      requires a.pos <= |t|
      requires here.bits <= bits < here.bits + 8 && here.bits <= MAXBITS
      requires Decode(CODES, a.codes, t, a.pos) == Some(here)
      modifies this`hold, this`bits, this`fed, this`next, this`mode, this`have, this`a, lens
      ensures Handled(leave, t, m) && mode in {CODELENS, BAD} && (leave ==> mode == CODELENS)
      ensures !leave && mode == CODELENS ==> have > old(have)
    {
      hide Ready, Held, Moved, Tight, Stuck, History, FixedTable, Buffers, Tables, Scratch, Gathered, Pow2, BytesToBits;
      hide Shr, Low, Shape;
      hide Decode, Append;
      leave := false;
      if here.val < 16 {
        Single(here, t, m);
      } else {
        var ok := NeedBits(here.bits + ExtraBlBits(here.val), t, m);
        if ok {
          Repeated(here, t, m);
        } else {
          Bounds(t, m);
          CodeLensWaits(hold, bits, fed, a, t, m);
          leave := true;
        }
      }
    }

    method Single(here: Code, ghost t: seq<bool>, ghost m: nat)
      requires Ready(t, m) && mode == CODELENS && |a.lens| < a.nlen + a.ndist && |a.codes| <= MaxSymbols(CODES)
      requires a.pos <= |t|
      requires here.bits <= bits < here.bits + 8 && here.bits <= MAXBITS
      requires Decode(CODES, a.codes, t, a.pos) == Some(here) && here.val < 16
      modifies this`hold, this`bits, this`have, this`a, lens
      ensures Handled(false, t, m) && mode == CODELENS && have > old(have)
    {
      hide Held, Moved, Tight, Stuck, History, FixedTable, Buffers, Tables, Scratch, Gathered, Pow2, BytesToBits, Shr;
      hide Low, Shape;
      hide Decode;
      Sizes();
      SingleReads(hold, bits, fed, a, t, m, here, nlen, ndist, ncode, have, lens[..]);
      TakeLength(here);
      LengthsSet();
    }

    method TakeLength(here: Code)
      requires here.bits <= bits && have == |a.lens| < lens.Length && lens[..have] == a.lens
      modifies this`hold, this`bits, this`have, this`a, lens
      ensures hold == Shr(old(hold), here.bits) && bits == old(bits) - here.bits && have == old(have) + 1
      ensures a == old(a).(pos := old(a.pos) + here.bits, lens := old(a.lens) + [here.val]) && lens[..have] == a.lens
    {
      hide Shr;
      a := a.(pos := a.pos + here.bits, lens := a.lens + [here.val]);
      hold := Shr(hold, here.bits);
      bits := bits - here.bits;
      lens[have] := here.val;
      have := have + 1;
    }

    method Repeated(here: Code, ghost t: seq<bool>, ghost m: nat)
      requires Ready(t, m) && mode == CODELENS && |a.lens| < a.nlen + a.ndist && |a.codes| <= MaxSymbols(CODES)
      requires a.pos <= |t|
      requires here.bits + ExtraBlBits(here.val) <= bits < here.bits + ExtraBlBits(here.val) + 8 && here.bits <= MAXBITS
      requires Decode(CODES, a.codes, t, a.pos) == Some(here) && 16 <= here.val < BL_CODES
      modifies this`hold, this`bits, this`mode, this`have, this`a, lens
      ensures Handled(false, t, m) && mode in {CODELENS, BAD} && (mode == CODELENS ==> have > old(have))
    {
      hide Held, Moved, Tight, Stuck, History, FixedTable, Buffers, Tables, Scratch, Gathered, Pow2, BytesToBits, Shr;
      hide Low, Shape;
      hide Decode, CodeLensNext;
      Sizes();
      RepeatReads(hold, bits, fed, a, t, m, here, nlen, ndist, ncode, have, lens[..]);
      TakeRepeat(here);
      AfterRepeat();
    }

    lemma AfterRepeat()
      requires a.mode == BAD || (a.mode == CODELENS && nlen == a.nlen && ndist == a.ndist && ncode == a.ncode)
      requires a.mode == BAD || (have == |a.lens| <= lens.Length && lens[..have] == a.lens)
      ensures Scratch(a, length, offset, extra) && Gathered(a, nlen, ndist, ncode, have, lens[..])
      ensures a.mode == BAD ==>
        Tables(a.mode, a.codes, a.ls, a.ds, codes, fixed, codes[..], fixed[..], lencode, distcode)
    {
      hide Scratch, Gathered, Tables;
      if a.mode == BAD { Settled(); } else { LengthsSet(); }
    }

    method TakeRepeat(here: Code)
      requires here.bits + ExtraBlBits(here.val) <= bits && 16 <= here.val < BL_CODES && mode == a.mode == CODELENS
      requires have == |a.lens| <= nlen + ndist <= lens.Length && nlen == a.nlen && ndist == a.ndist
      requires lens[..have] == a.lens
      modifies this`hold, this`bits, this`mode, this`have, this`a, lens
      ensures a == CodeLensNext(old(a), here, Low(Shr(old(hold), here.bits), ExtraBlBits(here.val))) && mode == a.mode
      ensures here.val == REP_3_6 && old(have) == 0 ==>
        hold == Shr(old(hold), here.bits) && bits == old(bits) - here.bits && mode == BAD
      ensures !(here.val == REP_3_6 && old(have) == 0) ==>
        hold == Shr(Shr(old(hold), here.bits), ExtraBlBits(here.val))
        && bits == old(bits) - here.bits - ExtraBlBits(here.val)
      ensures mode == BAD || (old(have) < have == |a.lens| <= lens.Length && lens[..have] == a.lens)
    {
      hide Shr, Low, Pow2;
      a := CodeLensNext(a, here, Low(Shr(hold, here.bits), ExtraBlBits(here.val)));
      hold := Shr(hold, here.bits);
      bits := bits - here.bits;
      var len, copy := 0, 0;
      if here.val == 16 {
        if have == 0 {
          mode := BAD;
          return;
        }
        len := lens[have - 1];
        copy := 3 + Low(hold, 2);
        hold := Shr(hold, 2);
        bits := bits - 2;
      } else if here.val == 17 {
        copy := 3 + Low(hold, 3);
        hold := Shr(hold, 3);
        bits := bits - 3;
      } else {
        copy := 11 + Low(hold, 7);
        hold := Shr(hold, 7);
        bits := bits - 7;
      }
      if have + copy > nlen + ndist {
        mode := BAD;
        return;
      }
      FillRepeat(len, copy);
    }

    method FillRepeat(len: nat, copy: nat)
      requires have + copy <= lens.Length
      modifies this`have, lens
      ensures have == old(have) + copy && lens[..have] == old(lens[..have]) + Repeat(len, copy)
    {
      var n := copy;
      while n > 0
        invariant 0 <= n <= copy && have == old(have) + copy - n
        invariant lens[..have] == old(lens[..have]) + Repeat(len, copy - n)
      {
        n := n - 1;
        lens[have] := len;
        have := have + 1;
      }
    }

    lemma LengthsSet()
      requires a.mode == CODELENS && nlen == a.nlen && ndist == a.ndist && ncode == a.ncode
      requires have == |a.lens| <= lens.Length && lens[..have] == a.lens
      ensures Scratch(a, length, offset, extra) && Gathered(a, nlen, ndist, ncode, have, lens[..])
    {
      assert lens[..][..have] == lens[..have];
    }

    /** The tables of both codes. */
    method BuildTables(ghost t: seq<bool>, ghost m: nat)
      requires Ready(t, m) && mode == CODELENS && |a.lens| == a.nlen + a.ndist && bits < 8
      modifies this`mode, this`lencode, this`distcode, this`a, work, codes
      ensures Handled(false, t, m)
    {
      hide Held, Moved, Tight, Stuck, History, FixedTable, Buffers, Tables, Scratch, Gathered, Pow2, BytesToBits, Shr;
      hide Low, Shape;
      hide BuildNext;
      Sizes();
      HeldBits(hold, bits, fed, a, t);
      CodesPrefix(a, t);
      HaveLens(a, nlen, ndist, ncode, have, lens[..]);
      LensSoFar(a, nlen, ndist, ncode, have, lens[..]);
      BuildReads(hold, bits, fed, a, t, m);
      BuildKeeps(a);
      MakeTables();
      if mode == BAD { Settled(); } else { TablesSet(); }
    }

    method MakeTables()
      requires Shape() && 257 <= nlen <= 286 && 1 <= ndist <= 30 && nlen == a.nlen && ndist == a.ndist
      requires have == |a.lens| == nlen + ndist && lens[..have] == a.lens && AtMost(a.lens, MAXBITS)
      modifies this`mode, this`lencode, this`distcode, this`a, work, codes
      ensures a == BuildNext(old(a)) && mode == a.mode
      ensures mode != BAD ==>
        lencode.code == distcode.code == codes && TableFor(LENS, codes[..], lencode.start, lencode.bits, a.ls)
      ensures mode != BAD ==> TableFor(DISTS, codes[..], distcode.start, distcode.bits, a.ds)
    {
      hide Decodes, Direct, Acceptable, Pow2, SpaceNeeded, Empty, TooBig, Enough;
      ghost var ls, ds := a.lens[..nlen], a.lens[nlen..];
      a := BuildNext(a);
      if lens[256] == 0 {
        mode := BAD;
        return;
      }
      EnoughSpace();
      assert lens[..nlen] == ls && lens[nlen..nlen + ndist] == ds;
      var ret, used, root := InflateTable(LENS, lens[..nlen], codes, 0, 9, work);
      lencode := Table(codes, 0, root);
      if ret != 0 {
        mode := BAD;
        return;
      }
      ghost var first := codes[..used];
      var ret2, used2, root2 := InflateTable(DISTS, lens[nlen..nlen + ndist], codes, used, 6, work);
      distcode := Table(codes, used, root2);
      if ret2 != 0 {
        mode := BAD;
        return;
      }
      assert codes[..][0..0 + used] == first;
      TableMade(LENS, codes[..], 0, used, root, ls);
      TableMade(DISTS, codes[..], used, used2, root2, ds);
      mode := LEN;
    }

    lemma TablesSet()
      requires a.mode == LEN && lencode.code == distcode.code == codes && codes != fixed
      requires TableFor(LENS, codes[..], lencode.start, lencode.bits, a.ls)
      requires TableFor(DISTS, codes[..], distcode.start, distcode.bits, a.ds)
      ensures Scratch(a, length, offset, extra) && Gathered(a, nlen, ndist, ncode, have, lens[..])
      ensures Tables(a.mode, a.codes, a.ls, a.ds, codes, fixed, codes[..], fixed[..], lencode, distcode)
    {
      hide TableFor;
    }

    // ------------------------------------------------------------ symbols

    /** cases LEN and DIST, one symbol at a time */
    method DoSymbol(ghost t: seq<bool>, ghost m: nat) returns (leave: bool)
      requires Inv(t, m) && mode in {LEN, DIST}
      modifies this
      ensures Handled(leave, t, m)
    {
      hide Ready, Held, Moved, Tight, Stuck, History, FixedTable, Buffers, Tables, Scratch, Gathered, Pow2, BytesToBits;
      hide Shr, Low, Shape;
      hide Decode, Prefix;
      Bounds(t, m);
      SymbolSnug(bits, a, fed);
      var ok, here := Find(t, m);
      if ok {
        Apply(here, t, m);
      } else {
        Bounds(t, m);
        SymbolWaits(hold, bits, fed, a, t, m);
      }
      leave := !ok;
    }

    /** A byte more for a code that is not there in full; the low n bits stay. */
    method PullFor(ghost n: nat, ghost t: seq<bool>, ghost m: nat)
      requires Ready(t, m) && next < |input| && n <= bits && |LensOf(a)| <= MaxSymbols(TypeOf(a.mode))
      requires a.pos + bits == 8 * |fed|
      requires Prefix(TypeOf(a.mode), LensOf(a)) && Acceptable(TypeOf(a.mode), LensOf(a))
      requires Decode(TypeOf(a.mode), LensOf(a), BytesToBits(fed), a.pos).None?
      modifies this`hold, this`bits, this`fed, this`next
      ensures Ready(t, m) && bits == old(bits) + 8 && next == old(next) + 1 && a.pos + bits == 8 * |fed|
      ensures Snug(TypeOf(a.mode), LensOf(a), bits, fed, a.pos) && Low(hold, n) == old(Low(hold, n))
    {
      hide Ready, Pow2, BytesToBits, Low, Decode, Prefix, Acceptable, TypeOf, LensOf, Snug;
      SnugPull(TypeOf(a.mode), LensOf(a), bits, fed, a.pos, input[next]);
      LowPull(hold, bits, input[next], n);
      PullByte(t, m);
    }

    /** The table entry for the next code, once all its bits are there, and through the
        second level if there is one. */
    method Find(ghost t: seq<bool>, ghost m: nat) returns (ok: bool, here: Code)
      requires Ready(t, m) && mode in {LEN, DIST} && |LensOf(a)| <= MaxSymbols(TypeOf(a.mode)) && a.pos <= 8 * |fed|
      requires Snug(TypeOf(a.mode), LensOf(a), bits, fed, a.pos)
      modifies this`hold, this`bits, this`fed, this`next
      ensures Ready(t, m) && next >= old(next) && |LensOf(a)| <= MaxSymbols(TypeOf(a.mode)) && a.pos <= |t|
      ensures ok ==> here.bits <= bits < here.bits + 8 && Decode(TypeOf(a.mode), LensOf(a), t, a.pos) == Some(here)
      ensures !ok ==>
        bits < MAXBITS && next == |input| && BytesToBits(fed) == t && Decode(TypeOf(a.mode), LensOf(a), t, a.pos).None?
    {
      hide Ready, Held, Moved, Tight, Stuck, History, FixedTable, Buffers, Tables, Scratch, Gathered, Pow2, BytesToBits;
      hide Shr, Low, Shape;
      hide Decode, Prefix, Lookup, Acceptable, TypeOf, LensOf;
      var tab := if mode == LEN then lencode else distcode;
      ok, here := FindFirst(tab, t, m);
      Entries(t, m);
      if ok && LooksLink(TypeOf(mode), here) {
        ok, here := FindBelow(tab, here, t, m);
      }
    }

    /** The entry of the first level, once its bits are there. */
    method FindFirst(tab: Table, ghost t: seq<bool>, ghost m: nat) returns (ok: bool, here: Code)
      requires Ready(t, m) && mode in {LEN, DIST} && |LensOf(a)| <= MaxSymbols(TypeOf(a.mode)) && a.pos <= 8 * |fed|
      requires Snug(TypeOf(a.mode), LensOf(a), bits, fed, a.pos) && tab == (if mode == LEN then lencode else distcode)
      modifies this`hold, this`bits, this`fed, this`next
      ensures Ready(t, m) && next >= old(next) && a.pos <= 8 * |fed|
      ensures Snug(TypeOf(a.mode), LensOf(a), bits, fed, a.pos)
      ensures ok ==>
        tab.start + Low(hold, tab.bits) < tab.code.Length && here == tab.code[tab.start + Low(hold, tab.bits)]
        && here.bits <= bits
      ensures !ok ==> |LensOf(a)| <= MaxSymbols(TypeOf(a.mode)) && a.pos <= |t|
      ensures !ok ==>
        bits < MAXBITS && next == |input| && BytesToBits(fed) == t && Decode(TypeOf(a.mode), LensOf(a), t, a.pos).None?
    {
      hide Seen, Ready, Pow2, BytesToBits, Shr, Low, Decode, Prefix, Lookup, Acceptable, TypeOf, LensOf, Snug;
      ok := true;
      EntriesFirst(tab, t, m);
      here := tab.code[tab.start + Low(hold, tab.bits)];
      while here.bits > bits
        invariant Ready(t, m) && next >= old(next) && tab.start + Low(hold, tab.bits) < tab.code.Length
        invariant here == tab.code[tab.start + Low(hold, tab.bits)]
        invariant a.pos <= 8 * |fed| && Snug(TypeOf(a.mode), LensOf(a), bits, fed, a.pos)
        decreases |input| - next
      {
        Bounds(t, m);
        EntriesFirst(tab, t, m);
        if next == |input| { return false, here; }
        PullFor(0, t, m);
        EntriesFirst(tab, t, m);
        here := tab.code[tab.start + Low(hold, tab.bits)];
      }
    }

    /** What the tables say of the code that comes next. */
    lemma Entries(t: seq<bool>, m: nat)
      requires Ready(t, m) && mode in {LEN, DIST}
      ensures |LensOf(a)| <= MaxSymbols(TypeOf(a.mode)) && Prefix(TypeOf(a.mode), LensOf(a))
      ensures Acceptable(TypeOf(a.mode), LensOf(a))
      ensures a.mode == mode && a.pos <= |t| && a.pos + bits == 8 * |fed|
      ensures var tab := if mode == LEN then lencode else distcode;
        && (tab.code == codes || tab.code == fixed)
        && Seen(TypeOf(a.mode), LensOf(a), tab.code[..], tab.start, tab.bits, hold, bits, fed, a.pos, t)
    {
      hide Held, Prefix, Acceptable, TableFor, History, FixedTable, Buffers, Scratch, Gathered, Pow2, BytesToBits, Seen;
      HeldBits(hold, bits, fed, a, t);
      CodesPrefix(a, t);
      var tab := if mode == LEN then lencode else distcode;
      TableSeen(TypeOf(a.mode), tab.code[..], tab.start, tab.bits, LensOf(a), hold, bits, fed, a, t);
    }

    /** What the entry of the first level says when it is short of bits. */
    lemma EntriesFirst(tab: Table, t: seq<bool>, m: nat)
      requires Ready(t, m) && mode in {LEN, DIST} && tab == (if mode == LEN then lencode else distcode)
      ensures |LensOf(a)| <= MaxSymbols(TypeOf(a.mode)) && Prefix(TypeOf(a.mode), LensOf(a))
      ensures Acceptable(TypeOf(a.mode), LensOf(a))
      ensures a.mode == mode && a.pos <= |t| && a.pos + bits == 8 * |fed|
      ensures tab.start + Low(hold, tab.bits) < tab.code.Length
      ensures tab.code[tab.start + Low(hold, tab.bits)].bits > bits ==>
        bits < MAXBITS && Decode(TypeOf(a.mode), LensOf(a), BytesToBits(fed), a.pos) == None
    {
      hide Ready, Pow2, BytesToBits, Shr, Low, Decode, Prefix, Lookup, Acceptable, TypeOf, LensOf, LooksLink;
      Entries(t, m);
    }

    /** The same through the link last. */
    lemma EntriesBelow(tab: Table, last: Code, t: seq<bool>, m: nat)
      requires Ready(t, m) && mode in {LEN, DIST} && tab == (if mode == LEN then lencode else distcode)
      requires tab.start + Low(hold, tab.bits) < tab.code.Length && last == tab.code[tab.start + Low(hold, tab.bits)]
      requires IsLink(last)
      ensures |LensOf(a)| <= MaxSymbols(TypeOf(a.mode)) && Prefix(TypeOf(a.mode), LensOf(a))
      ensures Acceptable(TypeOf(a.mode), LensOf(a))
      ensures a.pos <= |t| && a.pos + bits == 8 * |fed|
      ensures tab.start + last.val + Shr(Low(hold, last.bits + last.op), last.bits) < tab.code.Length
      ensures var at := tab.start + last.val + Shr(Low(hold, last.bits + last.op), last.bits);
        var here := Below(last.bits, tab.code[at]);
        && here.bits <= MAXBITS
        && (here.bits <= bits ==> Decode(TypeOf(a.mode), LensOf(a), t, a.pos) == Some(here))
        && (here.bits <= bits ==> Decode(TypeOf(a.mode), LensOf(a), BytesToBits(fed), a.pos) == Some(here))
        && (here.bits > bits ==> Decode(TypeOf(a.mode), LensOf(a), BytesToBits(fed), a.pos) == None)
    {
      hide Held, Moved, Tight, Stuck, History, FixedTable, Buffers, Tables, Scratch, Gathered, Pow2, BytesToBits, Shr;
      hide Low, Shape;
      hide Decode, Prefix, Lookup, Acceptable, TypeOf, LensOf, LooksLink, Ready;
      Entries(t, m);
      ShrLow(hold, last.bits, last.op);
    }

    /** The second level, last being the link to it. */
    method FindBelow(tab: Table, last: Code, ghost t: seq<bool>, ghost m: nat) returns (ok: bool, here: Code)
      requires Ready(t, m) && mode in {LEN, DIST} && tab == (if mode == LEN then lencode else distcode)
      requires tab.start + Low(hold, tab.bits) < tab.code.Length && last == tab.code[tab.start + Low(hold, tab.bits)]
      requires IsLink(last) && last.bits == tab.bits <= bits && |LensOf(a)| <= MaxSymbols(TypeOf(a.mode))
      requires a.pos <= 8 * |fed|
      requires Snug(TypeOf(a.mode), LensOf(a), bits, fed, a.pos)
      modifies this`hold, this`bits, this`fed, this`next
      ensures Ready(t, m) && next >= old(next) && |LensOf(a)| <= MaxSymbols(TypeOf(a.mode)) && a.pos <= |t|
      ensures ok ==> here.bits <= bits < here.bits + 8 && Decode(TypeOf(a.mode), LensOf(a), t, a.pos) == Some(here)
      ensures !ok ==>
        bits < MAXBITS && next == |input| && BytesToBits(fed) == t && Decode(TypeOf(a.mode), LensOf(a), t, a.pos).None?
    {
      hide Ready, Held, Moved, Tight, Stuck, History, FixedTable, Buffers, Tables, Scratch, Gathered, Pow2, BytesToBits;
      hide Shr, Low, Shape;
      hide Decode, Prefix, Lookup, Acceptable, TypeOf, LensOf, LooksLink;
      ok := true;
      EntriesBelow(tab, last, t, m);
      here := tab.code[tab.start + last.val + Shr(Low(hold, last.bits + last.op), last.bits)];
      while last.bits + here.bits > bits
        invariant Ready(t, m) && next >= old(next) && tab.bits <= bits
        invariant tab.start + Low(hold, tab.bits) < tab.code.Length
        invariant last == tab.code[tab.start + Low(hold, tab.bits)]
        invariant tab.start + last.val + Shr(Low(hold, last.bits + last.op), last.bits) < tab.code.Length
        invariant here == tab.code[tab.start + last.val + Shr(Low(hold, last.bits + last.op), last.bits)]
        invariant a.pos <= 8 * |fed| && Snug(TypeOf(a.mode), LensOf(a), bits, fed, a.pos)
        decreases |input| - next
      {
        Bounds(t, m);
        EntriesBelow(tab, last, t, m);
        if next == |input| { return false, here; }
        PullFor(tab.bits, t, m);
        EntriesBelow(tab, last, t, m);
        here := tab.code[tab.start + last.val + Shr(Low(hold, last.bits + last.op), last.bits)];
      }
      EntriesBelow(tab, last, t, m);
      here := Below(last.bits, here);
    }

    /** DROPBITS of a symbol and what follows from it. */
    method Apply(here: Code, ghost t: seq<bool>, ghost m: nat)
      requires Ready(t, m) && mode in {LEN, DIST} && |LensOf(a)| <= MaxSymbols(TypeOf(a.mode)) && a.pos <= |t|
      requires here.bits <= bits < here.bits + 8 && Decode(TypeOf(a.mode), LensOf(a), t, a.pos) == Some(here)
      modifies this`hold, this`bits, this`mode, this`length, this`offset, this`extra, this`a
      ensures Handled(false, t, m)
    {
      hide Held, Moved, Tight, Stuck, History, FixedTable, Buffers, Tables, Scratch, Gathered, Pow2, BytesToBits, Shr;
      hide Low, Shape;
      hide Decode, KindOk, SymbolNext;
      SymbolReads(hold, bits, fed, a, t, m, here);
      TakeSymbol(here);
      SymbolKeeps(old(a), here, old(length), old(offset), old(extra), length, offset, extra);
      SymbolicSet(old(mode));
    }

    /** Within a block the tables stay. */
    lemma SymbolicSet(mode0: Mode)
      requires Tables(mode0, a.codes, a.ls, a.ds, codes, fixed, codes[..], fixed[..], lencode, distcode)
      requires Symbolic(mode0) && a.mode !in {LENLENS, CODELENS}
      ensures Tables(a.mode, a.codes, a.ls, a.ds, codes, fixed, codes[..], fixed[..], lencode, distcode)
      ensures Gathered(a, nlen, ndist, ncode, have, lens[..])
    {
      hide TableFor;
    }

    method TakeSymbol(here: Code)
      requires here.bits <= bits && mode in {LEN, DIST} && mode == a.mode
      modifies this`hold, this`bits, this`mode, this`length, this`offset, this`extra, this`a
      ensures hold == Shr(old(hold), here.bits) && bits == old(bits) - here.bits && mode == a.mode
      ensures a == SymbolNext(old(a), here)
      ensures old(mode) == LEN ==> length == here.val
      ensures old(mode) == DIST ==> length == old(length)
      ensures mode == DISTEXT ==> offset == here.val
      ensures extra == here.op % 16 || mode !in {LENEXT, DISTEXT}
      ensures mode != DISTEXT ==> offset == old(offset)
    {
      hide Shr;
      a := SymbolNext(a, here);
      hold := Shr(hold, here.bits);
      bits := bits - here.bits;
      if mode == LEN {
        length := here.val;
        if here.op == 0 {
          mode := LIT;
        } else if here.op / 32 % 2 == 1 {
          mode := TYPE;
        } else if here.op / 64 % 2 == 1 {
          mode := BAD;
        } else {
          extra := here.op % 16;
          mode := LENEXT;
        }
      } else {
        if here.op / 64 % 2 == 1 {
          mode := BAD;
        } else {
          offset := here.val;
          extra := here.op % 16;
          mode := DISTEXT;
        }
      }
    }

    /** cases LENEXT and DISTEXT */
    method DoExtra(ghost t: seq<bool>, ghost m: nat) returns (leave: bool)
      requires Inv(t, m) && mode in {LENEXT, DISTEXT}
      modifies this
      ensures Handled(leave, t, m)
    {
      hide Held, Moved, Tight, Stuck, History, FixedTable, Buffers, Tables, Scratch, Gathered, Pow2, BytesToBits, Shr;
      hide Low, Shape;
      Bounds(t, m);
      ExtraTight(bits, a, fed);
      ExtraKeeps(a, 0, length, offset, extra);
      var ok := NeedBits(extra, t, m);
      Bounds(t, m);
      if ok {
        AddExtra(t, m);
      } else {
        ExtraWaits(hold, bits, fed, a, t, m);
      }
      leave := !ok;
    }

    method AddExtra(ghost t: seq<bool>, ghost m: nat)
      requires Ready(t, m) && mode in {LENEXT, DISTEXT} && extra <= bits < extra + 8
      modifies this`hold, this`bits, this`mode, this`length, this`offset, this`a
      ensures Handled(false, t, m)
    {
      hide Held, Moved, Tight, Stuck, History, FixedTable, Buffers, Tables, Scratch, Gathered, Pow2, BytesToBits, Shr;
      hide Low, Shape, ExtraNext;
      ExtraOne(hold, bits, fed, a, t, m, length, offset, extra);
      TakeExtra();
      SymbolicSet(old(mode));
    }

    method TakeExtra()
      requires extra <= bits && mode in {LENEXT, DISTEXT} && extra == a.extra && mode == a.mode
      modifies this`hold, this`bits, this`mode, this`length, this`offset, this`a
      ensures hold == Shr(old(hold), extra) && bits == old(bits) - extra && mode == a.mode
      ensures a == ExtraNext(old(a), Low(old(hold), extra))
      ensures old(mode) == LENEXT ==> length == old(length) + Low(old(hold), extra) && offset == old(offset)
      ensures old(mode) == DISTEXT ==> offset == old(offset) + Low(old(hold), extra) && length == old(length)
    {
      hide Shr, Low;
      a := ExtraNext(a, Low(hold, extra));
      if mode == LENEXT {
        length := length + Low(hold, extra);
        mode := DIST;
      } else {
        offset := offset + Low(hold, extra);
        mode := MATCH;
      }
      hold := Shr(hold, extra);
      bits := bits - extra;
    }

    // ------------------------------------------------------------ output

    /** case LIT */
    method DoLit(ghost t: seq<bool>, ghost m: nat) returns (leave: bool)
      requires Inv(t, m) && mode == LIT
      modifies this, buf
      ensures Handled(leave, t, m)
    {
      hide Held, Moved, Tight, Stuck, History, FixedTable, Tables, Scratch, Gathered, Pow2, BytesToBits;
      OutputTight(bits, a, fed);
      leave := put == buf.Length;
      if leave {
        OutputWaits(hold, bits, fed, a, t, m);
      } else {
        LitWrites(hold, bits, fed, a, t, m);
        LitFits(a, length, offset, extra);
        PutLit();
        SymbolicSet(LIT);
      }
    }

    method PutLit()
      requires put < buf.Length && length == a.length < 256
      modifies this`put, this`mode, this`a, buf
      ensures put == old(put) + 1 && buf[..put] == old(buf[..put]) + [length] && mode == LEN
      ensures a == old(a).(mode := LEN, out := old(a.out) + [length])
    {
      a := a.(mode := LEN, out := a.out + [length]);
      buf[put] := length;
      put := put + 1;
      mode := LEN;
    }

    /** case MATCH */
    method DoMatch(ghost t: seq<bool>, ghost m: nat) returns (leave: bool)
      requires Inv(t, m) && mode == MATCH
      modifies this, buf
      ensures Handled(leave, t, m)
    {
      hide Held, Moved, Tight, Stuck, History, FixedTable, Tables, Gathered, Pow2, BytesToBits, Echoes;
      OutputTight(bits, a, fed);
      leave := put == buf.Length;
      if leave {
        OutputWaits(hold, bits, fed, a, t, m);
        return;
      }
      var copy := put;
      if offset > copy {
        copy := offset - copy;
        BeyondWindow(wsize, whave, wnext, window[..], hist, copy);
        if copy > whave {
          TooFar(hold, bits, fed, a, t, m);
          mode := BAD;
          a := a.(mode := BAD);
          Settled();
        } else {
          FromWindow(copy, t, m);
        }
      } else {
        FromOutput(t, m);
      }
    }

    lemma OutSoFar(t: seq<bool>, m: nat)
      requires Ready(t, m)
      ensures a.out == hist + buf[..put] && put <= buf.Length && m == |hist| + buf.Length
      ensures (mode == MATCH ==> length == a.length >= 1 && 1 <= offset == a.offset <= WSIZE)
    {
      hide Held, History, FixedTable, Tables, Gathered, BytesToBits, Shape, Pow2;
    }

    /** Part of a match that lies in the window, need bytes back from where this call started. */
    method FromWindow(need: nat, ghost t: seq<bool>, ghost m: nat)
      requires Ready(t, m) && mode == MATCH && bits < 8 && put < buf.Length && offset == put + need && 0 < need <= whave
      modifies this`put, this`length, this`mode, this`a, buf
      ensures Handled(false, t, m)
    {
      hide Held, Moved, Tight, Stuck, History, FixedTable, Tables, Scratch, Gathered, Pow2, BytesToBits, Echoes;
      hide MatchNext, Buffers, Shape;
      OutSoFar(t, m);
      var copy, data := WindowBytes(need);
      MatchWrites(hold, bits, fed, a, t, m, data);
      MatchScratch(a, data, length, offset, extra);
      BuffersMore(t, m, fed, input, next, hist, old(buf[..]), old(put), a.out, buf[..], data);
      EndMatch(copy, data);
      SymbolicSet(MATCH);
    }

    method WindowBytes(need: nat) returns (copy: nat, ghost data: seq<byte>)
      requires History(wsize, whave, wnext, window[..], hist) && 0 < need <= whave && need <= WSIZE && put < buf.Length
      requires length > 0
      requires window != buf
      modifies this`put, buf
      ensures 0 < |data| == copy <= length && put == old(put) + copy <= buf.Length
      ensures buf[..put] == old(buf[..put]) + data
      ensures Echoes(hist + old(buf[..put]), need + old(put), data)
    {
      hide History, Echoes;
      var from;
      from, copy := Locate(need);
      WindowEchoes(wsize, whave, wnext, window[..], hist, buf[..put], need, from, copy);
      data := window[from..from + copy];
      CopyWindow(from, copy);
    }

    /** Where the bytes are, and how many at once. */
    method Locate(need: nat) returns (from: nat, copy: nat)
      requires History(wsize, whave, wnext, window[..], hist) && 0 < need <= whave && need <= WSIZE && put < buf.Length
      requires length > 0
      ensures 0 < copy <= length && copy <= buf.Length - put
      ensures if need > wnext then from == wsize - (need - wnext) && copy <= need - wnext
        else from == wnext - need && copy <= need
    {
      hide History;
      BeyondWindow(wsize, whave, wnext, window[..], hist, need);
      copy := need;
      if copy > wnext {
        copy := copy - wnext;
        from := wsize - copy;
      } else {
        from := wnext - copy;
      }
      if copy > length { copy := length; }
      if copy > buf.Length - put { copy := buf.Length - put; }
    }

    /** The bytes of a match have been written. */
    method EndMatch(copy: nat, ghost data: seq<byte>)
      requires 0 < |data| == copy <= length == a.length && mode == a.mode == MATCH
      modifies this`length, this`mode, this`a
      ensures length == old(length) - |data| && mode == a.mode && a == MatchNext(old(a), data)
    {
      a := MatchNext(a, data);
      length := length - copy;
      if length == 0 { mode := LEN; }
    }

    method CopyWindow(from: nat, copy: nat)
      requires from + copy <= window.Length && put + copy <= buf.Length && window != buf
      modifies this`put, buf
      ensures put == old(put) + copy && buf[..put] == old(buf[..put]) + window[from..from + copy]
    {
      var n := 0;
      while n < copy
        invariant n <= copy && put == old(put) + n
        invariant buf[..put] == old(buf[..put]) + window[from..from + n]
      {
        buf[put] := window[from + n];
        put := put + 1;
        n := n + 1;
      }
    }

    /** A match in what this call has written. */
    method FromOutput(ghost t: seq<bool>, ghost m: nat)
      requires Ready(t, m) && mode == MATCH && bits < 8 && put < buf.Length && offset <= put
      modifies this`put, this`length, this`mode, this`a, buf
      ensures Handled(false, t, m)
    {
      hide Held, Moved, Tight, Stuck, History, FixedTable, Tables, Scratch, Gathered, Pow2, BytesToBits, Echoes;
      hide MatchNext, Buffers, Shape;
      OutSoFar(t, m);
      var copy, data := OutputBytes();
      MatchWrites(hold, bits, fed, a, t, m, data);
      MatchScratch(a, data, length, offset, extra);
      BuffersMore(t, m, fed, input, next, hist, old(buf[..]), old(put), a.out, buf[..], data);
      EndMatch(copy, data);
      SymbolicSet(MATCH);
    }

    /** What a match copies from the output of this call. */
    method OutputBytes() returns (copy: nat, ghost data: seq<byte>)
      requires 1 <= offset <= put < buf.Length && length > 0
      modifies this`put, buf
      ensures 0 < |data| == copy <= length && put == old(put) + copy <= buf.Length
      ensures buf[..put] == old(buf[..put]) + data && Echoes(hist + old(buf[..put]), offset, data)
    {
      hide Echoes;
      copy := length;
      if copy > buf.Length - put { copy := buf.Length - put; }
      ghost var was := buf[..put];
      CopyOutput(offset, copy);
      data := buf[old(put)..put];
      EchoesMore(hist, was, offset, data);
    }

    method CopyOutput(offset: nat, copy: nat)
      requires 1 <= offset <= put && put + copy <= buf.Length
      modifies this`put, buf
      ensures put == old(put) + copy && buf[..put] == old(buf[..put]) + buf[old(put)..put]
      ensures Echoes(old(buf[..put]), offset, buf[old(put)..put])
    {
      ghost var p, x := put, buf[..put];
      var n := 0;
      while n < copy
        invariant n <= copy && put == p + n && buf[..p] == x
        invariant forall i :: p <= i < put ==> buf[i] == buf[i - offset]
      {
        buf[put] := buf[put - offset];
        put := put + 1;
        n := n + 1;
      }
      assert x + buf[p..put] == buf[..put];
    }

    // ------------------------------------------------------------ the window

    /** updatewindow, for the output of a call. */
    method UpdateWindow()
      requires Shape() && window != buf && put <= buf.Length && History(wsize, whave, wnext, window[..], hist)
      modifies this`wsize, this`whave, this`wnext, this`hist, window
      ensures History(wsize, whave, wnext, window[..], hist) && wsize == WSIZE && hist == old(hist) + buf[..put]
    {
      hide Circular;
      if wsize == 0 {
        wsize, wnext, whave := WSIZE, 0, 0;
        WindowStart(window[..]);
      }
      wnext, whave := WriteWindow(window, wnext, whave, buf, put, hist);
      hist := hist + buf[..put];
    }

    /** inflateGetDictionary: what the window holds, oldest byte first. */
    method GetDictionary(dictionary: array<byte>) returns (len: nat)
      requires History(wsize, whave, wnext, window[..], hist) && dictionary.Length >= whave
      requires dictionary != window
      modifies dictionary
      ensures len == (if |hist| < WSIZE then |hist| else WSIZE) && dictionary[..len] == hist[|hist| - len..]
    {
      hide History, Circular;
      HistoryHeld(wsize, whave, wnext, window[..], hist);
      len := 0;
      if whave != 0 { len := ReadWindow(window, wnext, whave, hist, dictionary); }
    }

    // ------------------------------------------------------------ inflate_fast

    /** The locals stand for the state c between calls of this object's methods. */
    ghost predicate Locals(l: Local, c: State, t: seq<bool>)
      reads this`input, this`next, this`fed
    {
      next <= l.at <= |input| && Held(l.hold, l.bits, fed + input[next..l.at], c, t)
      && t == BytesToBits(fed + input[next..])
    }

    /** One byte more. */
    method Add(l: Local, ghost c: State, ghost t: seq<bool>) returns (l': Local)
      requires Locals(l, c, t) && l.at < |input|
      ensures Locals(l', c, t) && l'.bits == l.bits + 8 && l'.at == l.at + 1
    {
      hide Held, BytesToBits, Pow2;
      ghost var f := fed + input[next..l.at];
      assert f + [input[l.at]] == fed + input[next..l.at + 1];
      assert f + [input[l.at]] + input[l.at + 1..] == fed + input[next..];
      PullHeld(l.hold, l.bits, f, c, t, input[l.at], input[l.at + 1..]);
      l' := Local(l.hold + input[l.at] * Pow2(l.bits), l.bits + 8, l.at + 1);
    }

    /** At least fifteen bits. */
    method Fill15(l: Local, ghost c: State, ghost t: seq<bool>) returns (l': Local)
      requires Locals(l, c, t) && l.at + 2 <= |input|
      ensures Locals(l', c, t) && l'.bits >= 15
      ensures if l.bits < 15 then l'.at == l.at + 2 && l'.bits == l.bits + 16 else l' == l
    {
      hide Locals;
      l' := l;
      if l.bits < 15 {
        l' := Add(l', c, t);
        l' := Add(l', c, t);
      }
    }

    /** The next code, through the second level if need be, its bits dropped. */
    method FastFind(tab: Table, l: Local, ghost c: State, ghost t: seq<bool>, ghost m: nat)
      returns (here: Code, l': Local, ghost e: Code)
      requires Ready(t, m) && Symbolic(mode) && Locals(l, c, t) && c.mode in {LEN, DIST} && c.ls == a.ls && c.ds == a.ds
      requires tab == (if c.mode == LEN then lencode else distcode) && l.bits >= MAXBITS
      ensures FastResult(c, t, e) && here.op == e.op && here.val == e.val
      ensures l' == Local(Shr(l.hold, e.bits), l.bits - e.bits, l.at)
    {
      hide Shr, Low, Locals, Ready, Symbolic, FastLink, Decode, KindOk;
      FastEntry(tab, l, c, t, m);
      here := tab.code[tab.start + Low(l.hold, tab.bits)];
      l' := Local(Shr(l.hold, here.bits), l.bits - here.bits, l.at);
      e := here;
      if FastLink(here) {
        here := tab.code[tab.start + here.val + Low(l'.hold, here.op)];
        e := Below(tab.bits, here);
        ShrShr(l.hold, tab.bits, here.bits);
        l' := Local(Shr(l'.hold, here.bits), l'.bits - here.bits, l'.at);
      }
    }

    lemma FastEntry(tab: Table, l: Local, c: State, t: seq<bool>, m: nat)
      requires Ready(t, m) && Symbolic(mode) && Locals(l, c, t) && c.mode in {LEN, DIST} && c.ls == a.ls && c.ds == a.ds
      requires tab == (if c.mode == LEN then lencode else distcode) && l.bits >= MAXBITS
      ensures tab.start + Low(l.hold, tab.bits) < tab.code.Length
      ensures var e0 := tab.code[tab.start + Low(l.hold, tab.bits)];
        && (FastLink(e0) ==> e0.bits == tab.bits)
        && (FastLink(e0) ==> tab.start + e0.val + Low(Shr(l.hold, tab.bits), e0.op) < tab.code.Length)
        && (FastLink(e0) ==>
              FastResult(c, t, Below(tab.bits, tab.code[tab.start + e0.val + Low(Shr(l.hold, tab.bits), e0.op)])))
        && (!FastLink(e0) ==> FastResult(c, t, e0))
    {
      hide Held, BytesToBits, Shr, Low, TableFor, History, FixedTable, Buffers, Scratch, Gathered, FastLink, FastResult;
      FastSeen(tab.code[..], tab.start, tab.bits, l.hold, l.bits, fed + input[next..l.at], c, t);
    }

    method WindowByte(from: nat)
      requires from < window.Length && put < buf.Length && window != buf
      modifies this`put, buf
      ensures put == old(put) + 1 && buf[..put] == old(buf[..put]) + [window[from]]
    {
      buf[put] := window[from];
      put := put + 1;
    }

    method OutputByte(dist: nat)
      requires 1 <= dist <= put < buf.Length
      modifies this`put, buf
      ensures put == old(put) + 1 && buf[..put] == old(buf[..put]) + [old(buf[..put])[old(put) - dist]]
    {
      buf[put] := buf[put - dist];
      put := put + 1;
    }

    /** The loop unrolled by three, from the window. */
    method ThreesWindow(from: nat, len: nat)
      requires from + len <= window.Length && put + len <= buf.Length && window != buf
      modifies this`put, buf
      ensures put == old(put) + len && buf[..put] == old(buf[..put]) + window[from..from + len]
    {
      var n, f := len, from;
      while n > 2
        invariant 0 <= n <= len && f == from + len - n && put == old(put) + len - n
        invariant buf[..put] == old(buf[..put]) + window[from..f]
      {
        WindowByte(f);
        WindowByte(f + 1);
        WindowByte(f + 2);
        f, n := f + 3, n - 3;
      }
      if n > 0 {
        WindowByte(f);
        if n > 1 { WindowByte(f + 1); }
      }
    }

    /** The same from what was written. */
    method ThreesOutput(dist: nat, len: nat) returns (ghost data: seq<byte>)
      requires 1 <= dist <= put && put + len <= buf.Length
      modifies this`put, buf
      ensures |data| == len && put == old(put) + len && buf[..put] == old(buf[..put]) + data
      ensures Echoes(old(buf[..put]), dist, data)
    {
      hide Echoes;
      ghost var x := buf[..put];
      var n := len;
      data := [];
      EchoesNone(x, dist);
      while n > 2
        invariant 0 <= n <= len && put == old(put) + len - n && |data| == len - n
        invariant buf[..put] == x + data && Echoes(x, dist, data)
      {
        data := OneMore(dist, x, data);
        data := OneMore(dist, x, data);
        data := OneMore(dist, x, data);
        n := n - 3;
      }
      if n > 0 {
        data := OneMore(dist, x, data);
        if n > 1 { data := OneMore(dist, x, data); }
      }
    }

    method OneMore(dist: nat, ghost x: seq<byte>, ghost data: seq<byte>) returns (ghost data': seq<byte>)
      requires 1 <= dist <= |x| && put < buf.Length && buf[..put] == x + data && Echoes(x, dist, data)
      modifies this`put, buf
      ensures put == old(put) + 1 && |data'| == |data| + 1 && buf[..put] == x + data' && Echoes(x, dist, data')
    {
      hide Echoes;
      ghost var y := buf[put - dist];
      assert y == (x + data)[|x + data| - dist];
      EchoesOne(x + data, dist, y);
      EchoesOn(x, dist, data, [y]);
      OutputByte(dist);
      data' := data + [y];
    }

    /** A match: what lies in the window, in one or two stretches, and the rest from the output. */
    method FastCopy(dist: nat, len0: nat) returns (ghost data: seq<byte>)
      requires History(wsize, whave, wnext, window[..], hist) && window != buf && put + len0 <= buf.Length && len0 > 0
      requires 1 <= dist <= WSIZE && dist - put <= whave
      modifies this`put, buf
      ensures |data| == len0 && put == old(put) + len0 && buf[..put] == old(buf[..put]) + data
      ensures Echoes(hist + old(buf[..put]), dist, data)
    {
      hide History, Echoes;
      ghost var x := buf[..put];
      if dist > put {
        var op := dist - put;
        BeyondWindow(wsize, whave, wnext, window[..], hist, op);
        if wnext == 0 {
          data := Stretch(wsize - op, op, dist, len0);
        } else if wnext < op {
          data := WrappedCopy(op, dist, len0);
        } else {
          data := Stretch(wnext - op, op, dist, len0);
        }
      } else {
        data := ThreesOutput(dist, len0);
        EchoesMore(hist, x, dist, data);
      }
    }

    /** op bytes at from in the window if the match is longer than that, and the rest from the output. */
    method Stretch(from: nat, op: nat, dist: nat, len0: nat) returns (ghost data: seq<byte>)
      requires History(wsize, whave, wnext, window[..], hist) && window != buf && put + len0 <= buf.Length && len0 > 0
      requires 0 < op <= whave && dist == put + op && from == (if op > wnext then wsize - (op - wnext) else wnext - op)
      requires op > wnext ==> wnext == 0
      requires op <= wsize == window.Length
      modifies this`put, buf
      ensures |data| == len0 && put == old(put) + len0 && buf[..put] == old(buf[..put]) + data
      ensures Echoes(hist + old(buf[..put]), dist, data)
    {
      hide History, Echoes;
      ghost var x := buf[..put];
      if op < len0 {
        WindowEchoes(wsize, whave, wnext, window[..], hist, x, op, from, op);
        ghost var d1 := window[from..from + op];
        CopyWindow(from, op);
        ghost var d2 := ThreesOutput(dist, len0 - op);
        EchoesMore(hist, x + d1, dist, d2);
        assert hist + (x + d1) == hist + x + d1;
        EchoesOn(hist + x, dist, d1, d2);
        data := d1 + d2;
      } else {
        WindowEchoes(wsize, whave, wnext, window[..], hist, x, op, from, len0);
        data := window[from..from + len0];
        ThreesWindow(from, len0);
      }
    }

    /** The stretch at the end of the window, then the one at its start, then the output. */
    method WrappedCopy(op0: nat, dist: nat, len0: nat) returns (ghost data: seq<byte>)
      requires History(wsize, whave, wnext, window[..], hist) && window != buf && put + len0 <= buf.Length && len0 > 0
      requires 0 < wnext < op0 <= whave && op0 <= WSIZE && dist == put + op0 && op0 <= wsize + wnext
      requires wsize == window.Length
      modifies this`put, buf
      ensures |data| == len0 && put == old(put) + len0 && buf[..put] == old(buf[..put]) + data
      ensures Echoes(hist + old(buf[..put]), dist, data)
    {
      hide History, Echoes;
      ghost var x := buf[..put];
      BeyondWindow(wsize, whave, wnext, window[..], hist, op0);
      var from, op := wsize + wnext - op0, op0 - wnext;
      if op < len0 {
        WindowEchoes(wsize, whave, wnext, window[..], hist, x, op0, from, op);
        ghost var d1 := window[from..from + op];
        CopyWindow(from, op);
        ghost var d2 := Stretch(0, wnext, dist, len0 - op);
        assert hist + (x + d1) == hist + x + d1;
        EchoesOn(hist + x, dist, d1, d2);
        data := d1 + d2;
      } else {
        WindowEchoes(wsize, whave, wnext, window[..], hist, x, op0, from, len0);
        data := window[from..from + len0];
        ThreesWindow(from, len0);
      }
    }

    /** Everything but the position in the input and the output. */
    ghost predicate Around()
      reads this, codes, fixed, window
    {
      && Shape() && window != buf && last == a.last && History(wsize, whave, wnext, window[..], hist)
      && FixedTable(fixed[..])
      && Tables(LEN, a.codes, a.ls, a.ds, codes, fixed, codes[..], fixed[..], lencode, distcode)
    }

    lemma Surroundings(t: seq<bool>, m: nat)
      requires Ready(t, m) && mode == LEN
      ensures Around() && a.mode == LEN && Locals(Local(hold, bits, next), a, t) && Scratch(a, length, offset, extra)
      ensures Buffers(t, m, fed, input, next, hist, buf[..], put, a.out)
    {
      hide Held, BytesToBits, Tables, FixedTable, History, Gathered, Scratch;
      assert fed + input[next..next] == fed;
    }

    /** The locals go back into the fields. */
    method Restore(l: Local, ghost c: State, mode': Mode, ghost t: seq<bool>, ghost m: nat)
      requires Around() && Locals(l, c, t) && SameBlock(a.(out := c.out), c) && c.mode == mode'
      requires mode' in {LEN, TYPE, BAD}
      requires Buffers(t, m, fed, input, next, hist, buf[..], put, c.out)
      modifies this`hold, this`bits, this`next, this`fed, this`mode, this`a
      ensures Ready(t, m) && a == c && mode == mode' && bits == l.bits && next == l.at >= old(next)
    {
      hide Held, BytesToBits, Tables, FixedTable, History, Scratch, Gathered, Buffers, Shape;
      BuffersNext(t, m, fed, input, next, hist, buf[..], put, c.out, l.at);
      ScratchNone(c, length, offset, extra);
      PutBack(l, c, mode');
      SymbolicSet(LEN);
    }

    method PutBack(l: Local, ghost c: State, mode': Mode)
      requires next <= l.at <= |input|
      modifies this`hold, this`bits, this`next, this`fed, this`mode, this`a
      ensures fed == old(fed) + input[old(next)..l.at] && hold == l.hold && bits == l.bits && next == l.at && a == c
      ensures mode == mode'
    {
      fed := fed + input[next..l.at];
      hold, bits, next := l.hold, l.bits, l.at;
      a, mode := c, mode';
    }

    /** Extra bits added to a base, with a byte or two more if there are too few. */
    method FastExtra(l: Local, base: nat, op: nat, ghost c: State, ghost t: seq<bool>, ghost m: nat)
      returns (l': Local, v: nat)
      requires Locals(l, c, t) && c.mode in {LENEXT, DISTEXT} && op == c.extra <= 13
      requires l.at + (if l.bits >= op then 0 else if l.bits + 8 >= op then 1 else 2) <= |input|
      ensures v >= base && v - base < Pow2(op) && Locals(l', ExtraNext(c, v - base), t)
      ensures Moved(c, ExtraNext(c, v - base), t, m)
      ensures var k := if l.bits >= op then 0 else if l.bits + 8 >= op then 1 else 2;
        l'.at == l.at + k && l'.bits == l.bits + 8 * k - op
    {
      hide Moved, Shr, Low, Pow2, ExtraNext, Locals;
      l' := l;
      if l'.bits < op {
        l' := Add(l', c, t);
        if l'.bits < op { l' := Add(l', c, t); }
      }
      LowFits(l'.hold, op);
      ExtraLocal(l', c, t, m);
      v := base + Low(l'.hold, op);
      l' := Local(Shr(l'.hold, op), l'.bits - op, l'.at);
    }

    lemma ExtraLocal(l: Local, c: State, t: seq<bool>, m: nat)
      requires Locals(l, c, t) && c.mode in {LENEXT, DISTEXT} && c.extra <= l.bits
      ensures Locals(Local(Shr(l.hold, c.extra), l.bits - c.extra, l.at), ExtraNext(c, Low(l.hold, c.extra)), t)
      ensures Moved(c, ExtraNext(c, Low(l.hold, c.extra)), t, m)
    {
      hide Held, BytesToBits, Shr, Low, ExtraNext, Moved;
      ExtraMoves(l.hold, l.bits, fed + input[next..l.at], c, t, m);
    }

    lemma SymbolLocal(l: Local, c: State, t: seq<bool>, m: nat, e: Code)
      requires Locals(l, c, t) && c.mode in {LEN, DIST} && e.bits <= l.bits && FastResult(c, t, e)
      ensures Locals(Local(Shr(l.hold, e.bits), l.bits - e.bits, l.at), SymbolNext(c, e), t)
      ensures Moved(c, SymbolNext(c, e), t, m)
    {
      hide Held, BytesToBits, Shr, Low, SymbolNext, Moved, Decode;
      SymbolMoves(l.hold, l.bits, fed + input[next..l.at], c, t, m, e);
    }

    /** A distance too far, or a match copied. */
    method FastMatch(l: Local, len: nat, dist: nat, ghost ex: nat, ghost c: State, ghost t: seq<bool>, ghost m: nat)
      requires Around() && Locals(l, c, t) && c.mode == MATCH && SameBlock(a, c) && Scratch(c, len, dist, ex)
      requires Buffers(t, m, fed, input, next, hist, buf[..], put, a.out) && buf.Length - put >= 258
      modifies this`hold, this`bits, this`next, this`fed, this`mode, this`a, this`put, buf
      ensures Ready(t, m) && Moved(c, a, t, m) && mode in {LEN, BAD} && a.pos == c.pos && bits == l.bits
      ensures next == l.at && put >= old(put)
    {
      hide Held, Moved, BytesToBits, Tables, FixedTable, History, Scratch, Shape, Echoes;
      ScratchMatch(c, len, dist, ex);
      BeyondWindow(wsize, whave, wnext, window[..], hist, if dist > put then dist - put else 0);
      if dist > put && dist - put > whave {
        FarLocal(l, c, t, m);
        Restore(l, c.(mode := BAD), BAD, t, m);
      } else {
        ghost var x := buf[..put];
        ghost var data := FastCopy(dist, len);
        MatchLocal(l, c, t, m, data);
        BuffersMore(t, m, fed, input, next, hist, old(buf[..]), old(put), a.out, buf[..], data);
        Restore(l, MatchNext(c, data), LEN, t, m);
      }
    }

    lemma FarLocal(l: Local, c: State, t: seq<bool>, m: nat)
      requires Locals(l, c, t) && c.mode == MATCH && |c.out| < m && c.offset > |c.out|
      ensures Locals(l, c.(mode := BAD), t) && Moved(c, c.(mode := BAD), t, m)
    {
      hide Held, BytesToBits, Moved;
      TooFarMoves(l.hold, l.bits, fed + input[next..l.at], c, t, m);
    }

    lemma MatchLocal(l: Local, c: State, t: seq<bool>, m: nat, data: seq<byte>)
      requires Locals(l, c, t) && c.mode == MATCH && 0 < |data| == c.length && |c.out| + |data| <= m
      requires Echoes(c.out, c.offset, data)
      ensures var d := MatchNext(c, data);
        Locals(l, d, t) && Moved(c, d, t, m) && d.mode == LEN && SameBlock(c.(out := c.out + data), d) && d.pos == c.pos
    {
      hide Held, BytesToBits, Moved, Echoes;
      MatchMoves(l.hold, l.bits, fed + input[next..l.at], c, t, m, data);
    }

    /** A length with its extra bits, then its distance. */
    method FastLength(l0: Local, len0: nat, op0: nat, ghost c0: State, ghost t: seq<bool>, ghost m: nat)
      requires Ready(t, m) && mode == LEN && Locals(l0, c0, t) && c0.mode == LENEXT && SameBlock(a, c0)
      requires op0 == c0.extra
      requires Scratch(c0, len0, offset, op0) && buf.Length - put >= 258 && |input| - next >= 6
      requires l0.at == next || (l0.at == next + 2 && l0.bits >= 1)
      modifies this`hold, this`bits, this`next, this`fed, this`mode, this`a, this`put, buf
      ensures Ready(t, m) && Moved(c0, a, t, m) && mode in {LEN, BAD} && a.pos >= c0.pos && next >= old(next)
      ensures put >= old(put)
    {
      hide Held, Moved, BytesToBits, Scratch, Ready, Locals, Decode, KindOk, SymbolNext, FastResult, ExtraNext, Buffers;
      ScratchExtra(c0, len0, offset, op0);
      var l, len := FastExtra(l0, len0, op0, c0, t, m);
      ghost var c1 := ExtraNext(c0, len - len0);
      ExtraKeeps(c0, len - len0, len0, offset, op0);
      ExtraSame(c0, len - len0);
      l := Fill15(l, c1, t);
      FastDist(l, len, op0, c1, t, m);
      MovedOn(c0, c1, a, t, m);
    }

    /** The distance of a match. */
    method FastDist(l0: Local, len: nat, ghost ex: nat, ghost c0: State, ghost t: seq<bool>, ghost m: nat)
      requires Ready(t, m) && mode == LEN && Locals(l0, c0, t) && c0.mode == DIST && SameBlock(a, c0)
      requires Scratch(c0, len, offset, ex)
      requires buf.Length - put >= 258 && |input| - next >= 6 && l0.bits >= 15 && l0.at <= next + 5
      requires (l0.at == next + 5 ==> l0.bits >= 20)
      modifies this`hold, this`bits, this`next, this`fed, this`mode, this`a, this`put, buf
      ensures Ready(t, m) && Moved(c0, a, t, m) && mode in {LEN, BAD} && a.pos >= c0.pos && next >= old(next)
      ensures put >= old(put)
    {
      hide Held, Moved, BytesToBits, Scratch, Ready, Locals, Decode, KindOk, SymbolNext, ExtraNext, Buffers, Around;
      var here, l;
      ghost var e;
      here, l, e := FastFind(distcode, l0, c0, t, m);
      ghost var c1 := SymbolNext(c0, e);
      SymbolLocal(l0, c0, t, m, e);
      NextModes(c0, e);
      Surroundings(t, m);
      if here.op / 16 % 2 == 1 {
        SymbolKeeps(c0, e, len, offset, ex, len, here.val, here.op % 16);
        FarCode(l, len, here, c1, t, m);
        MovedOn(c0, c1, a, t, m);
      } else {
        Restore(l, c1, BAD, t, m);
      }
    }

    /** The extra bits of a distance, and the match. */
    method FarCode(l0: Local, len: nat, here: Code, ghost c0: State, ghost t: seq<bool>, ghost m: nat)
      requires Around() && Buffers(t, m, fed, input, next, hist, buf[..], put, a.out) && Locals(l0, c0, t)
      requires c0.mode == DISTEXT && SameBlock(a, c0) && Scratch(c0, len, here.val, here.op % 16)
      requires buf.Length - put >= 258
      requires |input| - next >= 6 && l0.at <= next + 5 && (l0.at == next + 5 ==> l0.bits >= 5)
      modifies this`hold, this`bits, this`next, this`fed, this`mode, this`a, this`put, buf
      ensures Ready(t, m) && Moved(c0, a, t, m) && mode in {LEN, BAD} && a.pos >= c0.pos && next >= old(next)
      ensures put >= old(put)
    {
      hide Held, Moved, BytesToBits, Scratch, Ready, ExtraNext, Buffers, Around, Pow2;
      ScratchExtra(c0, len, here.val, here.op % 16);
      var l, dist := FastExtra(l0, here.val, here.op % 16, c0, t, m);
      ghost var c1 := ExtraNext(c0, dist - here.val);
      ExtraKeeps(c0, dist - here.val, len, here.val, here.op % 16);
      ExtraSame(c0, dist - here.val);
      FastMatch(l, len, dist, here.op % 16, c1, t, m);
      MovedOn(c0, c1, a, t, m);
    }

    /** One literal, end of block or match. */
    method FastSymbol(ghost t: seq<bool>, ghost m: nat)
      requires Ready(t, m) && mode == LEN && |input| - next >= 6 && buf.Length - put >= 258
      modifies this`hold, this`bits, this`next, this`fed, this`mode, this`a, this`put, buf
      ensures Ready(t, m) && Moved(old(a), a, t, m) && mode in {LEN, TYPE, BAD} && next >= old(next) && put >= old(put)
      ensures exists e :: FastResult(old(a), t, e) && a.pos >= old(a.pos) + e.bits
    {
      hide Held, Moved, BytesToBits, Scratch, Ready, Locals, Decode, KindOk, SymbolNext, Buffers, Around;
      Surroundings(t, m);
      var here;
      ghost var e;
      var l := Fill15(Local(hold, bits, next), a, t);
      ghost var l1 := l;
      here, l, e := FastFind(lencode, l, a, t, m);
      ghost var c1 := SymbolNext(a, e);
      SymbolLocal(l1, a, t, m, e);
      NextModes(a, e);
      if here.op == 0 {
        FastLiteral(l, here.val, c1, t, m);
        MovedOn(old(a), c1, a, t, m);
      } else if here.op / 16 % 2 == 1 {
        SymbolKeeps(a, e, length, offset, extra, here.val, offset, here.op % 16);
        FastLength(l, here.val, here.op % 16, c1, t, m);
        MovedOn(old(a), c1, a, t, m);
      } else {
        Restore(l, c1, if here.op / 32 % 2 == 1 then TYPE else BAD, t, m);
      }
      assert FastResult(old(a), t, e);
    }

    method FastLiteral(l: Local, val: nat, ghost c: State, ghost t: seq<bool>, ghost m: nat)
      requires Around() && Buffers(t, m, fed, input, next, hist, buf[..], put, a.out) && Locals(l, c, t)
      requires c.mode == LIT && SameBlock(a, c) && c.length == val < 256 && put < buf.Length
      modifies this`hold, this`bits, this`next, this`fed, this`mode, this`a, this`put, buf
      ensures Ready(t, m) && Moved(c, a, t, m) && mode == LEN && a.pos == c.pos && next >= old(next) && put >= old(put)
    {
      hide Held, Moved, BytesToBits, Scratch, Tables, FixedTable, History, Shape;
      LitLocal(l, c, t, m);
      buf[put] := val;
      put := put + 1;
      assert buf[..put] == old(buf[..put]) + [val];
      BuffersMore(t, m, fed, input, next, hist, old(buf[..]), old(put), a.out, buf[..], [val]);
      Restore(l, c.(mode := LEN, out := c.out + [val]), LEN, t, m);
    }

    lemma LitLocal(l: Local, c: State, t: seq<bool>, m: nat)
      requires Locals(l, c, t) && c.mode == LIT && c.length < 256 && |c.out| < m
      ensures var d := c.(mode := LEN, out := c.out + [c.length]); Locals(l, d, t) && Moved(c, d, t, m)
    {
      hide Held, BytesToBits, Moved;
      LitMoves(l.hold, l.bits, fed + input[next..l.at], c, t, m);
    }

    /** inflate_fast: symbols as long as there are six bytes of input and room for the
        longest match, then the bytes not used go back. */
    method InflateFast(ghost t: seq<bool>, ghost m: nat)
      requires Inv(t, m) && mode == LEN && |input| - next >= 6 && buf.Length - put >= 258
      modifies this`hold, this`bits, this`next, this`fed, this`mode, this`a, this`put, buf
      ensures Handled(false, t, m) && bits < 8
    {
      hide Ready, Held, Moved, Tight, Decode, FastResult, WellFormed, Acceptable, BytesToBits;
      Entered(t, m);
      FastSymbol(t, m);
      FirstTakes(old(bits), old(a), old(fed), t, a.pos);
      Position(t, m);
      while mode == LEN && |input| - next >= 6 && buf.Length - put >= 258
        invariant Ready(t, m) && mode in {LEN, TYPE, BAD} && Moved(old(a), a, t, m) && next >= old(next)
        invariant put >= old(put)
        invariant a.pos > old(a.pos) && (old(bits) < 8 || a.pos > old(a.pos + bits)) && a.pos <= |t|
        decreases |t| - a.pos
      {
        ghost var b := a;
        FastSymbol(t, m);
        SymbolTakes(b, t, a.pos);
        MovedOn(old(a), b, a, t, m);
        Position(t, m);
      }
      Position(t, m);
      GiveBack(old(fed), old(next), t, m);
    }

    lemma Position(t: seq<bool>, m: nat)
      requires Ready(t, m)
      ensures a.pos <= |t| == 8 * (|fed| + |input| - next) && a.pos + bits == 8 * |fed| && next <= |input|
    {
      hide Held, BytesToBits, Tables, FixedTable, History, Gathered, Scratch, Shape;
      HeldBits(hold, bits, fed, a, t);
    }

    lemma Entered(t: seq<bool>, m: nat)
      requires Inv(t, m) && mode == LEN
      ensures Tight(bits, a, fed) && a.mode == LEN && a.pos + bits == 8 * |fed| && BytesToBits(fed) <= t
      ensures Acceptable(LENS, a.ls) && WellFormed(a, t)
      ensures a.pos <= |t| == 8 * (|fed| + |input| - next) && t == BytesToBits(fed + input[next..])
    {
      hide Tight, BytesToBits, Decodes, FixedTable, History, Gathered, Scratch, Shape, WellFormed, Acceptable;
      HeldBits(hold, bits, fed, a, t);
    }

    /** The bytes not used go back: none of them was there before this call. */
    method GiveBack(ghost fed0: seq<byte>, ghost next0: nat, ghost t: seq<bool>, ghost m: nat)
      requires Ready(t, m) && mode in {LEN, TYPE, BAD} && next0 <= next && bits < 8 * (next - next0) + 8
      requires t == BytesToBits(fed0 + input[next0..])
      modifies this`hold, this`bits, this`next, this`fed
      ensures Inv(t, m) && next >= next0 && bits < 8
    {
      hide Held, Tight, BytesToBits, Tables, FixedTable, History, Gathered, Scratch, Shape, Low, WellFormed;
      var len := bits / 8;
      HeldBits(hold, bits, fed, a, t);
      HeldBack(hold, bits, fed, a, t, len);
      BuffersBack(t, m, fed, input, next, hist, buf[..], put, a.out, len, fed0, next0);
      ghost var f := fed[..|fed| - len];
      HeldBits(Low(hold, bits - 8 * len), bits - 8 * len, f, a, t);
      TightNow(bits - 8 * len, a, f, t);
      TakeBack(len);
    }

    method TakeBack(len: nat)
      requires len <= next && 8 * len <= bits && len <= |fed|
      modifies this`hold, this`bits, this`next, this`fed
      ensures next == old(next) - len && bits == old(bits) - 8 * len && hold == Low(old(hold), bits)
      ensures fed == old(fed[..|fed| - len])
    {
      hide Low;
      next := next - len;
      bits := bits - 8 * len;
      hold := Low(hold, bits);
      fed := fed[..|fed| - len];
    }

    // ------------------------------------------------------------ inflate

    /** One round of the for (;;) switch. */
    method Dispatch(ghost t: seq<bool>, ghost m: nat) returns (leave: bool)
      requires Inv(t, m)
      modifies this, lens, work, codes, buf
      ensures Handled(leave, t, m)
    {
      hide Held, Moved, Tight, Stuck, History, FixedTable, Buffers, Tables, Scratch, Gathered, Pow2, BytesToBits, Shr;
      hide Low, Shape;
      match mode {
        case TYPE => leave := DoType(t, m);
        case STORED => leave := DoStored(t, m);
        case COPY => leave := DoCopy(t, m);
        case TABLE => leave := DoTable(t, m);
        case LENLENS => leave := DoLenLens(t, m);
        case CODELENS => leave := DoCodeLens(t, m);
        case LEN =>
          if |input| - next >= 6 && buf.Length - put >= 258 {
            InflateFast(t, m);
            leave := false;
          } else {
            leave := DoSymbol(t, m);
          }
        case LENEXT => leave := DoExtra(t, m);
        case DIST => leave := DoSymbol(t, m);
        case DISTEXT => leave := DoExtra(t, m);
        case MATCH => leave := DoMatch(t, m);
        case LIT => leave := DoLit(t, m);
        case DONE =>
          Finished(t, m);
          leave := true;
        case BAD =>
          Finished(t, m);
          leave := true;
      }
    }

    lemma Finished(t: seq<bool>, m: nat)
      requires Inv(t, m) && mode in {DONE, BAD}
      ensures Stuck(a, t, m)
    {
      hide Prefix, BytesToBits, Accumulated;
    }

    /** The for (;;) loop, until it leaves. */
    method Loop(ghost t: seq<bool>, ghost m: nat)
      requires Inv(t, m)
      modifies this, lens, work, codes, buf
      ensures Inv(t, m) && WellFormed(old(a), t) && a == Run(old(a), t, m)
      ensures hist == old(hist) && buf == old(buf) && input == old(input) && calls == old(calls) && next >= old(next)
      ensures put >= old(put)
    {
      hide Ready, Tight, Moved, Stuck, WellFormed, Run;
      var leave := false;
      Bounds(t, m);
      HeldBits(hold, bits, fed, a, t);
      while !leave
        invariant Inv(t, m) && WellFormed(a, t) && WellFormed(old(a), t) && Run(a, t, m) == Run(old(a), t, m)
        invariant hist == old(hist) && buf == old(buf) && input == old(input) && calls == old(calls)
        invariant next >= old(next) && put >= old(put)
        invariant leave ==> Stuck(a, t, m)
        decreases !leave, |t| - a.pos, Rank(a.mode), a.length
      {
        ghost var b := a;
        leave := Dispatch(t, m);
        if !leave || a != b { MovedRun(b, a, t, m); }
      }
      StuckRun(a, t, m);
    }

    /** inflate: as much as the input allows and the output takes.  The bytes not consumed
        are the caller's to supply again. */
    method Inflate(data: seq<byte>, out: array<byte>, finish: bool) returns (ret: Verdict)
      requires Between() && out != window
      modifies this, lens, work, codes, window, out
      ensures Between() && next <= |data| && put <= out.Length && fed == old(fed) + data[..next]
      ensures calls == old(calls) + [Call(old(fed) + data, |old(a.out)| + out.Length, a)]
      ensures a.out == old(a.out) + out[..put]
      ensures ret == STREAM_END <==> a.mode == DONE
      ensures ret == DATA_ERROR <==> a.mode == BAD
      ensures ret == BUF_ERROR <==> a.mode !in {DONE, BAD} && (finish || (next == 0 && put == 0))
    {
      hide Held, Tight, FixedTable, Scratch, Gathered, Tables, BytesToBits, WellFormed, Run, Shape, History, Ready;
      hide Between, Recorded;
      ghost var fed0, t, m := fed, BytesToBits(fed + data), |a.out| + out.Length;
      Begin(data, out);
      Loop(t, m);
      Consumed(fed0, t, m, data);
      HeldLess(hold, bits, fed, a, t);
      Leave(finish, fed0 + data, m);
      ret := if mode == DONE then STREAM_END else if mode == BAD then DATA_ERROR
             else if (next == 0 && put == 0) || finish then BUF_ERROR else OK;
    }

    /** inf_leave */
    method Leave(finish: bool, ghost given: seq<byte>, ghost m: nat)
      requires Ready(BytesToBits(given), m) && Tight(bits, a, fed) && Held(hold, bits, fed, a, BytesToBits(fed))
      requires a.out == hist + buf[..put]
      requires Recorded(calls) && WellFormed(Last(calls), BytesToBits(given)) && |Last(calls).out| <= m
      requires a == Run(Last(calls), BytesToBits(given), m)
      modifies this`wsize, this`whave, this`wnext, this`hist, this`calls, window
      ensures Between() && calls == old(calls) + [Call(given, m, a)]
    {
      hide Held, Tight, FixedTable, Scratch, Gathered, Tables, BytesToBits, WellFormed, Run, Shape, History, Buffers;
      hide Recorded;
      RecordedMore(calls, given, m, a);
      HasRoom(given, m);
      if wsize != 0 || (put > 0 && mode != BAD && (mode != DONE || !finish)) {
        UpdateWindow();
      } else {
        Unused(m);
      }
      calls := calls + [Call(given, m, a)];
    }

    lemma HasRoom(given: seq<byte>, m: nat)
      requires Ready(BytesToBits(given), m)
      ensures put <= buf.Length && window != buf && Shape()
    {
      hide Held, FixedTable, Scratch, Gathered, Tables, BytesToBits, Shape, History;
    }

    method Begin(data: seq<byte>, out: array<byte>)
      requires Between() && out != window
      modifies this`input, this`next, this`buf, this`put, this`hist
      ensures input == data && next == 0 && buf == out && put == 0 && hist == a.out
      ensures Inv(BytesToBits(fed + data), |a.out| + out.Length) && WellFormed(a, BytesToBits(fed + data))
      ensures Recorded(calls) && a == Last(calls)
    {
      hide Held, Tight, FixedTable, Scratch, Gathered, Tables, BytesToBits, WellFormed, Shape, History, Recorded;
      HeldMore(hold, bits, fed, a, BytesToBits(fed), data);
      HeldBits(hold, bits, fed, a, BytesToBits(fed + data));
      assert fed + data[0..] == fed + data && a.out + out[..0] == a.out;
      TakeBuffers(data, out);
    }

    method TakeBuffers(data: seq<byte>, out: array<byte>)
      modifies this`input, this`next, this`buf, this`put, this`hist
      ensures input == data && next == 0 && buf == out && put == 0 && hist == a.out
    {
      input, next, buf, put := data, 0, out, 0;
      hist := a.out;
    }

    lemma Consumed(fed0: seq<byte>, t: seq<bool>, m: nat, data: seq<byte>)
      requires Ready(t, m) && input == data && t == BytesToBits(fed0 + data)
      ensures next <= |data| && fed == fed0 + data[..next] && a.out == hist + buf[..put] && put <= buf.Length
      ensures WellFormed(a, t) && mode == a.mode && Held(hold, bits, fed, a, t)
    {
      hide Held, FixedTable, Scratch, Gathered, Tables, BytesToBits, WellFormed, Shape, History;
      HeldBits(hold, bits, fed, a, t);
      BytesOfBits(fed + data[next..], fed0 + data);
      assert |fed| == |fed0| + next;
      assert (fed + data[next..])[..|fed|] == fed && (fed0 + data)[..|fed|] == fed0 + data[..next];
    }

    /** Where the window is not updated it need not be. */
    lemma Unused(m: nat)
      requires History(wsize, whave, wnext, window[..], hist) || Over(mode, wsize, whave, put)
      requires wsize == 0 && (put > 0 ==> mode in {DONE, BAD}) && put <= buf.Length && a.out == hist + buf[..put]
      ensures History(wsize, whave, wnext, window[..], a.out) || Over(mode, wsize, whave, 0)
    {
      if put == 0 { assert a.out == hist; }
    }
  }
}
