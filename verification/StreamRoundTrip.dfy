/** Whole streams: inflate run on any sequence of blocks that trees.c can emit returns
the bytes the blocks stand for and stops at the end. */
module StreamRoundTrip {
  import opened Bits
  import opened Canonical
  import opened BitStream
  import opened BitOutput
  import opened Format
  import opened FixedCodes
  import opened InfTrees
  import opened InflateSpec
  import opened TreeCodes
  import opened TreeLengths
  import opened BlockOutput
  import opened RoundTrip

  datatype Block =
    | Stored(data: seq<byte>)
    | Fixed(ts: seq<Token>)
    | Dynamic(ts: seq<Token>, blcodes: nat, blLens: seq<nat>, ls: seq<nat>, ds: seq<nat>)

  /** The three bits that start a block. */
  function TypeBits(kind: nat, last: bool): seq<bool> {
    ToBits(2 * kind + (if last then 1 else 0), 3)
  }

  /** What the encoder makes: complete codes for everything it sends. */
  ghost predicate BlockMade(maps: Maps, out: seq<byte>, b: Block)
    requires MapsOk(maps)
  {
    match b
    case Stored(data) => |data| <= 0xffff
    case Fixed(ts) => ValidTokens(ts) && AllInReach(out, ts)
    case Dynamic(ts, blcodes, blLens, ls, ds) =>
      && ValidTokens(ts) && AllInReach(out, ts)
      && Announceable(blcodes, blLens, ls, ds) && Complete(ls) && Complete(ds)
      && ls[END_BLOCK] != 0 && AllHaveCodes(ls, ds, maps, ts)
  }

  /** The space inflate sets aside suffices for the tables of the block's codes. */
  ghost predicate TablesFit(b: Block) {
    b.Dynamic? ==> !TooBig(LENS, b.ls, 9) && !TooBig(DISTS, b.ds, 6)
  }

  /** The bits after the type of a block with codes. */
  ghost function CodedBits(maps: Maps, ls: seq<nat>, ds: seq<nat>, ts: seq<Token>): seq<bool>
    requires MapsOk(maps) && ValidTokens(ts)
  {
    TokensBits(ls, ds, maps, ts) + CodeBits(ls, END_BLOCK)
  }

  /** A stored block: padding to a byte, the length and its complement, the bytes. */
  ghost function StoredBits(sofar: seq<bool>, data: seq<byte>, last: bool): (r: seq<bool>)
    requires |data| <= 0xffff
    ensures sofar <= r
  {
    Aligned(sofar + TypeBits(0, last)) + (ToBits(|data|, 16) + ToBits(0xffff - |data|, 16)) + BytesToBits(data)
  }

  /** The stream sofar with a block added to it. */
  ghost function Emit(maps: Maps, sofar: seq<bool>, out: seq<byte>, b: Block, last: bool): (r: seq<bool>)
    requires MapsOk(maps) && BlockMade(maps, out, b)
    ensures sofar <= r
  {
    match b
    case Stored(data) => StoredBits(sofar, data, last)
    case Fixed(ts) =>
      sofar + TypeBits(1, last) + CodedBits(maps, FixedLitLens(), FixedDistLens(), ts)
    case Dynamic(ts, blcodes, blLens, ls, ds) =>
      sofar + TypeBits(2, last) + HeaderBits(blcodes, blLens, ls, ds) + CodedBits(maps, ls, ds, ts)
  }

  /** out with what the block stands for appended. */
  function Meaning(out: seq<byte>, b: Block): seq<byte> {
    match b
    case Stored(data) => out + data
    case Fixed(ts) => Expand(out, ts)
    case Dynamic(ts, _, _, _, _) => Expand(out, ts)
  }

  // ------------------------------------------------------------- single blocks

  lemma PrefixAt(s: seq<bool>, a: seq<bool>, b: seq<bool>)
    requires a + b <= s
    ensures a <= s && At(s, |a|, b)
  {
    assert (a + b)[|a|..] == b;
    assert s[..|a + b|] == a + b;
    assert s[|a|..|a| + |b|] == s[..|a + b|][|a|..];
    assert s[..|a|] == s[..|a + b|][..|a|];
  }

  lemma TypeGoesOn(a: State, s: seq<bool>, m: nat, kind: nat, last: bool)
    requires WellFormed(a, s) && a.mode == TYPE && !a.last && kind <= 2
    requires At(s, a.pos, TypeBits(kind, last))
    ensures var b := a.(last := last, pos := a.pos + 3);
      Step(a, s, m) == Some(if kind == 0 then b.(mode := STORED)
                            else if kind == 1 then b.(mode := LEN, ls := FixedLitLens(), ds := FixedDistLens())
                            else b.(mode := TABLE))
  {
    hide WellFormed, FixedLitLens, FixedDistLens, Field, Pow2;
    var v: nat := 2 * kind + (if last then 1 else 0);
    assert v / 2 == kind && (v % 2 == 1 <==> last);
    assert ToBits(v, 3) == [last] + ToBits(kind, 2) by { assert ToBits(v, 3) == [v % 2 == 1] + ToBits(v / 2, 2); }
    AtParts(s, a.pos, [last], ToBits(kind, 2));
    assert s[a.pos..a.pos + 1][0] == last;
    Pow2Values();
    FieldAt(s, a.pos + 1, kind, 2);
    AtEnd(s, a.pos + 1, ToBits(kind, 2));
    assert Step(a, s, m) == TypeStep(a, s);
  }

  /** Stored bytes are copied one for one. */
  lemma {:induction false} CopyStored(a: State, s: seq<bool>, m: nat, data: seq<byte>) returns (b: State)
    requires WellFormed(a, s) && a.mode == COPY && a.length == |data| && At(s, a.pos, BytesToBits(data))
    requires |a.out| + |data| <= m
    ensures Leads(a, b, s, m)
    ensures b == a.(mode := TYPE, pos := a.pos + 8 * |data|, out := a.out + data, length := 0)
    decreases |data|
  {
    hide WellFormed, Field, Run, At, Pow2, ToBits;
    if |data| == 0 {
      b := Step(a, s, m).value;
      LeadsOne(a, b, s, m);
      assert a.out + data == a.out;
    } else {
      AtParts(s, a.pos, ToBits(data[0], 8), BytesToBits(data[1..]));
      Pow2Values();
      FieldAt(s, a.pos, data[0], 8);
      AtEnd(s, a.pos, ToBits(data[0], 8));
      assert Step(a, s, m) == CopyStep(a, s, m);
      var x := Step(a, s, m).value;
      LeadsOne(a, x, s, m);
      b := CopyStored(x, s, m, data[1..]);
      assert a.out + [data[0]] + data[1..] == a.out + data;
    }
  }

  lemma LengthsGoOn(a: State, s: seq<bool>, m: nat, len: nat)
    requires WellFormed(a, s) && a.mode == STORED && a.pos % 8 == 0 && len <= 0xffff
    requires At(s, a.pos, ToBits(len, 16) + ToBits(0xffff - len, 16))
    ensures Step(a, s, m) == Some(a.(mode := COPY, length := len, pos := a.pos + 32))
  {
    hide WellFormed, Field, Pow2, ToBits, At;
    AtParts(s, a.pos, ToBits(len, 16), ToBits(0xffff - len, 16));
    Pow2Values();
    FieldAt(s, a.pos, len, 16);
    FieldAt(s, a.pos + 16, 0xffff - len, 16);
    AtEnd(s, a.pos + 16, ToBits(0xffff - len, 16));
    assert Step(a, s, m) == StoredStep(a, s);
  }

  lemma AlignGoesOn(a: State, s: seq<bool>, m: nat) returns (b: State)
    requires WellFormed(a, s) && a.mode == STORED && Align(a.pos) <= |s|
    ensures Leads(a, b, s, m) && b == a.(pos := Align(a.pos))
  {
    hide WellFormed, Run;
    b := a;
    if a.pos % 8 != 0 {
      assert Step(a, s, m) == StoredStep(a, s);
      b := Step(a, s, m).value;
      LeadsOne(a, b, s, m);
    }
  }

  lemma StoredDecodes(maps: Maps, a: State, s: seq<bool>, m: nat, sofar: seq<bool>, data: seq<byte>, last: bool)
    returns (b: State)
    requires MapsOk(maps) && |data| <= 0xffff && |a.out| + |data| <= m
    requires WellFormed(a, s) && a.mode == TYPE && !a.last && a.pos == |sofar|
    requires Emit(maps, sofar, a.out, Stored(data), last) <= s
    ensures Leads(a, b, s, m) && b.mode == TYPE && b.last == last && b.out == a.out + data
    ensures b.pos == |Emit(maps, sofar, a.out, Stored(data), last)|
  {
    hide WellFormed, Run, At, ToBits, BytesToBits, Step, MapsOk;
    var pre := sofar + TypeBits(0, last);
    var l2 := ToBits(|data|, 16) + ToBits(0xffff - |data|, 16);
    PrefixAt(s, Aligned(pre) + l2, BytesToBits(data));
    PrefixAt(s, Aligned(pre), l2);
    assert pre <= s;
    PrefixAt(s, sofar, TypeBits(0, last));
    TypeGoesOn(a, s, m, 0, last);
    var x := Step(a, s, m).value;
    LeadsOne(a, x, s, m);
    assert |Aligned(pre)| == Align(|pre|);
    var y := AlignGoesOn(x, s, m);
    LengthsGoOn(y, s, m, |data|);
    var z := Step(y, s, m).value;
    LeadsOne(y, z, s, m);
    b := CopyStored(z, s, m, data);
  }

  /** Literals, matches and the end of block code, in whatever codes are in force. */
  lemma CodedDecodes(maps: Maps, a: State, s: seq<bool>, m: nat, ts: seq<Token>) returns (b: State)
    requires MapsOk(maps) && ValidTokens(ts) && AllInReach(a.out, ts) && |Expand(a.out, ts)| <= m
    requires WellFormed(a, s) && a.mode == LEN && END_BLOCK < |a.ls| && a.ls[END_BLOCK] != 0
    requires AllHaveCodes(a.ls, a.ds, maps, ts) && At(s, a.pos, CodedBits(maps, a.ls, a.ds, ts))
    ensures Leads(a, b, s, m) && b.mode == TYPE && b.last == a.last && b.out == Expand(a.out, ts)
    ensures b.pos == a.pos + |CodedBits(maps, a.ls, a.ds, ts)|
  {
    hide WellFormed, Run, At, CodeBits, TokensBits, Expand, AllInReach, AllHaveCodes, ValidTokens, MapsOk;
    AtParts(s, a.pos, TokensBits(a.ls, a.ds, maps, ts), CodeBits(a.ls, END_BLOCK));
    var x := TokensDecode(a, s, m, maps, ts);
    b := EndDecodes(x, s, m);
    CodeBitsLength(a.ls, END_BLOCK);
  }

  lemma FixedLengths()
    ensures FixedLitLens()[END_BLOCK] != 0
    ensures forall i :: 0 <= i < 288 ==> FixedLitLens()[i] != 0
    ensures forall i :: 0 <= i < 32 ==> FixedDistLens()[i] != 0
  {
  }

  lemma FixedHasCodes(maps: Maps, ts: seq<Token>)
    requires MapsOk(maps) && ValidTokens(ts)
    ensures AllHaveCodes(FixedLitLens(), FixedDistLens(), maps, ts)
  {
    hide FixedLitLens, FixedDistLens, LengthMap, DistMap;
    FixedLengths();
    forall i | 0 <= i < |ts|
      ensures HasCodes(FixedLitLens(), FixedDistLens(), maps, ts[i])
    {
      if ts[i].Match? {
        LengthFacts(maps, ts[i].len - 3);
        DistFacts(maps, ts[i].dist - 1);
      }
    }
  }

  lemma FixedDecodes(maps: Maps, a: State, s: seq<bool>, m: nat, sofar: seq<bool>, ts: seq<Token>, last: bool)
    returns (b: State)
    requires MapsOk(maps) && ValidTokens(ts) && AllInReach(a.out, ts) && |Expand(a.out, ts)| <= m
    requires WellFormed(a, s) && a.mode == TYPE && !a.last && a.pos == |sofar|
    requires Emit(maps, sofar, a.out, Fixed(ts), last) <= s
    ensures Leads(a, b, s, m) && b.mode == TYPE && b.last == last && b.out == Expand(a.out, ts)
    ensures b.pos == |Emit(maps, sofar, a.out, Fixed(ts), last)|
  {
    hide WellFormed, Run, At, ToBits, Step, MapsOk, CodedBits, FixedLitLens, FixedDistLens, Expand, ValidTokens;
    hide AllInReach, AllHaveCodes;
    PrefixAt(s, sofar + TypeBits(1, last), CodedBits(maps, FixedLitLens(), FixedDistLens(), ts));
    PrefixAt(s, sofar, TypeBits(1, last));
    TypeGoesOn(a, s, m, 1, last);
    var x := Step(a, s, m).value;
    LeadsOne(a, x, s, m);
    FixedHasCodes(maps, ts);
    FixedLengths();
    b := CodedDecodes(maps, x, s, m, ts);
  }

  lemma DynamicDecodes(maps: Maps, a: State, s: seq<bool>, m: nat, sofar: seq<bool>, blk: Block, last: bool)
    returns (b: State)
    requires MapsOk(maps) && blk.Dynamic? && BlockMade(maps, a.out, blk) && TablesFit(blk)
    requires |Expand(a.out, blk.ts)| <= m
    requires WellFormed(a, s) && a.mode == TYPE && !a.last && a.pos == |sofar|
    requires Emit(maps, sofar, a.out, blk, last) <= s
    ensures Leads(a, b, s, m) && b.mode == TYPE && b.last == last && b.out == Expand(a.out, blk.ts)
    ensures b.pos == |Emit(maps, sofar, a.out, blk, last)|
  {
    hide WellFormed, Run, At, ToBits, Step, MapsOk, CodedBits, HeaderBits, Expand, ValidTokens;
    hide AllInReach, AllHaveCodes, Buildable, StoredBits, Complete, TooBig, FixedLitLens, FixedDistLens;
    var ls, ds, ts := blk.ls, blk.ds, blk.ts;
    var h := HeaderBits(blk.blcodes, blk.blLens, ls, ds);
    PrefixAt(s, sofar + TypeBits(2, last) + h, CodedBits(maps, ls, ds, ts));
    PrefixAt(s, sofar + TypeBits(2, last), h);
    PrefixAt(s, sofar, TypeBits(2, last));
    TypeGoesOn(a, s, m, 2, last);
    var x := Step(a, s, m).value;
    LeadsOne(a, x, s, m);
    var y := HeaderDecodes(x, s, m, blk.blcodes, blk.blLens, ls, ds);
    CompleteBuildable(LENS, ls, 9);
    CompleteBuildable(DISTS, ds, 6);
    b := CodedDecodes(maps, y, s, m, ts);
  }

  lemma CompleteBuildable(t: CodeType, lens: seq<nat>, bits: nat)
    requires Complete(lens)
    ensures Buildable(t, lens, bits) <==> !TooBig(t, lens, bits)
  {
  }

  /** Any block is decoded to what it stands for, wherever in the stream it is. */
  lemma BlockDecodes(maps: Maps, a: State, s: seq<bool>, m: nat, sofar: seq<bool>, blk: Block, last: bool)
    returns (b: State)
    requires MapsOk(maps) && BlockMade(maps, a.out, blk) && TablesFit(blk) && |Meaning(a.out, blk)| <= m
    requires WellFormed(a, s) && a.mode == TYPE && !a.last && a.pos == |sofar|
    requires Emit(maps, sofar, a.out, blk, last) <= s
    ensures Leads(a, b, s, m) && b.mode == TYPE && b.last == last && b.out == Meaning(a.out, blk)
    ensures b.pos == |Emit(maps, sofar, a.out, blk, last)|
  {
    hide WellFormed, Run, Emit, MapsOk, Expand;
    match blk
    case Stored(data) => b := StoredDecodes(maps, a, s, m, sofar, data, last);
    case Fixed(ts) => b := FixedDecodes(maps, a, s, m, sofar, ts, last);
    case Dynamic(_, _, _, _, _) => b := DynamicDecodes(maps, a, s, m, sofar, blk, last);
  }

  // ------------------------------------------------------------- whole streams

  /** What a sequence of blocks stands for. */
  function MeaningAll(bs: seq<Block>): seq<byte> {
    if |bs| == 0 then [] else Meaning(MeaningAll(bs[..|bs| - 1]), bs[|bs| - 1])
  }

  ghost predicate BlocksMade(maps: Maps, bs: seq<Block>)
    requires MapsOk(maps)
  {
    forall k :: 0 <= k < |bs| ==> BlockMade(maps, MeaningAll(bs[..k]), bs[k])
  }

  ghost predicate AllFit(bs: seq<Block>) {
    forall k :: 0 <= k < |bs| ==> TablesFit(bs[k])
  }

  lemma BlocksMadePrefix(maps: Maps, bs: seq<Block>, n: nat)
    requires MapsOk(maps) && BlocksMade(maps, bs) && n <= |bs|
    ensures BlocksMade(maps, bs[..n])
  {
    hide MapsOk, BlockMade, MeaningAll;
    forall k | 0 <= k < n
      ensures BlockMade(maps, MeaningAll(bs[..n][..k]), bs[..n][k])
    {
      assert bs[..n][..k] == bs[..k];
    }
  }

  /** The stream of all blocks, the final one marked as such if close is set. */
  ghost function EmitAll(maps: Maps, bs: seq<Block>, close: bool): seq<bool>
    requires MapsOk(maps) && BlocksMade(maps, bs)
    decreases |bs|
  {
    hide MapsOk, BlockMade, Emit, Meaning;
    if |bs| == 0 then []
    else
      BlocksMadePrefix(maps, bs, |bs| - 1);
      assert BlockMade(maps, MeaningAll(bs[..|bs| - 1]), bs[|bs| - 1]);
      Emit(maps, EmitAll(maps, bs[..|bs| - 1], false), MeaningAll(bs[..|bs| - 1]), bs[|bs| - 1], close)
  }

  /** One more block after blocks none of which is the last. */
  lemma EmitMore(maps: Maps, bs: seq<Block>, b: Block, last: bool)
    requires MapsOk(maps) && BlocksMade(maps, bs) && BlockMade(maps, MeaningAll(bs), b)
    ensures BlocksMade(maps, bs + [b]) && MeaningAll(bs + [b]) == Meaning(MeaningAll(bs), b)
    ensures EmitAll(maps, bs + [b], last) == Emit(maps, EmitAll(maps, bs, false), MeaningAll(bs), b, last)
  {
    hide MapsOk, BlockMade, Emit, Meaning;
    var more := bs + [b];
    assert more[..|bs|] == bs;
    forall k | 0 <= k < |more| ensures BlockMade(maps, MeaningAll(more[..k]), more[k]) {
      if k < |bs| { assert more[..k] == bs[..k]; }
    }
  }

  /** A block's stream does not depend on how much of what precedes it is out already. */
  lemma EmitShift(maps: Maps, pre: seq<bool>, s: seq<bool>, out: seq<byte>, b: Block, last: bool)
    requires MapsOk(maps) && BlockMade(maps, out, b) && |pre| % 8 == 0
    ensures Emit(maps, pre + s, out, b, last) == pre + Emit(maps, s, out, b, last)
  {
    hide MapsOk, BytesToBits, ToBits, CodedBits, HeaderBits, FixedLitLens, FixedDistLens, Aligned, TypeBits;
    hide ValidTokens, AllInReach;
    match b {
      case Stored(data) =>
        Glue(pre, s, TypeBits(0, last));
        AlignedShift(pre, s + TypeBits(0, last));
        Glue(pre, Aligned(s + TypeBits(0, last)), ToBits(|data|, 16) + ToBits(0xffff - |data|, 16));
        Glue(pre, Aligned(s + TypeBits(0, last)) + (ToBits(|data|, 16) + ToBits(0xffff - |data|, 16)),
          BytesToBits(data));
      case Fixed(ts) =>
        ShiftThree(pre, s, TypeBits(1, last), CodedBits(maps, FixedLitLens(), FixedDistLens(), ts), []);
      case Dynamic(ts, blcodes, blLens, ls, ds) =>
        ShiftThree(pre, s, TypeBits(2, last), HeaderBits(blcodes, blLens, ls, ds), CodedBits(maps, ls, ds, ts));
    }
  }

  lemma ShiftThree(pre: seq<bool>, s: seq<bool>, t: seq<bool>, h: seq<bool>, c: seq<bool>)
    ensures pre + s + t + h == pre + (s + t + h) && pre + s + t + h + c == pre + (s + t + h + c)
  {
  }

  lemma AlignedShift(pre: seq<bool>, s: seq<bool>)
    requires |pre| % 8 == 0
    ensures Aligned(pre + s) == pre + Aligned(s)
  {
    assert |pre + s| % 8 == |s| % 8;
  }

  lemma {:induction false} BlocksDecode(maps: Maps, s: seq<bool>, m: nat, bs: seq<Block>, close: bool)
    returns (b: State)
    requires MapsOk(maps) && BlocksMade(maps, bs) && AllFit(bs) && |MeaningAll(bs)| <= m
    requires EmitAll(maps, bs, close) <= s && WellFormed(Start(), s)
    ensures Leads(Start(), b, s, m) && b.mode == TYPE && b.out == MeaningAll(bs)
    ensures b.pos == |EmitAll(maps, bs, close)| && b.last == (close && |bs| > 0)
    decreases |bs|
  {
    hide WellFormed, Run, Emit, MapsOk, BlockMade, TablesFit, Meaning;
    if |bs| == 0 {
      b := Start();
    } else {
      var n := |bs| - 1;
      BlocksMadePrefix(maps, bs, n);
      assert BlockMade(maps, MeaningAll(bs[..n]), bs[n]);
      MeaningGrows(MeaningAll(bs[..n]), bs[n]);
      var x := BlocksDecode(maps, s, m, bs[..n], false);
      b := BlockDecodes(maps, x, s, m, EmitAll(maps, bs[..n], false), bs[n], close);
    }
  }

  lemma MeaningGrows(out: seq<byte>, b: Block)
    ensures |out| <= |Meaning(out, b)|
  {
  }

  /** The law of the codec: for all blocks, inflating the finished stream yields exactly
      the bytes the blocks stand for, ends in DONE and consumes the whole stream. */
  lemma InflateUndoesDeflate(maps: Maps, bs: seq<Block>, m: nat) returns (b: State)
    requires MapsOk(maps) && |bs| > 0 && BlocksMade(maps, bs) && AllFit(bs) && |MeaningAll(bs)| <= m
    ensures var s := Aligned(EmitAll(maps, bs, true));
      WellFormed(Start(), s) && Run(Start(), s, m) == b
      && b.mode == DONE && b.out == MeaningAll(bs) && b.pos == |s|
  {
    hide WellFormed, MapsOk, BlocksMade, AllFit, EmitAll, MeaningAll;
    var s := Aligned(EmitAll(maps, bs, true));
    StartWellFormed(s);
    var x := BlocksDecode(maps, s, m, bs, true);
    b := Step(x, s, m).value;
    assert Step(x, s, m) == TypeStep(x, s);
    LeadsOne(x, b, s, m);
    assert Run(b, s, m) == b;
  }
}
