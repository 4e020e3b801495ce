/** All of it together: data through deflate_slow or deflate_fast, the encoder and inflate. */
module Compression {
  import opened Bits
  import opened BitStream
  import opened BitOutput
  import opened BlockOutput
  import opened StreamRoundTrip
  import opened Format
  import opened RollingHash
  import opened HashChains
  import opened LzWindow
  import opened LzTokens
  import opened Deflate
  import opened LzSearch
  import opened InflateSpec
  import opened InflateChunks
  import opened Inflate
  import Codec
  import opened Encoder
  import DeflateStored
  import BlockWriter

  lemma {:induction false} FitFurther(lzs: seq<LzBlock>, near: int, far: int)
    requires BlocksFit(lzs, near) && near <= far
    ensures BlocksFit(lzs, far)
  {
    hide AllInReach, SentOf, Expand;
    forall k | 0 <= k < |lzs| ensures BlockFits(SentOf(lzs[..k]), lzs[k], far) {
      assert BlockFits(SentOf(lzs[..k]), lzs[k], near);
    }
  }

  /** The bytes of the encoder's stream inflate to what its blocks stand for. */
  lemma StreamInflates(m: Maps, lzs: seq<LzBlock>, bs: seq<Block>, out: seq<byte>, n: nat)
    requires MapsOk(m) && Streams(m, lzs, bs, true, BytesToBits(out)) && BlocksFit(lzs, 32768) && AllFit(bs)
    requires |lzs| > 0 && |SentOf(lzs)| <= n
    ensures WellFormed(Start(), BytesToBits(out))
    ensures var b := Run(Start(), BytesToBits(out), n); b.mode == DONE && b.out == SentOf(lzs) && b.pos == 8 * |out|
  {
    hide MapsOk, BlocksFit, AllFit, SentOf, EmitAll, BlocksMade, WellFormed, BytesToBits, Run, Aligned;
    var b := Codec.Lossless(m, lzs, bs, 32768, n);
  }

  /** The last block, and no other, is marked as the last one, if the end has come. */
  ghost predicate Marked(lzs: seq<LzBlock>, done: bool) {
    (done ==> |lzs| > 0) && forall k :: 0 <= k < |lzs| ==> (lzs[k].last <==> done && k == |lzs| - 1)
  }

  lemma OnlyLast(was: seq<LzBlock>, now: seq<LzBlock>, done: bool)
    requires Marked(was, false) && |was| <= |now| && now[..|was|] == was
    requires forall k :: |was| <= k < |now| - 1 ==> !now[k].last
    requires done <==> |now| > |was| && now[|now| - 1].last
    ensures Marked(now, done)
  {
    assert forall k :: 0 <= k < |was| ==> now[k] == now[..|was|][k];
  }

  /** deflate_slow until it has finished, however often the output was full. */
  method DeflateAll(d: Deflater)
    requires d.Ready() && d.SlowReady() && d.Covered(d.w.strstart - d.Held())
    requires Marked(d.blocks, false) && d.Accounted() && d.Thorough()
    modifies d.Repr()
    ensures SentOf(d.blocks) == old(d.w.data + d.w.input) && BlocksFit(d.blocks, 32768) && Within(d.blocks, d.symMax)
    ensures Marked(d.blocks, true)
    ensures Evaluated(d.Z(), SentOf(d.blocks), TokensOf(d.blocks), d.finds, d.maxLazy)
  {
    hide BlocksFit, Within, SentOf, TokensOk, Evaluated, d.Accounted, d.Thorough;
    var state := NeedMore;
    while state == NeedMore
      invariant d.Ready() && d.SlowReady() && d.Covered(d.w.strstart - d.Held()) && d.Accounted() && d.Thorough()
      invariant d.w.data + d.w.input == old(d.w.data + d.w.input)
      invariant Marked(d.blocks, state != NeedMore)
      invariant state != NeedMore ==>
        d.w.input == [] && d.w.lookahead == 0 && d.syms == [] && d.w.blockStart == d.w.strstart && !d.matchAvailable
      decreases if state == NeedMore then 1 else 0, |d.w.input| + d.w.lookahead
    {
      ghost var was := d.blocks;
      state := d.DeflateSlow(Finish);
      OnlyLast(was, d.blocks, state != NeedMore);
    }
    d.Finished();
    d.Told();
    FitFurther(d.blocks, d.w.MaxDist(), 32768);
  }

  /** deflate_fast until it has finished, however often the output was full. */
  method DeflateAllFast(d: Deflater)
    requires d.Ready() && d.FastReady() && d.Covered(d.w.strstart)
    requires Marked(d.blocks, false) && d.FastAccounted() && d.FastThorough()
    modifies d.Repr()
    ensures SentOf(d.blocks) == old(d.w.data + d.w.input) && BlocksFit(d.blocks, 32768) && Within(d.blocks, d.symMax)
    ensures Marked(d.blocks, true)
    ensures Evaluated(d.FastZ(), SentOf(d.blocks), TokensOf(d.blocks), d.finds, d.maxLazy)
  {
    hide BlocksFit, Within, SentOf, TokensOk, Evaluated, d.FastAccounted, d.FastThorough;
    var state := NeedMore;
    while state == NeedMore
      invariant d.Ready() && d.FastReady() && d.Covered(d.w.strstart) && d.FastAccounted() && d.FastThorough()
      invariant d.w.data + d.w.input == old(d.w.data + d.w.input)
      invariant Marked(d.blocks, state != NeedMore)
      invariant state != NeedMore ==>
        d.w.input == [] && d.w.lookahead == 0 && d.syms == [] && d.w.blockStart == d.w.strstart
      decreases if state == NeedMore then 1 else 0, |d.w.input| + d.w.lookahead
    {
      ghost var was := d.blocks;
      state := d.DeflateFast(Finish);
      OnlyLast(was, d.blocks, state != NeedMore);
    }
    d.Finished();
    d.ToldFast();
    FitFurther(d.blocks, d.w.MaxDist(), 32768);
  }

  /** What deflate's parameters make of the search. */
  ghost function Tuning(windowBits: nat, memLevel: nat, lazy: nat, chain: nat, good: nat, nice: nat, filter: bool,
                        fast: bool): Search
  {
    var far := Pow2(windowBits) - MIN_LOOKAHEAD;
    if fast then Search(HashFor(memLevel), far, MIN_MATCH, nice, good, chain, false, UINT, true)
    else Search(HashFor(memLevel), far, lazy, nice, good, chain, filter, TOO_FAR, false)
  }

  /** The blocks of tokens that data becomes: they stand for it, and come from searches
      that found what was to be found. */
  method Blocks(data: seq<byte>, windowBits: nat, memLevel: nat, lazy: nat, chain: nat, good: nat, nice: nat,
                filter: bool, fast: bool, symMax: nat)
    returns (lzs: seq<LzBlock>, ghost finds: map<int, Find>)
    requires 9 <= windowBits <= 15 && 1 <= memLevel <= 9 && chain >= 4 && nice <= MAX_MATCH && lazy <= MAX_MATCH
    requires symMax >= 1
    ensures SentOf(lzs) == data && BlocksFit(lzs, 32768) && Within(lzs, symMax) && Marked(lzs, true)
    ensures Evaluated(Tuning(windowBits, memLevel, lazy, chain, good, nice, filter, fast), data, TokensOf(lzs), finds,
      lazy)
  {
    hide BlocksFit, Within, SentOf, TokensOk, Pow2, Evaluated, HashFor;
    var w := new Window(windowBits, memLevel, chain, good, nice);
    w.input := data;
    var d := new Deflater(w, lazy, filter, symMax);
    assert [] + data == data;
    if fast { DeflateAllFast(d); } else { DeflateAll(d); }
    lzs, finds := d.blocks, d.finds;
  }

  /** The stream of data, as one call after another of deflate with Z_FINISH makes it. */
  method Pack(data: seq<byte>, windowBits: nat, memLevel: nat, lazy: nat, chain: nat, good: nat, nice: nat,
              filter: bool, fast: bool)
    returns (packed: seq<byte>)
    requires 9 <= windowBits <= 15 && 1 <= memLevel <= 9 && chain >= 4 && nice <= MAX_MATCH && lazy <= MAX_MATCH
    ensures Inflates(packed, data)
  {
    hide BlocksFit, Within, SentOf, Streams, MapsOk, AllFit, BytesToBits, WellFormed, Run, Pow2;
    LitBufsize(memLevel);
    var lzs;
    ghost var finds, m, bs;
    lzs, finds := Blocks(data, windowBits, memLevel, lazy, chain, good, nice, filter, fast, Pow2(memLevel + 6) - 1);
    packed, m, bs := EncodeFixed(lzs, Pow2(memLevel + 6));
    StreamInflates(m, lzs, bs, packed, |data|);
  }

  ghost predicate Inflates(packed: seq<byte>, data: seq<byte>) {
    hide WellFormed;
    var s := BytesToBits(packed);
    WellFormed(Start(), s) && Run(Start(), s, |data|).mode == DONE && Run(Start(), s, |data|).out == data
  }

  /** One call of inflate with room for exactly the data. */
  method Unpack(packed: seq<byte>, ghost data: seq<byte>, n: nat) returns (back: seq<byte>, ret: Verdict)
    requires Inflates(packed, data) && n == |data|
    ensures back == data && ret == STREAM_END
  {
    hide BytesToBits, WellFormed, Run, Inflates, Recorded;
    var z := new Inflater();
    var out := new byte[n](_ => 0);
    ret := z.Inflate(packed, out, true);
    assert [] + packed == packed;
    OneCall(packed, data, z.calls, z.a);
    assert [] + out[..z.put] == out[..z.put];
    back := out[..z.put];
  }

  lemma OneCall(packed: seq<byte>, data: seq<byte>, calls: seq<Call>, a: State)
    requires Inflates(packed, data) && Recorded(calls) && calls == [Call(packed, |data|, a)]
    ensures a.mode == DONE && a.out == data
  {
    hide BytesToBits, WellFormed, Run;
    assert calls[..0] == [];
  }

  /** What goes through deflate with the strategy Z_FIXED comes back from inflate. */
  method ThereAndBack(data: seq<byte>, windowBits: nat, memLevel: nat, lazy: nat, chain: nat, good: nat, nice: nat,
                      filter: bool, fast: bool)
    returns (packed: seq<byte>, back: seq<byte>, ret: Verdict)
    requires 9 <= windowBits <= 15 && 1 <= memLevel <= 9 && chain >= 4 && nice <= MAX_MATCH && lazy <= MAX_MATCH
    ensures back == data && ret == STREAM_END
  {
    hide Inflates;
    packed := Pack(data, windowBits, memLevel, lazy, chain, good, nice, filter, fast);
    back, ret := Unpack(packed, data, |data|);
  }

  /** The stream of data, as one call after another of deflate with Z_FINISH makes it
      without compression, whatever room each call has for its output. */
  method PackStored(data: seq<byte>, windowBits: nat, bufSize: nat) returns (packed: seq<byte>)
    requires 9 <= windowBits <= 15 && bufSize >= 512
    ensures Inflates(packed, data)
  {
    hide MapsOk, EmitAll, MeaningAll, BytesToBits, Inflates, Pow2;
    var m := BlockWriter.StaticMaps();
    var s := new DeflateStored.Storer(windowBits, bufSize, m);
    s.input := data;
    assert [] + data == data;
    s.FinishAll();
    packed := s.out;
    StoredInflates(s.m, s.blocks, packed);
  }

  lemma StoredInflates(m: Maps, bs: seq<Block>, packed: seq<byte>)
    requires MapsOk(m) && |bs| > 0 && BlocksMade(m, bs) && forall k :: 0 <= k < |bs| ==> bs[k].Stored?
    requires BytesToBits(packed) == EmitAll(m, bs, true)
    ensures Inflates(packed, MeaningAll(bs))
  {
    hide MapsOk, BlocksMade, EmitAll, MeaningAll, WellFormed, Run;
    DeflateStored.BytesLength(packed);
    var s := EmitAll(m, bs, true);
    assert Aligned(s) == s;
    var b := InflateUndoesDeflate(m, bs, |MeaningAll(bs)|);
  }

  /** What goes through deflate without compression comes back from inflate. */
  method StoredThereAndBack(data: seq<byte>, windowBits: nat, bufSize: nat)
    returns (packed: seq<byte>, back: seq<byte>, ret: Verdict)
    requires 9 <= windowBits <= 15 && bufSize >= 512
    ensures back == data && ret == STREAM_END
  {
    hide Inflates;
    packed := PackStored(data, windowBits, bufSize);
    back, ret := Unpack(packed, data, |data|);
  }

  lemma LitBufsize(memLevel: nat)
    requires 1 <= memLevel <= 9
    ensures 128 <= Pow2(memLevel + 6) <= 32768
  {
    Pow2Values();
    Pow2Mono(7, memLevel + 6);
    Pow2Mono(memLevel + 6, 15);
  }
}
