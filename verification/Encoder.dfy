/** deflate.c and trees.c together: the blocks that the compression loops record become the
bytes given out. */
module Encoder {
  import opened BitStream
  import opened BitOutput
  import opened Format
  import opened TreeCodes
  import opened BlockOutput
  import opened BlockCost
  import opened BlTree
  import opened BlockWriter
  import opened RoundTrip
  import opened StreamRoundTrip
  import opened LzTokens
  import opened InflateSpec
  import opened Codec

  /** The bits s are the stream of the blocks lzs, each encoded as bs says. */
  ghost predicate Streams(m: Maps, lzs: seq<LzBlock>, bs: seq<Block>, closed: bool, s: seq<bool>)
    requires MapsOk(m)
  {
    BlocksMade(m, bs) && AllEncoded(m, lzs, bs) && MeaningAll(bs) == SentOf(lzs)
    && s == if closed then Aligned(EmitAll(m, bs, true)) else EmitAll(m, bs, false)
  }

  lemma NothingStreams(m: Maps)
    requires MapsOk(m)
    ensures Streams(m, [], [], false, [])
  {
    hide MapsOk;
  }

  /** One more block behind what is out and what is pending. */
  lemma StreamsMore(m: Maps, lzs: seq<LzBlock>, bs: seq<Block>, pre: seq<bool>, s: seq<bool>, lz: LzBlock, blk: Block)
    requires MapsOk(m) && Streams(m, lzs, bs, false, pre + s) && |pre| % 8 == 0
    requires Encodes(m, SentOf(lzs), lz, blk) && Meaning(SentOf(lzs), blk) == Expand(SentOf(lzs), lz.ts)
    ensures BlockMade(m, SentOf(lzs), blk)
    ensures var e := Emit(m, s, SentOf(lzs), blk, lz.last);
      Streams(m, lzs + [lz], bs + [blk], lz.last, pre + (if lz.last then Aligned(e) else e))
  {
    hide MapsOk, BlockMade, Emit, Meaning, Expand, EmitAll, BlocksMade, Aligned;
    EmitMore(m, bs, blk, lz.last);
    EmitShift(m, pre, s, SentOf(lzs), blk, lz.last);
    AlignedShift(pre, Emit(m, s, SentOf(lzs), blk, lz.last));
    SentMore(lzs, lz);
    EncodedMore(m, lzs, bs, lz, blk);
  }

  lemma SentMore(lzs: seq<LzBlock>, lz: LzBlock)
    ensures SentOf(lzs + [lz]) == Expand(SentOf(lzs), lz.ts)
  {
    hide Expand;
    assert (lzs + [lz])[..|lzs|] == lzs;
  }

  lemma EncodedMore(m: Maps, lzs: seq<LzBlock>, bs: seq<Block>, lz: LzBlock, blk: Block)
    requires MapsOk(m) && AllEncoded(m, lzs, bs) && Encodes(m, SentOf(lzs), lz, blk)
    ensures AllEncoded(m, lzs + [lz], bs + [blk])
  {
    hide MapsOk, Encodes, SentOf;
    forall k | 0 <= k < |bs + [blk]| ensures Encodes(m, SentOf((lzs + [lz])[..k]), (lzs + [lz])[k], (bs + [blk])[k]) {
      if k < |bs| { assert (lzs + [lz])[..k] == lzs[..k]; } else { assert (lzs + [lz])[..k] == lzs; }
    }
  }

  lemma PlannedOk(w: Writer, out: seq<byte>, dyn: Block, maxBlindex: nat)
    requires Planned(w, out, dyn, maxBlindex)
    ensures w.Shape() && w.StaticOk() && w.o.Valid() && dyn.Dynamic? && BlockMade(w.m, out, dyn) && dyn.ts == w.ts
  {
    hide MapsOk, Coded, DistCoded, SymbolsAt, BlockMade;
  }

  /** Whichever encoding was chosen, it stands for the block. */
  lemma ChosenEncodes(m: Maps, out: seq<byte>, lz: LzBlock, blk: Block, dyn: Block, kind: nat)
    requires MapsOk(m) && BlockMade(m, out, blk) && dyn.Dynamic? && dyn.ts == lz.ts && (kind == 0 ==> lz.buf)
    requires blk == match kind case 0 => Stored(lz.text) case 1 => Fixed(lz.ts) case _ => dyn
    ensures Encodes(m, out, lz, blk)
  {
    hide MapsOk, BlockMade;
  }

  /** The output side of deflate_state and the stream. */
  class Encoder {
    const w: Writer
    var out: seq<byte>
    /** Blocks flushed so far, as recorded and as encoded. */
    ghost var lzs: seq<LzBlock>
    ghost var bs: seq<Block>
    ghost var closed: bool

    /** Everything given out or pending is the blocks one after another. */
    ghost predicate Valid()
      reads this, w, w.o, w.o.pending_buf, w.b, w.ltree, w.dtree, w.blTree, w.sltree, w.sdtree
    {
      w.Valid() && w.o.pending_buf.Length == 4 * w.symBase
      && Streams(w.m, lzs, bs, closed, BytesToBits(out) + w.o.Stream())
    }

    constructor (litBufsize: nat)
      requires 128 <= litBufsize <= 32768
      ensures Valid() && w.ts == [] && lzs == [] && bs == [] && out == [] && !closed && w.o.pending == 0
      ensures w.o.bi_valid <= 7
      ensures w.symBase == litBufsize && w.symEnd == 3 * (litBufsize - 1)
      ensures fresh(w) && fresh(w.b) && fresh(w.b.heap) && fresh(w.b.depth) && fresh(w.b.blCount)
      ensures fresh(w.ltree) && fresh(w.dtree) && fresh(w.blTree) && fresh(w.o) && fresh(w.o.pending_buf)
    {
      w := new Writer(litBufsize);
      out := [];
      lzs, bs, closed := [], [], false;
      new;
      NothingStreams(w.m);
    }

    /** flush_pending, with whatever room there is. */
    method Drain(room: nat)
      requires Valid() && w.ts == [] && (w.o.bi_valid >= 8 ==> w.o.pending + 2 <= w.o.pending_buf.Length)
      modifies this`out, w.o, w.o.pending_buf
      ensures Valid() && w.o.bi_valid <= 7 && old(out) <= out && |out| <= |old(out)| + room
      ensures w.o.pending_buf == old(w.o.pending_buf)
      ensures old(8 * w.o.pending + w.o.bi_valid) <= 8 * room + 7 ==> w.o.pending == 0
    {
      hide Streams, BytesToBits, MapsOk, Coded, DistCoded, Tallies, LitFreq, DistFreq;
      var given := FlushPending(w.o, room);
      BytesToBitsConcat(out, given);
      Glue(BytesToBits(out), BytesToBits(given), w.o.Stream());
      NoSymbols(w.o.pending_buf[..], w.symBase);
      out := out + given;
    }

    /** The tokens of the next block into the symbol buffer, one by one. */
    method TallyAll(ts: seq<Token>)
      requires w.Valid() && w.ts == [] && 3 * |ts| <= w.symEnd && w.o.pending <= w.symBase && SymsOk(ts, 32768)
      modifies w`symNext, w`ts, w.o.pending_buf, w.ltree, w.dtree
      ensures w.Valid() && w.ts == ts && w.o.Stream() == old(w.o.Stream())
    {
      hide w.Shape, w.StaticOk, SymbolsAt, Tallies, Fresh, BytesToBits, MapsOk;
      for k := 0 to |ts|
        invariant w.Valid() && w.ts == ts[..k] && w.o.Stream() == old(w.o.Stream())
      {
        var flush;
        match ts[k]
        case Lit(c) => flush := w.TallyLit(c);
        case Match(len, dist) => flush := w.TallyDist(dist, len - 3);
      }
    }

    /** What _tr_flush_block does first: the trees of a block, and what they would cost. */
    method Prepare(ghost lz: LzBlock) returns (maxBlindex: nat, ghost dyn: Block)
      requires Valid() && !closed && w.ts == lz.ts && BlockFits(SentOf(lzs), lz, 32768)
      modifies w`lMax, w`dMax, w.b, w.b.heap, w.b.depth, w.b.blCount, w.ltree, w.dtree, w.blTree
      ensures Planned(w, SentOf(lzs), dyn, maxBlindex) && w.o.Stream() == old(w.o.Stream())
    {
      hide Streams, MapsOk, Tallies, SymbolsAt, BytesToBits, Planned, SentOf, AllInReach, SymsOk, Expand;
      maxBlindex, dyn := PlanBlock(w, SentOf(lzs));
    }

    /** What it does then: the block in the cheapest encoding.  A dynamic block must not
        overtake the symbols that are still to be sent. */
    method Send(lz: LzBlock, fixedOnly: bool, maxBlindex: nat, ghost dyn: Block)
      requires Planned(w, SentOf(lzs), dyn, maxBlindex) && w.ts == lz.ts && BlockFits(SentOf(lzs), lz, 32768)
      requires !closed && Streams(w.m, lzs, bs, false, BytesToBits(out) + w.o.Stream())
      requires w.o.pending == 0 && w.o.bi_valid <= 7 && w.o.pending_buf.Length == 4 * w.symBase
      requires Choose(w.b.optLen, w.b.staticLen, |lz.text|, lz.buf, fixedOnly) == 2 ==>
        OverlaySafe(dyn.ls, dyn.ds, w.m, w.ts,
          |w.o.Stream()| + 3 + |HeaderBits(dyn.blcodes, dyn.blLens, dyn.ls, dyn.ds)|, w.symBase)
      modifies this`lzs, this`bs, this`closed
      modifies w`symNext, w`ts, w.b`optLen, w.b`staticLen, w.ltree, w.dtree, w.blTree, w.o, w.o.pending_buf
      ensures Valid() && w.ts == [] && lzs == old(lzs) + [lz] && closed == lz.last
      ensures w.o.pending_buf == old(w.o.pending_buf)
      ensures w.o.bi_valid >= 8 ==> w.o.pending + 2 <= w.o.pending_buf.Length
      ensures |bs| == |old(bs)| + 1 && bs[..|old(bs)|] == old(bs)
      ensures bs[|old(bs)|].Dynamic? ==> old(Choose(w.b.optLen, w.b.staticLen, |lz.text|, lz.buf, fixedOnly)) == 2
    {
      hide Streams, MapsOk, Tallies, SymbolsAt, BytesToBits, Planned, SentOf, AllInReach, SymsOk, Expand, Emit;
      hide BlockMade, Aligned;
      hide OverlaySafe, HeaderBits, Coded, DistCoded, LitFreq, DistFreq, Meaning, Fresh;
      PlannedOk(w, SentOf(lzs), dyn, maxBlindex);
      ghost var s, text := w.o.Stream(), SentOf(lzs);
      ghost var kind := Choose(w.b.optLen, w.b.staticLen, |lz.text|, lz.buf, fixedOnly);
      ghost var blk := WriteBlock(w, lz.buf, lz.text, lz.last, fixedOnly, maxBlindex, dyn, text);
      ChosenEncodes(w.m, text, lz, blk, dyn, kind);
      StreamsMore(w.m, lzs, bs, BytesToBits(out), s, lz, blk);
      lzs, bs, closed := lzs + [lz], bs + [blk], lz.last;
    }

    /** Given out completely, the bytes are the whole stream. */
    lemma Delivered()
      requires Valid() && closed && w.o.pending == 0 && w.o.bi_valid <= 7
      ensures Streams(w.m, lzs, bs, true, BytesToBits(out))
    {
      hide MapsOk, BlocksMade, AllEncoded, EmitAll, BytesToBits;
      var s := Aligned(EmitAll(w.m, bs, true));
      assert w.o.bi_valid == 0 && w.o.Stream() == [];
      assert BytesToBits(out) + [] == BytesToBits(out);
    }

    /** One block with the strategy Z_FIXED, where nothing can overtake. */
    method SendFixed(lz: LzBlock)
      requires Valid() && !closed && w.ts == [] && w.o.pending == 0 && w.o.bi_valid <= 7
      requires BlockFits(SentOf(lzs), lz, 32768) && 3 * |lz.ts| <= w.symEnd && AllFit(bs)
      modifies this, w, w.b, w.b.heap, w.b.depth, w.b.blCount, w.ltree, w.dtree, w.blTree, w.o, w.o.pending_buf
      ensures Valid() && w.ts == [] && lzs == old(lzs) + [lz] && closed == lz.last && w.o.pending == 0
      ensures w.o.bi_valid <= 7
      ensures w.o.pending_buf == old(w.o.pending_buf) && AllFit(bs)
    {
      hide Streams, MapsOk, Tallies, SymbolsAt, BytesToBits, Planned, SentOf, AllInReach, Expand, Choose, Fresh, Coded;
      hide DistCoded;
      hide LitFreq, DistFreq;
      ghost var was := bs;
      TallyAll(lz.ts);
      var maxBlindex;
      ghost var dyn;
      maxBlindex, dyn := Prepare(lz);
      ChooseFixed(w.b.optLen, w.b.staticLen, |lz.text|, lz.buf);
      Send(lz, true, maxBlindex, dyn);
      FitMore(was, bs);
      Drain(w.o.pending + 2);
    }
  }

  lemma FitMore(bs: seq<Block>, more: seq<Block>)
    requires AllFit(bs) && |more| == |bs| + 1 && more[..|bs|] == bs && !more[|bs|].Dynamic?
    ensures AllFit(more)
  {
    assert forall k :: 0 <= k < |bs| ==> more[k] == more[..|bs|][k];
  }

  lemma ChooseFixed(optLen: int, staticLen: int, storedLen: nat, buf: bool)
    ensures Choose(optLen, staticLen, storedLen, buf, true) != 2
  {
  }

  /** Recorded blocks, the last of them marked, with the strategy Z_FIXED: the bytes are
      their stream, and every block is one that inflate has room for. */
  method EncodeFixed(lzs: seq<LzBlock>, litBufsize: nat) returns (out: seq<byte>, ghost m: Maps, ghost bs: seq<Block>)
    requires 128 <= litBufsize <= 32768 && BlocksFit(lzs, 32768) && Within(lzs, litBufsize - 1)
    requires |lzs| > 0 && forall k :: 0 <= k < |lzs| ==> (lzs[k].last <==> k == |lzs| - 1)
    ensures MapsOk(m) && Streams(m, lzs, bs, true, BytesToBits(out)) && AllFit(bs)
  {
    hide Streams, MapsOk, BytesToBits, SentOf, BlockFits, AllFit;
    var e := new Encoder(litBufsize);
    NoneFit();
    var k := 0;
    while k < |lzs|
      invariant 0 <= k <= |lzs| && e.Valid() && e.lzs == lzs[..k] && e.closed == (k == |lzs|) && AllFit(e.bs)
      invariant e.w.ts == [] && e.w.o.pending == 0 && e.w.o.bi_valid <= 7
      invariant fresh(e.w.b.heap) && fresh(e.w.b.depth) && fresh(e.w.b.blCount) && fresh(e.w.o.pending_buf)
    {
      e.SendFixed(lzs[k]);
      k := k + 1;
      assert lzs[..k] == lzs[..k - 1] + [lzs[k - 1]];
    }
    assert lzs[..k] == lzs;
    e.Delivered();
    out, m, bs := e.out, e.w.m, e.bs;
  }

  lemma NoneFit()
    ensures AllFit([])
  {
  }
}
