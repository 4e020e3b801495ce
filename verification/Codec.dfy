/** The codec as a whole: what inflate makes of what deflate sent. */
module Codec {
  import opened Canonical
  import opened BitStream
  import opened BitOutput
  import opened Format
  import opened InflateSpec
  import opened BlockOutput
  import opened RoundTrip
  import opened StreamRoundTrip
  import opened LzTokens

  /** One of the encodings _tr_flush_block may choose for a block of tokens. */
  ghost predicate Encodes(maps: Maps, out: seq<byte>, lz: LzBlock, b: Block)
    requires MapsOk(maps)
  {
    && BlockMade(maps, out, b)
    && match b
       case Stored(data) => lz.buf && data == lz.text
       case Fixed(ts) => ts == lz.ts
       case Dynamic(ts, _, _, _, _) => ts == lz.ts
  }

  ghost predicate AllEncoded(maps: Maps, lzs: seq<LzBlock>, bs: seq<Block>)
    requires MapsOk(maps)
  {
    |bs| == |lzs| && forall k :: 0 <= k < |bs| ==> Encodes(maps, SentOf(lzs[..k]), lzs[k], bs[k])
  }

  /** Whatever the encodings, the blocks stand for the same bytes. */
  lemma {:induction false} SameMeaning(maps: Maps, lzs: seq<LzBlock>, bs: seq<Block>, maxDist: int)
    requires MapsOk(maps) && BlocksFit(lzs, maxDist) && AllEncoded(maps, lzs, bs)
    ensures MeaningAll(bs) == SentOf(lzs)
    decreases |bs|
  {
    hide MapsOk, BlockMade, Expand, SymsOk, AllInReach;
    if |bs| > 0 {
      var n := |bs| - 1;
      Prefixes(maps, lzs, bs, n, maxDist);
      SameMeaning(maps, lzs[..n], bs[..n], maxDist);
      assert BlockFits(SentOf(lzs[..n]), lzs[n], maxDist);
      assert Encodes(maps, SentOf(lzs[..n]), lzs[n], bs[n]);
    }
  }

  lemma Prefixes(maps: Maps, lzs: seq<LzBlock>, bs: seq<Block>, n: nat, maxDist: int)
    requires MapsOk(maps) && BlocksFit(lzs, maxDist) && AllEncoded(maps, lzs, bs) && n <= |bs|
    ensures BlocksFit(lzs[..n], maxDist) && AllEncoded(maps, lzs[..n], bs[..n])
  {
    hide MapsOk, BlockFits, Encodes, SentOf;
    assert forall k :: 0 <= k < n ==> lzs[..n][..k] == lzs[..k];
  }

  /** Losslessness: tokens found by deflate_fast or deflate_slow, encoded block by block in
      any of the three ways, come back from inflate as the data they were found in,
      provided the decoding tables of every dynamic block fit. */
  lemma Lossless(maps: Maps, lzs: seq<LzBlock>, bs: seq<Block>, maxDist: int, m: nat) returns (b: State)
    requires MapsOk(maps) && BlocksFit(lzs, maxDist) && AllEncoded(maps, lzs, bs) && |lzs| > 0 && |SentOf(lzs)| <= m
    requires AllFit(bs)
    ensures BlocksMade(maps, bs)
    ensures var s := Aligned(EmitAll(maps, bs, true));
      WellFormed(Start(), s) && Run(Start(), s, m) == b && b.mode == DONE && b.out == SentOf(lzs) && b.pos == |s|
  {
    hide MapsOk, Expand, EmitAll, TablesFit, BlockMade, WellFormed;
    SameMeaning(maps, lzs, bs, maxDist);
    forall k | 0 <= k < |bs| ensures BlockMade(maps, MeaningAll(bs[..k]), bs[k]) {
      Prefixes(maps, lzs, bs, k, maxDist);
      SameMeaning(maps, lzs[..k], bs[..k], maxDist);
      assert Encodes(maps, SentOf(lzs[..k]), lzs[k], bs[k]);
    }
    b := InflateUndoesDeflate(maps, bs, m);
  }

  /** With fixed codes only there is nothing to provide for. */
  lemma FixedLossless(maps: Maps, lzs: seq<LzBlock>, maxDist: int, m: nat) returns (bs: seq<Block>, b: State)
    requires MapsOk(maps) && BlocksFit(lzs, maxDist) && |lzs| > 0 && |SentOf(lzs)| <= m
    ensures |bs| == |lzs| && (forall k :: 0 <= k < |bs| ==> bs[k] == Fixed(lzs[k].ts)) && BlocksMade(maps, bs)
    ensures var s := Aligned(EmitAll(maps, bs, true));
      WellFormed(Start(), s) && Run(Start(), s, m) == b && b.mode == DONE && b.out == SentOf(lzs) && b.pos == |s|
  {
    hide MapsOk, Expand, EmitAll, WellFormed, SentOf;
    bs := seq(|lzs|, k requires 0 <= k < |lzs| => Fixed(lzs[k].ts));
    forall k | 0 <= k < |bs| ensures Encodes(maps, SentOf(lzs[..k]), lzs[k], bs[k]) {
      assert BlockFits(SentOf(lzs[..k]), lzs[k], maxDist);
      ValidOf(lzs[k].ts, maxDist);
    }
    b := Lossless(maps, lzs, bs, maxDist, m);
  }

  lemma ValidOf(ts: seq<Token>, maxDist: int)
    requires SymsOk(ts, maxDist)
    ensures ValidTokens(ts)
  {
  }
}
