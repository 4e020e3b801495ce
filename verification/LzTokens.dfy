/** deflate.c: what the tokens tallied so far stand for. */
module LzTokens {
  import opened BitStream
  import opened Format
  import opened LzWindow

  /** A block handed to _tr_flush_block: its tokens, and the bytes they stand for if the
      window still has them. */
  datatype LzBlock = LzBlock(ts: seq<Token>, buf: bool, text: seq<byte>, last: bool)

  /** Everything the blocks stand for. */
  ghost function SentOf(blocks: seq<LzBlock>): seq<byte> {
    if |blocks| == 0 then [] else Expand(SentOf(blocks[..|blocks| - 1]), blocks[|blocks| - 1].ts)
  }

  /** Tokens of the format, none reaching further back than maxDist. */
  ghost predicate SymsOk(ts: seq<Token>, maxDist: int) {
    forall i :: 0 <= i < |ts| ==> ValidToken(ts[i]) && (ts[i].Match? ==> ts[i].dist <= maxDist)
  }

  ghost predicate BlockFits(out: seq<byte>, b: LzBlock, maxDist: int) {
    && SymsOk(b.ts, maxDist) && AllInReach(out, b.ts)
    && (b.buf ==> |b.text| <= 0xffff && Expand(out, b.ts) == out + b.text)
  }

  ghost predicate BlocksFit(blocks: seq<LzBlock>, maxDist: int) {
    forall k :: 0 <= k < |blocks| ==> BlockFits(SentOf(blocks[..k]), blocks[k], maxDist)
  }

  /** No block has more tokens than the symbol buffer holds. */
  ghost predicate Within(blocks: seq<LzBlock>, max: nat) {
    forall k :: 0 <= k < |blocks| ==> |blocks[k].ts| <= max
  }

  lemma WithinMore(blocks: seq<LzBlock>, b: LzBlock, max: nat)
    requires Within(blocks, max) && |b.ts| <= max
    ensures Within(blocks + [b], max)
  {
  }

  /** The flushed blocks stand for the data up to start, the tokens since for the data
      from there to pos. */
  ghost predicate TokensOk(blocks: seq<LzBlock>, syms: seq<Token>, data: seq<byte>, start: int, pos: int,
                           maxDist: int) {
    && 0 <= start <= pos <= |data| && BlocksFit(blocks, maxDist) && SentOf(blocks) == data[..start]
    && SymsOk(syms, maxDist) && AllInReach(data[..start], syms) && Expand(data[..start], syms) == data[..pos]
  }

  lemma InReachSnoc(out: seq<byte>, ts: seq<Token>, t: Token)
    requires AllInReach(out, ts) && InReach(Expand(out, ts), t)
    ensures AllInReach(out, ts + [t])
  {
    forall k | 0 <= k < |ts + [t]| ensures InReach(Expand(out, (ts + [t])[..k]), (ts + [t])[k]) {
      if k < |ts| { assert (ts + [t])[..k] == ts[..k]; } else { assert (ts + [t])[..k] == ts; }
    }
  }

  lemma TokenLit(blocks: seq<LzBlock>, syms: seq<Token>, data: seq<byte>, start: int, pos: int, maxDist: int)
    requires TokensOk(blocks, syms, data, start, pos, maxDist) && pos < |data|
    ensures TokensOk(blocks, syms + [Lit(data[pos])], data, start, pos + 1, maxDist)
  {
    hide BlocksFit, Expand;
    ExpandSnoc(data[..start], syms, Lit(data[pos]));
    InReachSnoc(data[..start], syms, Lit(data[pos]));
  }

  /** Copying a true match reproduces the data, also where it overlaps itself. */
  lemma {:induction false} CopyIsData(data: seq<byte>, p: nat, dist: nat, len: nat)
    requires MatchAt(data, p, dist, len)
    ensures CopyMatch(data[..p], len, dist) == data[..p + len]
    decreases len
  {
    if len > 0 {
      assert data[p] == data[p - dist] == data[..p][p - dist];
      assert data[..p] + [data[p]] == data[..p + 1];
      MatchLess(data, p, dist, len);
      CopyIsData(data, p + 1, dist, len - 1);
    }
  }

  lemma MatchLess(data: seq<byte>, p: nat, dist: nat, len: nat)
    requires MatchAt(data, p, dist, len) && len > 0
    ensures MatchAt(data, p + 1, dist, len - 1)
  {
  }

  lemma TokenMatch(blocks: seq<LzBlock>, syms: seq<Token>, data: seq<byte>, start: int, pos: int, maxDist: int,
                   dist: nat, len: nat)
    requires TokensOk(blocks, syms, data, start, pos, maxDist) && MatchAt(data, pos, dist, len)
    requires dist <= maxDist <= 32768 && 3 <= len <= 258
    ensures TokensOk(blocks, syms + [Match(len, dist)], data, start, pos + len, maxDist)
  {
    hide BlocksFit, Expand, CopyMatch;
    ExpandSnoc(data[..start], syms, Match(len, dist));
    InReachSnoc(data[..start], syms, Match(len, dist));
    CopyIsData(data, pos, dist, len);
  }

  /** The block is closed where the tokens end. */
  lemma TokensFlushed(blocks: seq<LzBlock>, syms: seq<Token>, data: seq<byte>, start: int, pos: int, maxDist: int,
                      b: LzBlock)
    requires TokensOk(blocks, syms, data, start, pos, maxDist) && b.ts == syms
    requires b.buf ==> |b.text| <= 0xffff && b.text == data[start..pos]
    ensures TokensOk(blocks + [b], [], data, pos, pos, maxDist)
  {
    hide Expand, AllInReach, SymsOk;
    var more := blocks + [b];
    assert more[..|blocks|] == blocks;
    assert SentOf(more) == data[..pos];
    assert data[..start] + data[start..pos] == data[..pos];
    forall k | 0 <= k < |more| ensures BlockFits(SentOf(more[..k]), more[k], maxDist) {
      if k < |blocks| { assert more[..k] == blocks[..k]; }
    }
    NoTokensYet(data[..pos], maxDist);
  }

  lemma NoTokensYet(out: seq<byte>, maxDist: int)
    ensures SymsOk([], maxDist) && AllInReach(out, []) && Expand(out, []) == out
  {
  }

  /** More data at the end changes nothing. */
  lemma TokensGrow(blocks: seq<LzBlock>, syms: seq<Token>, data: seq<byte>, start: int, pos: int, maxDist: int,
                   more: seq<byte>)
    requires TokensOk(blocks, syms, data, start, pos, maxDist)
    ensures TokensOk(blocks, syms, data + more, start, pos, maxDist)
  {
    assert (data + more)[..start] == data[..start] && (data + more)[..pos] == data[..pos];
  }

  /** Agreement in the window is a match in the data. */
  lemma AgreeIsMatch(w: seq<byte>, data: seq<byte>, base: nat, end: nat, m: nat, s: nat, len: nat)
    requires WindowHolds(w, data, base, end) && m < s && s + len <= end && Agree(w, m, s, len)
    ensures MatchAt(data, base + s, s - m, len)
  {
    forall i {:trigger data[i]} | base + s <= i < base + s + len ensures data[i] == data[i - (s - m)] {
      assert w[i - base] == w[i - base - s + m];
    }
  }
}
