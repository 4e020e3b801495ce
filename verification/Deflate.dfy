/** deflate.c: the compression loops, from input to tokens. */
module Deflate {
  import opened Bits
  import opened BitStream
  import opened Format
  import opened RollingHash
  import opened HashChains
  import opened LzWindow
  import opened LzTokens
  import opened LzSearch

  datatype Flush = NoFlush | SomeFlush | Finish
  datatype BlockState = NeedMore | BlockDone | FinishStarted | FinishDone

  const TOO_FAR := 4096

  /** The rest of deflate_state the loops work on; the symbol buffer as a list. */
  class Deflater {
    const w: Window
    const maxLazy: nat
    const filtered: bool
    const symMax: nat
    var matchLength: nat
    var prevMatch: nat
    var matchAvailable: bool
    var syms: seq<Token>
    var blocks: seq<LzBlock>
    ghost var finds: map<int, Find>

    constructor (window: Window, lazy: nat, filter: bool, max: nat)
      requires window.Valid() && window.data == [] && window.base == 0 && window.strstart == 0 && window.lookahead == 0
      requires window.blockStart == 0 && window.prevLength == MIN_MATCH - 1 && max >= 1 && lazy <= MAX_MATCH
      requires window.insert == 0
      ensures symMax == max && w == window && Covered(0) && Ready() && blocks == [] && !matchAvailable && FastReady()
      ensures SlowReady() && Accounted() && Thorough() && maxLazy == lazy && filtered == filter
      ensures FastAccounted() && FastThorough()
    {
      w, maxLazy, filtered, symMax := window, lazy, filter, max;
      matchLength, prevMatch, matchAvailable, syms, blocks := MIN_MATCH - 1, 0, false, [], [];
      finds := map[];
      new;
      NoTokensYet([], w.MaxDist());
      NoAccount(Z(), w.data, Behind(w.strstart - 1, w.matchStart));
      NoAccount(FastZ(), w.data, 0);
      assert All() == [];
    }

    /** All objects written to. */
    ghost function Repr(): set<object> { {this, w, w.window, w.prev, w.head} }

    /** The tokens stand for everything up to the given window position. */
    ghost predicate Covered(pos: int)
      reads this, w
    {
      Within(blocks, symMax) && TokensOk(blocks, syms, w.data, w.base + w.blockStart, w.base + pos, w.MaxDist())
    }

    ghost predicate Ready()
      reads this, w, w.window, w.prev, w.head
    {
      w.Valid() && symMax >= 1 && |syms| < symMax && maxLazy <= MAX_MATCH && w.blockStart <= w.strstart
    }

    /** Between the iterations of deflate_fast. */
    ghost predicate FastReady()
      reads this, w
    {
      matchLength < MIN_MATCH && w.prevLength == MIN_MATCH - 1 && !matchAvailable
    }

    function Held(): int
      reads this`matchAvailable
    {
      if matchAvailable then 1 else 0
    }

    /** Between the iterations of deflate_slow: a match found at the byte before strstart
        is one in the data, its distance taken in unsigned arithmetic. */
    ghost predicate SlowReady()
      reads this, w
    {
      && MIN_MATCH - 1 <= matchLength <= MAX_MATCH && (matchAvailable ==> w.strstart >= 1)
      && (matchLength >= MIN_MATCH ==> matchAvailable && Pending(w.strstart - 1, w.matchStart, matchLength))
    }

    ghost predicate Pending(pos: int, m: nat, len: nat)
      reads w
    {
      w.base + pos >= 0 && Behind(pos, m) <= w.MaxDist() && MatchAt(w.data, w.base + pos, Behind(pos, m), len)
    }

    /** What the searches go by. */
    ghost function Z(): Search {
      Search(w.h, w.MaxDist(), maxLazy, w.niceMatch, w.goodMatch, w.maxChain, filtered, TOO_FAR, false)
    }

    /** All tokens so far, those of the block not yet closed included. */
    ghost function All(): seq<Token>
      reads this`syms, this`blocks
    {
      TokensOf(blocks) + syms
    }

    /** The tokens come from the searches made, by lazy evaluation. */
    ghost predicate Accounted()
      reads this, w
    {
      && (w.base > 0 ==> w.strstart >= w.MaxDist())
      && Account(Z(), w.data, All(), finds, w.base + w.strstart, matchAvailable, matchLength,
                 Behind(w.strstart - 1, w.matchStart))
    }

    /** Every string before strstart whose bytes are there has been inserted, but for those
        that fill_window will insert. */
    ghost predicate Dense()
      reads w
    {
      && (w.insert > 0 ==> w.lookahead + w.insert < MIN_MATCH)
      && DenseTo(w.ins, w.strstart - w.insert, w.end)
    }

    /** None of the strings that fill_window will not insert lacks bytes. */
    ghost predicate Caught()
      reads w
    {
      w.strstart <= w.insert || w.strstart - w.insert + MIN_MATCH - 1 <= w.end
    }

    /** No string in reach was unknown to any search, and none will be as long as more
        input comes only when no string is caught short of it. */
    ghost predicate Thorough()
      reads this, w
    {
      AllSeen(Z(), finds) && Dense() && (Caught() || w.input == [])
    }

    /** The same for deflate_fast, which keeps whatever it finds. */
    ghost function FastZ(): Search {
      Search(w.h, w.MaxDist(), MIN_MATCH, w.niceMatch, w.goodMatch, w.maxChain, false, UINT, true)
    }

    ghost predicate FastAccounted()
      reads this, w
    {
      && (w.base > 0 ==> w.strstart >= w.MaxDist())
      && Account(FastZ(), w.data, All(), finds, w.base + w.strstart, false, MIN_MATCH - 1, 0)
    }

    /** The strings deflate_fast is to insert are in, as long as there are three bytes left
        to search for. */
    ghost predicate FastDense()
      reads this, w
    {
      w.lookahead >= MIN_MATCH ==> EnteredIn(Entered(All(), maxLazy), w.ins, w.base)
    }

    ghost predicate FastThorough()
      reads this, w
    {
      && AllEntered(FastZ(), finds, Entered(All(), maxLazy)) && FastDense()
      && (w.lookahead >= MIN_MATCH || w.input == [] || All() == [])
    }

    /** _tr_tally_lit */
    method TallyLit(c: byte) returns (bflush: bool)
      requires |syms| < symMax
      modifies this`syms
      ensures syms == old(syms) + [Lit(c)] && (bflush <==> |syms| == symMax)
    {
      syms := syms + [Lit(c)];
      bflush := |syms| == symMax;
    }

    /** _tr_tally_dist: len is the length less MIN_MATCH. */
    method TallyDist(dist: nat, len: nat) returns (bflush: bool)
      requires |syms| < symMax
      modifies this`syms
      ensures syms == old(syms) + [Match(len + MIN_MATCH, dist)] && (bflush <==> |syms| == symMax)
    {
      syms := syms + [Match(len + MIN_MATCH, dist)];
      bflush := |syms| == symMax;
    }

    /** FLUSH_BLOCK_ONLY: the block goes out, with its bytes if they are all still in the
        window.  Whether the output then has room is not up to this code. */
    method FlushBlockOnly(last: bool) returns (stuck: bool)
      requires w.Holding() && w.strstart <= w.end && Covered(w.strstart) && w.blockStart <= w.strstart < 2 * w.wSize
      requires |syms| <= symMax
      modifies this`syms, this`blocks, w`blockStart
      ensures Covered(w.strstart) && w.blockStart == w.strstart && syms == []
      ensures |blocks| == |old(blocks)| + 1 && blocks[..|old(blocks)|] == old(blocks)
      ensures blocks[|old(blocks)|].last == last && All() == old(All())
    {
      hide Within, TokensOk, Expand, SentOf, ChainsOk, TokensOf;
      var buf := w.blockStart >= 0;
      var text := if buf then w.window[w.blockStart..w.strstart] else [];
      var b := LzBlock(syms, buf, text, last);
      if buf { WindowText(w.window[..], w.data, w.base, w.end, w.blockStart, w.strstart); }
      TokensFlushed(blocks, syms, w.data, w.base + w.blockStart, w.base + w.strstart, w.MaxDist(), b);
      WithinMore(blocks, b, symMax);
      TokensOfMore(blocks, b);
      assert TokensOf(blocks) + syms + [] == TokensOf(blocks) + syms;
      blocks := blocks + [b];
      syms := [];
      w.blockStart := w.strstart;
      stuck := *;
    }

    /** fill_window, which leaves what the tokens stand for as it is. */
    method Fill(ghost back: nat)
      requires Ready() && back <= w.strstart && Covered(w.strstart - back) && w.lookahead < MIN_LOOKAHEAD
      modifies w`input, w`lookahead, w`data, w`insert, w`insH, w`ins, w`top, w`base, w`end
      modifies w`matchStart, w`strstart, w`blockStart, w.window, w.prev, w.head
      ensures Ready() && Covered(w.strstart - back)
      ensures w.strstart <= 2 * w.wSize - MIN_LOOKAHEAD && (w.lookahead < MIN_LOOKAHEAD ==> w.input == [])
      ensures w.base + w.strstart == old(w.base + w.strstart)
      ensures (w.strstart == old(w.strstart) || w.strstart >= w.MaxDist())
      ensures w.lookahead >= old(w.lookahead) && w.lookahead + |w.input| == old(w.lookahead + |w.input|)
      ensures w.data + w.input == old(w.data + w.input) && old(w.data) <= w.data
      ensures Behind(w.strstart, w.matchStart) == old(Behind(w.strstart, w.matchStart))
      ensures w.base == old(w.base) || (w.base > old(w.base) && w.strstart >= w.MaxDist())
      ensures Carried(old(w.ins), w.ins, w.base - old(w.base), old(w.strstart - w.insert), w.strstart - w.insert)
      ensures old(Dense() && (Caught() || w.input == [])) ==> Dense() && (Caught() || w.input == [])
    {
      hide Within, TokensOk, ChainsOk, WindowHolds, Primed, HashOk, DenseTo, Carried, Behind;
      ghost var ins, base, from, end, dense := w.ins, w.base, w.strstart - w.insert, w.end, Dense();
      ghost var was, start := w.data, w.base + w.blockStart;
      ghost var in0, n0 := w.input, w.lookahead;
      HoldsLength(w.window[..], w.data, w.base, w.end);
      w.FillWindow();
      HoldsLength(w.window[..], w.data, w.base, w.end);
      DataGrew(was, in0, w.data, w.input);
      if dense && (from <= 0 || from + MIN_MATCH - 1 <= end || in0 == []) {
        DenseGrows(ins, w.ins, w.base - base, from, w.strstart - w.insert, end, w.end);
      }
      TokensGrow(blocks, syms, was, start, w.base + w.strstart - back, w.MaxDist(), w.data[|was|..]);
    }

    /** After a match: insert the strings in it if it is short enough, or start the
        hash again behind it. */
    method SkipMatch()
      requires w.Holding() && w.end == w.strstart + w.lookahead && w.insert == 0
      requires MIN_MATCH <= matchLength <= w.lookahead
      requires w.top == w.strstart + 1 && Primed(w.h, w.window[..], w.insH, w.strstart + 1)
      requires w.strstart <= 2 * w.wSize - MIN_LOOKAHEAD && matchLength <= MAX_MATCH
      modifies this`matchLength, w`lookahead, w`strstart, w`insH, w`ins, w`top, w.prev, w.head
      ensures w.Valid() && matchLength == 0
      ensures w.strstart == old(w.strstart + matchLength) && w.strstart + w.lookahead == old(w.strstart + w.lookahead)
      ensures Grown(old(w.ins), w.ins, old(w.strstart) + 1,
        if old(matchLength) <= maxLazy && w.lookahead >= MIN_MATCH then w.strstart else old(w.strstart) + 1)
    {
      hide ChainsOk, WindowHolds, Primed, HashOk, Pow2, Grown;
      GrownNone(w.ins, w.strstart + 1, w.strstart + 1);
      w.lookahead := w.lookahead - matchLength;
      if matchLength <= maxLazy && w.lookahead >= MIN_MATCH {
        InsertAll();
      } else {
        w.strstart := w.strstart + matchLength;
        matchLength := 0;
        w.insH := w.window[w.strstart];
        PrimedStart(w.h, w.window[..], w.strstart);
        w.insH := Update(w.h, w.insH, w.window[w.strstart + 1]);
        ChainsTop(w.C(), w.h, w.end);
      }
    }

    /** Every string in the match is inserted, up to where it ends. */
    method InsertAll()
      requires w.Holding() && w.insert == 0 && matchLength >= MIN_MATCH && w.lookahead >= MIN_MATCH
      requires w.end == w.strstart + matchLength + w.lookahead
      requires w.top == w.strstart + 1 && Primed(w.h, w.window[..], w.insH, w.strstart + 1)
      modifies this`matchLength, w`strstart, w`insH, w`ins, w`top, w.prev, w.head
      ensures w.Holding() && matchLength == 0 && w.strstart == old(w.strstart + matchLength)
      ensures w.top == w.strstart && Primed(w.h, w.window[..], w.insH, w.strstart)
      ensures Grown(old(w.ins), w.ins, old(w.strstart) + 1, w.strstart)
    {
      hide ChainsOk, WindowHolds, Primed, HashOk, Pow2, HashAt, Grown;
      GrownNone(w.ins, w.strstart + 1, w.strstart + 1);
      ghost var to := w.strstart + matchLength;
      matchLength := matchLength - 1;
      while true
        invariant w.Holding() && matchLength >= 1 && w.strstart + matchLength + 1 == to
        invariant w.top == w.strstart + 1 && Primed(w.h, w.window[..], w.insH, w.strstart + 1)
        invariant old(w.strstart) <= w.strstart && Grown(old(w.ins), w.ins, old(w.strstart) + 1, w.strstart + 1)
        decreases matchLength
      {
        w.strstart := w.strstart + 1;
        GrownMore(old(w.ins), w.ins, old(w.strstart) + 1, w.strstart);
        var hashHead := w.InsertString(w.strstart);
        matchLength := matchLength - 1;
        if matchLength == 0 { break; }
      }
      w.strstart := w.strstart + 1;
    }

    /** No match: the byte goes out as it is. */
    method FastLiteral(ghost f: Find) returns (bflush: bool)
      requires w.Holding() && w.end == w.strstart + w.lookahead && w.lookahead > 0 && |syms| < symMax
      requires Covered(w.strstart)
      requires w.blockStart <= w.strstart && w.insert <= w.strstart && w.top <= w.strstart + 1 - w.insert
      requires w.lookahead >= MIN_MATCH ==> w.insert == 0 && Primed(w.h, w.window[..], w.insH, w.strstart + 1)
      requires FastFound(f) && f.kept == MIN_MATCH - 1
      modifies this`syms, this`finds, w`lookahead, w`strstart
      ensures w.Valid() && Covered(w.strstart) && |syms| == |old(syms)| + 1 && (bflush <==> |syms| == symMax)
      ensures w.strstart == old(w.strstart) + 1 && w.lookahead == old(w.lookahead) - 1
      ensures FastAccounted() && finds == old(finds[w.base + w.strstart := f])
      ensures 0 <= w.base + old(w.strstart) < |w.data| && All() == old(All()) + [Lit(w.data[w.base + old(w.strstart)])]
    {
      hide Within, TokensOk, ChainsOk, WindowHolds, Primed, HashOk, TokensOf, Account, FindOk;
      ghost var ts, fs, pos := All(), finds, w.base + w.strstart;
      HoldsLength(w.window[..], w.data, w.base, w.end);
      TokenLit(blocks, syms, w.data, w.base + w.blockStart, w.base + w.strstart, w.MaxDist());
      HeldByte(w.window[..], w.data, w.base, w.end, w.strstart);
      bflush := TallyLit(w.window[w.strstart]);
      w.lookahead := w.lookahead - 1;
      w.strstart := w.strstart + 1;
      finds := finds[pos := f];
      assert All() == ts + [Lit(w.data[pos])];
      AccountTake(FastZ(), w.data, ts, fs, pos, 0, f, Lit(w.data[pos]), 0);
    }

    /** The tokens go up to strstart, and f is the search made there. */
    ghost predicate FastFound(f: Find)
      reads this, w
    {
      && (w.base > 0 ==> w.strstart >= w.MaxDist())
      && Searching(FastZ(), w.data, All(), finds, w.base + w.strstart, false, MIN_MATCH - 1, 0, f)
    }

    /** The search at strstart: the record says what was found, and that nothing longer
        was to be found. */
    method FastSearch() returns (ghost f: Find)
      requires Ready() && FastReady() && FastAccounted() && w.lookahead > 0
      requires w.strstart <= 2 * w.wSize - MIN_LOOKAHEAD
      modifies this`matchLength, w`matchStart, w`insH, w`ins, w`top, w.prev, w.head
      ensures Looked() && FastFound(f) && f.seen == SeenOf(w.ins, w.strstart, w.base) && f.end == |w.data|
      ensures matchLength < MIN_MATCH ==> f.kept == MIN_MATCH - 1
      ensures matchLength >= MIN_MATCH ==>
        && f.kept == matchLength <= w.lookahead && matchLength <= MAX_MATCH && w.lookahead >= MIN_MATCH
        && w.matchStart < w.strstart && f.dist == w.strstart - w.matchStart <= w.MaxDist()
        && Agree(w.window[..], w.matchStart, w.strstart, matchLength)
      ensures Grown(old(w.ins), w.ins, w.strstart, Ripe(w.strstart + 1, w.end))
    {
      hide Within, TokensOk, ChainsOk, WindowHolds, Primed, HashOk, HashAt, Agree, MatchAt, Pow2, Sought, Grown;
      hide Account, FindOk, SeenOf;
      var hashHead := NIL;
      if w.lookahead >= MIN_MATCH {
        GrownOne(w.ins, w.strstart);
        hashHead := w.InsertString(w.strstart);
      } else {
        GrownNone(w.ins, w.strstart, Ripe(w.strstart + 1, w.end));
      }
      ghost var raw, dist, oldest := FastLongest(hashHead);
      FindMade(FastZ(), w.C(), w.data, w.base, w.end, w.strstart, MIN_MATCH - 1, raw, dist, oldest);
      f := FindOf(FastZ(), w.ins, w.base, w.end, w.strstart, MIN_MATCH - 1, raw, dist, oldest);
    }

    /** longest_match if there is a string to begin with. */
    method FastLongest(hashHead: nat) returns (ghost raw: nat, ghost dist: nat, ghost oldest: int)
      requires w.Holding() && w.end == w.strstart + w.lookahead && w.prevLength == MIN_MATCH - 1
      requires matchLength < MIN_MATCH && w.strstart <= 2 * w.wSize - MIN_LOOKAHEAD
      requires w.lookahead < MIN_MATCH ==> hashHead == NIL
      requires w.lookahead >= MIN_MATCH ==> w.top == w.strstart + 1
      requires hashHead == NIL || (hashHead in w.ins && hashHead < w.strstart
        && HashAt(w.h, w.window[..], hashHead) == HashAt(w.h, w.window[..], w.strstart))
      requires w.lookahead >= MIN_MATCH ==> forall q ::
        q in w.ins && q < w.strstart && HashAt(w.h, w.window[..], q) == HashAt(w.h, w.window[..], w.strstart) ==>
          q <= hashHead
      modifies this`matchLength, w`matchStart
      ensures w.Holding() && raw >= MIN_MATCH - 1 && dist < UINT && |w.data| == w.base + w.end
      ensures raw >= MIN_MATCH <==> matchLength >= MIN_MATCH
      ensures w.lookahead >= MIN_MATCH ==>
        Sought(FastZ(), w.C(), w.strstart, w.lookahead, MIN_MATCH - 1, raw, oldest)
      ensures raw >= MIN_MATCH ==>
        && raw == matchLength <= w.lookahead && matchLength <= MAX_MATCH
        && w.matchStart < w.strstart && dist == w.strstart - w.matchStart <= w.MaxDist()
        && Agree(w.window[..], w.matchStart, w.strstart, matchLength)
        && MatchAt(w.data, w.base + w.strstart, dist, raw)
    {
      hide Within, TokensOk, ChainsOk, WindowHolds, Primed, HashOk, HashAt, Agree, MatchAt, Pow2, Best, Chain;
      HoldsLength(w.window[..], w.data, w.base, w.end);
      raw, dist, oldest := MIN_MATCH - 1, 0, hashHead + 1;
      if hashHead != NIL && w.strstart - hashHead <= w.MaxDist() {
        matchLength, oldest := w.LongestMatch(hashHead);
        raw := matchLength;
        if raw >= MIN_MATCH {
          dist := w.strstart - w.matchStart;
          AgreeIsMatch(w.window[..], w.data, w.base, w.end, w.matchStart, w.strstart, matchLength);
        }
      } else if w.lookahead >= MIN_MATCH {
        NothingSought(FastZ(), w.C(), w.strstart, w.lookahead, MIN_MATCH - 1, hashHead);
      }
    }

    /** One literal or match of deflate_fast: a match if there is one, and none longer than
        that was to be found. */
    method FastStep() returns (bflush: bool)
      requires Ready() && FastReady() && Covered(w.strstart) && w.lookahead > 0 && FastAccounted()
      requires w.strstart <= 2 * w.wSize - MIN_LOOKAHEAD
      modifies Repr()
      ensures w.Valid() && FastReady() && Covered(w.strstart) && w.blockStart <= w.strstart && |syms| == |old(syms)| + 1
      ensures (bflush <==> |syms| == symMax) && blocks == old(blocks)
      ensures w.base == old(w.base) && w.data == old(w.data) && w.input == old(w.input)
      ensures w.blockStart == old(w.blockStart)
      ensures old(w.strstart) < w.strstart < 2 * w.wSize && w.strstart + w.lookahead == old(w.strstart + w.lookahead)
      ensures w.strstart <= old(w.strstart) + MAX_MATCH
      ensures FastAccounted()
      ensures old(FastThorough() && (w.lookahead >= MIN_LOOKAHEAD || w.input == [])) ==> FastThorough()
    {
      hide Within, TokensOk, ChainsOk, WindowHolds, Primed, HashOk, HashAt, Agree, MatchAt, Pow2, TokensOf, Account;
      hide FindOk, Grown, Entered, SeenOf, AllEntered, EnteredIn, Searching, Ripe;
      ghost var was, ts, fs, s := w.ins, All(), finds, w.strstart;
      ghost var dense := FastDense();
      AccountFacts(FastZ(), w.data, ts, fs, w.base + s, false, MIN_MATCH - 1, 0);
      ghost var f := FastSearch();
      HoldsLength(w.window[..], w.data, w.base, w.end);
      ghost var mid := w.ins;
      ghost var t;
      bflush, t := FastToken(f);
      FastSeen(was, mid, ts, t, fs, s, f, dense);
    }

    /** What was found, as a token. */
    method FastToken(ghost f: Find) returns (bflush: bool, ghost t: Token)
      requires Looked() && FastFound(f) && Covered(w.strstart) && w.lookahead > 0 && |syms| < symMax
      requires w.blockStart <= w.strstart <= 2 * w.wSize - MIN_LOOKAHEAD
      requires matchLength < MIN_MATCH ==> f.kept == MIN_MATCH - 1
      requires matchLength >= MIN_MATCH ==>
        && f.kept == matchLength <= w.lookahead && matchLength <= MAX_MATCH && w.lookahead >= MIN_MATCH
        && w.matchStart < w.strstart && f.dist == w.strstart - w.matchStart <= w.MaxDist()
        && Agree(w.window[..], w.matchStart, w.strstart, matchLength)
      modifies this`syms, this`matchLength, this`finds, w`lookahead, w`strstart, w`insH, w`ins, w`top, w.prev, w.head
      ensures w.Valid() && Covered(w.strstart) && matchLength < MIN_MATCH && |syms| == |old(syms)| + 1
      ensures (bflush <==> |syms| == symMax) && FastAccounted() && All() == old(All()) + [t]
      ensures finds == old(finds[w.base + w.strstart := f]) && 1 <= Width(t) <= MAX_MATCH
      ensures w.strstart == old(w.strstart) + Width(t) && w.strstart + w.lookahead == old(w.strstart + w.lookahead)
      ensures Grown(old(w.ins), w.ins, old(w.strstart) + 1,
        if Width(t) <= maxLazy && w.lookahead >= MIN_MATCH then w.strstart else old(w.strstart) + 1)
    {
      hide Within, TokensOk, ChainsOk, WindowHolds, Primed, HashOk, Agree, TokensOf, Account, FindOk, Grown, Searching;
      HoldsLength(w.window[..], w.data, w.base, w.end);
      if matchLength >= MIN_MATCH {
        t := Match(matchLength, w.strstart - w.matchStart);
        bflush := FastMatch(f);
      } else {
        t := Lit(w.data[w.base + w.strstart]);
        GrownNone(w.ins, w.strstart + 1, w.strstart + 1);
        bflush := FastLiteral(f);
      }
    }

    /** The search knew the strings in reach, and those passed over since are in. */
    lemma FastSeen(was: set<int>, mid: set<int>, ts: seq<Token>, t: Token, fs: map<int, Find>, s: nat, f: Find,
                   dense: bool)
      requires All() == ts + [t] && w.strstart == s + Width(t) && Width(t) >= 1
      requires Span(ts) == w.base + s && (w.base > 0 ==> s >= w.MaxDist()) && w.end == w.strstart + w.lookahead
      requires f.seen == SeenOf(mid, s, w.base) && f.end == w.base + w.end && finds == fs[w.base + s := f]
      requires forall p :: p in fs ==> p < w.base + s
      requires Grown(was, mid, s, Ripe(s + 1, w.end))
      requires Grown(mid, w.ins, s + 1, if Width(t) <= maxLazy && w.lookahead >= MIN_MATCH then w.strstart else s + 1)
      requires dense && s + MIN_MATCH <= w.end ==> EnteredIn(Entered(ts, maxLazy), was, w.base)
      ensures dense && AllEntered(FastZ(), fs, Entered(ts, maxLazy)) ==>
        AllEntered(FastZ(), finds, Entered(All(), maxLazy)) && FastDense()
    {
      hide Entered, AllEntered, EnteredIn, SeenOf, Poor;
      if dense && AllEntered(FastZ(), fs, Entered(ts, maxLazy)) {
        EnteredSnoc(ts, t, maxLazy);
        if s + MIN_MATCH <= w.end { EnteredMore(Entered(ts, maxLazy), was, mid, w.base); }
        AllEnteredMore(FastZ(), fs, Entered(ts, maxLazy), Entered(All(), maxLazy), mid, w.base, s, f);
        if w.lookahead >= MIN_MATCH {
          EnteredOn(ts, t, maxLazy, was, w.ins, w.base, s, if Width(t) <= maxLazy then w.strstart else s + 1);
        }
      }
    }

    /** The match found goes out. */
    method FastMatch(ghost f: Find) returns (bflush: bool)
      requires w.Holding() && w.end == w.strstart + w.lookahead && w.insert == 0 && |syms| < symMax
      requires MIN_MATCH <= matchLength <= w.lookahead && matchLength <= MAX_MATCH
      requires w.matchStart < w.strstart && w.strstart - w.matchStart <= w.MaxDist()
      requires Agree(w.window[..], w.matchStart, w.strstart, matchLength)
      requires Covered(w.strstart) && w.blockStart <= w.strstart
      requires w.top == w.strstart + 1 && Primed(w.h, w.window[..], w.insH, w.strstart + 1)
      requires w.strstart <= 2 * w.wSize - MIN_LOOKAHEAD
      requires FastFound(f) && f.kept == matchLength && f.dist == w.strstart - w.matchStart
      modifies this`syms, this`matchLength, this`finds, w`lookahead, w`strstart, w`insH, w`ins, w`top, w.prev, w.head
      ensures w.Valid() && Covered(w.strstart) && matchLength == 0 && |syms| == |old(syms)| + 1
      ensures bflush <==> |syms| == symMax
      ensures w.strstart == old(w.strstart + matchLength) && w.strstart + w.lookahead == old(w.strstart + w.lookahead)
      ensures FastAccounted() && finds == old(finds[w.base + w.strstart := f])
      ensures All() == old(All()) + [Match(old(matchLength), old(w.strstart - w.matchStart))]
      ensures Grown(old(w.ins), w.ins, old(w.strstart) + 1,
        if old(matchLength) <= maxLazy && w.lookahead >= MIN_MATCH then w.strstart else old(w.strstart) + 1)
    {
      hide Within, TokensOk, ChainsOk, WindowHolds, Primed, HashOk, HashAt, Agree, MatchAt, Pow2, TokensOf, Account;
      hide FindOk, Grown;
      ghost var ts, fs, pos, len, dist := All(), finds, w.base + w.strstart, matchLength, w.strstart - w.matchStart;
      HoldsLength(w.window[..], w.data, w.base, w.end);
      AgreeIsMatch(w.window[..], w.data, w.base, w.end, w.matchStart, w.strstart, matchLength);
      TokenMatch(blocks, syms, w.data, w.base + w.blockStart, w.base + w.strstart, w.MaxDist(),
        w.strstart - w.matchStart, matchLength);
      bflush := TallyDist(w.strstart - w.matchStart, matchLength - MIN_MATCH);
      assert All() == ts + [Match(len, dist)];
      SkipMatch();
      finds := finds[pos := f];
      AccountTake(FastZ(), w.data, ts, fs, pos, 0, f, Match(len, dist), 0);
    }

    /** How both functions end once all input is used up. */
    method FlushEnd(flush: Flush) returns (state: BlockState)
      requires w.Valid() && symMax >= 1 && Covered(w.strstart) && w.blockStart <= w.strstart < 2 * w.wSize
      requires w.lookahead == 0
      requires !matchAvailable && matchLength < MIN_MATCH && |syms| <= symMax
      modifies this`syms, this`blocks, w`insert, w`blockStart
      ensures w.Valid() && Covered(w.strstart) && w.blockStart <= w.strstart && |syms| < symMax
      ensures syms == [] && w.blockStart == w.strstart
      ensures state == FinishDone || state == FinishStarted <==> flush == Finish
      ensures state == NeedMore ==> |blocks| > |old(blocks)|
      ensures |old(blocks)| <= |blocks| <= |old(blocks)| + 1 && blocks[..|old(blocks)|] == old(blocks)
      ensures |blocks| > |old(blocks)| ==> (blocks[|blocks| - 1].last <==> flush == Finish)
      ensures flush == Finish ==> |blocks| > |old(blocks)|
      ensures All() == old(All()) && Caught() && (old(Dense()) ==> Dense())
    {
      hide Within, TokensOk, ChainsOk, WindowHolds, Primed, HashOk;
      w.insert := if w.strstart < MIN_MATCH - 1 then w.strstart else MIN_MATCH - 1;
      ChainsTop(w.C(), w.h, w.end);
      assert old(Dense()) ==> Dense();
      if flush == Finish {
        var stuck := FlushBlockOnly(true);
        return if stuck then FinishStarted else FinishDone;
      }
      if syms != [] {
        var stuck := FlushBlockOnly(false);
        if stuck { return NeedMore; }
      }
      NothingLeft(blocks, w.data, w.base + w.blockStart, w.base + w.strstart, w.MaxDist());
      state := BlockDone;
    }

    /** fill_window for deflate_fast: the account of the tokens stays. */
    method FillFast()
      requires Ready() && FastReady() && Covered(w.strstart) && w.lookahead < MIN_LOOKAHEAD && FastAccounted()
      modifies w`input, w`lookahead, w`data, w`insert, w`insH, w`ins, w`top, w`base, w`end
      modifies w`matchStart, w`strstart, w`blockStart, w.window, w.prev, w.head
      ensures Ready() && FastReady() && Covered(w.strstart)
      ensures FastAccounted() && (old(FastThorough()) ==> FastThorough())
      ensures w.strstart <= 2 * w.wSize - MIN_LOOKAHEAD && (w.lookahead < MIN_LOOKAHEAD ==> w.input == [])
      ensures w.lookahead + |w.input| == old(w.lookahead + |w.input|)
      ensures w.data + w.input == old(w.data + w.input) && old(w.data) <= w.data
    {
      hide Within, TokensOk, w.Valid, Behind, Account, AllEntered, EnteredIn, Entered, Carried;
      ghost var data, was, base, from, in0, ahead := w.data, w.ins, w.base, w.strstart - w.insert, w.input, w.lookahead;
      Fill(0);
      AccountGrows(FastZ(), data, w.data, All(), finds, w.base + w.strstart, false, MIN_MATCH - 1, 0);
      if EnteredIn(Entered(All(), maxLazy), was, base) {
        EnteredDown(Entered(All(), maxLazy), was, w.ins, base, w.base - base, from, w.strstart - w.insert);
      }
      if All() == [] { NoneEntered(maxLazy, w.ins, w.base); }
    }

    /** deflate_fast: whatever the input, its pieces and the room for output, the tokens
        stand for exactly the bytes before strstart when it returns. */
    method DeflateFast(flush: Flush) returns (state: BlockState)
      requires Ready() && FastReady() && Covered(w.strstart) && FastAccounted()
      modifies Repr()
      ensures Ready() && FastReady() && Covered(w.strstart)
      ensures FastAccounted() && (old(FastThorough()) ==> FastThorough())
      ensures w.data + w.input == old(w.data + w.input) && old(w.data) <= w.data
      ensures state == NeedMore && flush == NoFlush ==> w.input == [] || syms == []
      ensures state == BlockDone || state == FinishDone || state == FinishStarted ==>
        w.input == [] && w.lookahead == 0 && syms == [] && w.blockStart == w.strstart
      ensures state == FinishDone || state == FinishStarted <==>
        flush == Finish && |blocks| > |old(blocks)| && blocks[|blocks| - 1].last
      ensures |old(blocks)| <= |blocks| && blocks[..|old(blocks)|] == old(blocks)
      ensures forall k :: |old(blocks)| <= k < |blocks| - 1 ==> !blocks[k].last
      ensures flush == Finish ==> state != BlockDone
      ensures flush == Finish && state == NeedMore ==> |w.input| + w.lookahead < old(|w.input| + w.lookahead)
      ensures state == NeedMore && |w.input| + w.lookahead == old(|w.input| + w.lookahead) ==>
        w.input == [] && (flush == NoFlush || |blocks| > |old(blocks)|)
    {
      hide Within, TokensOk, w.Valid, Behind, FastAccounted, FastThorough, TokensOf, Covered, FastReady;
      while true
        invariant Ready() && FastReady() && Covered(w.strstart) && FastAccounted()
        invariant old(FastThorough()) ==> FastThorough()
        invariant w.data + w.input == old(w.data + w.input) && old(w.data) <= w.data
        invariant |old(blocks)| <= |blocks| && blocks[..|old(blocks)|] == old(blocks)
        invariant forall k :: |old(blocks)| <= k < |blocks| ==> !blocks[k].last
        invariant |w.input| + w.lookahead <= old(|w.input| + w.lookahead)
        decreases |w.input| + w.lookahead
      {
        if w.lookahead < MIN_LOOKAHEAD {
          FillFast();
          if w.lookahead < MIN_LOOKAHEAD && flush == NoFlush { return NeedMore; }
          if w.lookahead == 0 { break; }
        }
        WithinWindow();
        var bflush := FastStep();
        if bflush {
          var stuck := FlushFast();
          if stuck { return NeedMore; }
        }
      }
      state := FinishFast(flush);
    }

    /** The end of deflate_fast, all input being used up. */
    method FinishFast(flush: Flush) returns (state: BlockState)
      requires w.Valid() && symMax >= 1 && Covered(w.strstart) && w.blockStart <= w.strstart < 2 * w.wSize
      requires w.lookahead == 0 && FastReady() && FastAccounted() && |syms| <= symMax
      modifies this`syms, this`blocks, w`insert, w`blockStart
      ensures w.Valid() && Covered(w.strstart) && w.blockStart <= w.strstart && |syms| < symMax
      ensures syms == [] && w.blockStart == w.strstart && FastReady()
      ensures state == FinishDone || state == FinishStarted <==> flush == Finish
      ensures state == NeedMore ==> |blocks| > |old(blocks)|
      ensures |old(blocks)| <= |blocks| <= |old(blocks)| + 1 && blocks[..|old(blocks)|] == old(blocks)
      ensures |blocks| > |old(blocks)| ==> (blocks[|blocks| - 1].last <==> flush == Finish)
      ensures flush == Finish ==> |blocks| > |old(blocks)|
      ensures FastAccounted() && (old(FastThorough()) ==> FastThorough())
    {
      hide Within, TokensOk, w.Valid, Account, AllEntered, EnteredIn, Entered, TokensOf;
      state := FlushEnd(flush);
    }

    /** When the input is used up and its tokens are flushed, the blocks stand for all of it. */
    lemma Finished()
      requires Ready() && Covered(w.strstart) && syms == [] && w.blockStart == w.strstart && w.lookahead == 0
      ensures BlocksFit(blocks, w.MaxDist()) && Within(blocks, symMax) && SentOf(blocks) == w.data
    {
      hide BlocksFit, Within, SentOf;
      HoldsLength(w.window[..], w.data, w.base, w.end);
    }

    /** Then all tokens come from the searches made. */
    lemma Told()
      requires w.Holding() && w.end == w.strstart && Accounted() && Thorough() && syms == [] && !matchAvailable
      ensures Evaluated(Z(), w.data, TokensOf(blocks), finds, maxLazy)
    {
      hide FindsOk, Linked, AllChosen, AllSeen, ChainsOk, TokensOf;
      HoldsLength(w.window[..], w.data, w.base, w.end);
      assert TokensOf(blocks) + [] == TokensOf(blocks);
    }

    lemma ToldFast()
      requires w.Holding() && w.end == w.strstart && FastAccounted() && FastThorough() && syms == []
      ensures Evaluated(FastZ(), w.data, TokensOf(blocks), finds, maxLazy)
    {
      hide FindsOk, Linked, AllChosen, AllEntered, Entered, EnteredIn, ChainsOk, TokensOf;
      HoldsLength(w.window[..], w.data, w.base, w.end);
      assert TokensOf(blocks) + [] == TokensOf(blocks);
    }

    lemma WithinWindow()
      requires w.Valid()
      ensures w.strstart + w.lookahead <= 2 * w.wSize
    {
    }

    /** FLUSH_BLOCK in deflate_fast */
    method FlushFast() returns (stuck: bool)
      requires w.Valid() && FastReady() && Covered(w.strstart) && w.blockStart <= w.strstart < 2 * w.wSize
      requires symMax >= 1 && maxLazy <= MAX_MATCH && |syms| <= symMax
      modifies this`syms, this`blocks, w`blockStart
      ensures Ready() && FastReady() && Covered(w.strstart)
      ensures |blocks| == |old(blocks)| + 1 && blocks[..|old(blocks)|] == old(blocks) && !blocks[|old(blocks)|].last
      ensures syms == [] && (old(FastAccounted()) ==> FastAccounted()) && (old(FastThorough()) ==> FastThorough())
    {
      hide Within, TokensOk, ChainsOk, WindowHolds, Primed, HashOk, TokensOf, Account, AllEntered, Entered, EnteredIn;
      stuck := FlushBlockOnly(false);
    }

    /** The strings inside a match just emitted, as far as their bytes are there. */
    method InsertMatched()
      requires Looked() && MIN_MATCH <= w.prevLength <= MAX_MATCH && w.prevLength - 1 <= w.lookahead && 1 <= w.strstart
      modifies w`lookahead, w`prevLength, w`strstart, w`insH, w`ins, w`top, w.prev, w.head
      ensures w.Valid() && w.strstart == old(w.strstart + w.prevLength) - 1
      ensures w.strstart + w.lookahead == old(w.strstart + w.lookahead)
      ensures Grown(old(w.ins), w.ins, old(w.strstart) + 1, Ripe(w.strstart, w.end)) && w.insert == old(w.insert)
    {
      hide ChainsOk, WindowHolds, Primed, HashOk, HashAt, Pow2, Grown;
      var maxInsert := w.strstart + w.lookahead - MIN_MATCH;
      ghost var to := w.strstart + w.prevLength - 1;
      ghost var enough := w.lookahead >= MIN_MATCH;
      w.lookahead := w.lookahead - (w.prevLength - 1);
      w.prevLength := w.prevLength - 2;
      GrownNone(w.ins, w.strstart + 1, Ripe(w.strstart + 1, w.end));
      while true
        invariant w.Holding() && w.prevLength >= 1 && w.strstart + w.prevLength + 1 == to && to + w.lookahead == w.end
        invariant maxInsert == w.end - MIN_MATCH && old(w.strstart) <= w.strstart
        invariant enough ==> w.insert == 0 && w.top <= w.strstart + 1
        invariant enough && w.strstart <= maxInsert ==>
          w.top == w.strstart + 1 && Primed(w.h, w.window[..], w.insH, w.strstart + 1)
        invariant !enough ==> w.top <= old(w.strstart) - w.insert && w.strstart > maxInsert
        invariant w.insert == old(w.insert)
        invariant Grown(old(w.ins), w.ins, old(w.strstart) + 1, Ripe(w.strstart + 1, w.end))
        decreases w.prevLength
      {
        w.strstart := w.strstart + 1;
        if w.strstart <= maxInsert {
          GrownMore(old(w.ins), w.ins, old(w.strstart) + 1, w.strstart);
          var hashHead := w.InsertString(w.strstart);
        }
        w.prevLength := w.prevLength - 1;
        if w.prevLength == 0 { break; }
      }
      w.strstart := w.strstart + 1;
    }

    /** The match found at the byte before strstart goes out. */
    method EmitPrevious() returns (bflush: bool)
      requires Looked() && |syms| < symMax && matchAvailable
      requires w.blockStart <= w.strstart
      requires MIN_MATCH <= w.prevLength <= MAX_MATCH && Pending(w.strstart - 1, prevMatch, w.prevLength)
      requires Covered(w.strstart - 1)
      requires 1 <= w.strstart <= 2 * w.wSize - MIN_LOOKAHEAD
      modifies Repr()
      ensures w.Valid() && SlowReady() && !matchAvailable && Covered(w.strstart) && w.blockStart <= w.strstart
      ensures |syms| == |old(syms)| + 1 && (bflush <==> |syms| == symMax) && blocks == old(blocks)
      ensures w.base == old(w.base) && w.data == old(w.data) && w.input == old(w.input) && matchLength == MIN_MATCH - 1
      ensures w.strstart == old(w.strstart + w.prevLength) - 1 < 2 * w.wSize
      ensures w.strstart + w.lookahead == old(w.strstart + w.lookahead) && finds == old(finds)
      ensures All() == old(All()) + [Match(old(w.prevLength), Behind(old(w.strstart) - 1, old(prevMatch)))]
      ensures Grown(old(w.ins), w.ins, old(w.strstart) + 1, Ripe(w.strstart, w.end)) && w.insert == old(w.insert)
    {
      hide Within, TokensOk, ChainsOk, WindowHolds, Primed, HashOk, TokensOf, Grown;
      HoldsLength(w.window[..], w.data, w.base, w.end);
      var dist := Behind(w.strstart - 1, prevMatch);
      TokenMatch(blocks, syms, w.data, w.base + w.blockStart, w.base + w.strstart - 1, w.MaxDist(), dist, w.prevLength);
      bflush := TallyDist(dist, w.prevLength - MIN_MATCH);
      InsertMatched();
      matchAvailable := false;
      matchLength := MIN_MATCH - 1;
    }

    /** The same, and the block if it is full. */
    method FlushPrevious(ghost f: Find) returns (stop: bool)
      requires Looked() && |syms| < symMax && matchAvailable
      requires w.blockStart <= w.strstart && maxLazy <= MAX_MATCH
      requires MIN_MATCH <= w.prevLength <= MAX_MATCH && Pending(w.strstart - 1, prevMatch, w.prevLength)
      requires Covered(w.strstart - 1) && Weighing(f) && matchLength <= w.prevLength
      requires 1 <= w.strstart <= 2 * w.wSize - MIN_LOOKAHEAD
      modifies Repr()
      ensures Ready() && SlowReady() && !matchAvailable && Covered(w.strstart)
      ensures |old(blocks)| <= |blocks| <= |old(blocks)| + 1 && blocks[..|old(blocks)|] == old(blocks)
      ensures forall k :: |old(blocks)| <= k < |blocks| ==> !blocks[k].last
      ensures w.base == old(w.base) && w.data == old(w.data) && w.input == old(w.input)
      ensures w.strstart == old(w.strstart + w.prevLength) - 1 && matchLength == MIN_MATCH - 1
      ensures w.strstart + w.lookahead == old(w.strstart + w.lookahead)
      ensures Accounted() && finds == old(finds[w.base + w.strstart := f])
      ensures All() == old(All()) + [Match(old(w.prevLength), Behind(old(w.strstart) - 1, old(prevMatch)))]
      ensures Grown(old(w.ins), w.ins, old(w.strstart) + 1, Ripe(w.strstart, w.end)) && w.insert == old(w.insert)
    {
      hide Within, TokensOk, ChainsOk, WindowHolds, Primed, HashOk, MatchAt, TokensOf, Grown, Behind;
      hide Searching, Account, All;
      ghost var ts, fs, pos, len := All(), finds, w.base + w.strstart, w.prevLength;
      ghost var dist := Behind(w.strstart - 1, prevMatch);
      stop := false;
      var bflush := EmitPrevious();
      if bflush { stop := FlushBlockOnly(false); }
      finds := finds[pos := f];
      AccountMatch(Z(), w.data, ts, fs, pos, len, dist, f, Behind(w.strstart - 1, w.matchStart));
    }

    /** The string at strstart has been inserted if its bytes are there. */
    ghost predicate Looked()
      reads w, w.window, w.prev, w.head
    {
      && w.Holding() && w.end == w.strstart + w.lookahead && w.insert <= w.strstart
      && w.top <= w.strstart + 1 - (if w.lookahead < MIN_MATCH then 1 + w.insert else 0)
      && (w.lookahead >= MIN_MATCH ==>
          w.insert == 0 && w.top == w.strstart + 1 && Primed(w.h, w.window[..], w.insH, w.strstart + 1))
    }

    /** f is the search made at strstart, and the tokens go as far as the byte held back. */
    ghost predicate Weighing(f: Find)
      reads this, w
    {
      && (w.base > 0 ==> w.strstart >= w.MaxDist())
      && f.kept == matchLength && f.dist == Behind(w.strstart, w.matchStart)
      && Searching(Z(), w.data, All(), finds, w.base + w.strstart, matchAvailable, w.prevLength,
                   Behind(w.strstart - 1, prevMatch), f)
    }

    /** f is the search made at strstart, with what came of it. */
    ghost predicate Recorded(f: Find)
      reads this, w
    {
      && FindOk(Z(), w.data, w.base + w.strstart, f) && f.held == w.prevLength && f.kept == matchLength
      && f.dist == Behind(w.strstart, w.matchStart)
      && f.seen == SeenOf(w.ins, w.strstart, w.base) && f.end == |w.data|
    }

    /** raw is the length found at strstart, if the search took place. */
    ghost predicate FoundHere(raw: nat, oldest: int)
      reads this, w, w.window, w.prev, w.head
    {
      w.prevLength < maxLazy && w.lookahead >= MIN_MATCH ==>
        && Sought(Z(), w.C(), w.strstart, w.lookahead, w.prevLength, raw, oldest)
        && (raw >= MIN_MATCH && raw > w.prevLength ==>
            raw <= w.lookahead && Pending(w.strstart, w.matchStart, raw))
    }

    lemma Record(raw: nat, oldest: int) returns (f: Find)
      requires w.Holding() && w.end == w.strstart + w.lookahead && (w.base > 0 ==> w.strstart >= w.MaxDist())
      requires FoundHere(raw, oldest)
      requires matchLength ==
        if w.prevLength >= maxLazy || w.lookahead < MIN_MATCH || Poor(Z(), raw, Behind(w.strstart, w.matchStart))
        then MIN_MATCH - 1 else raw
      ensures Recorded(f)
    {
      hide ChainsOk, WindowHolds, HashOk, MatchAt, Sought, Behind, Pow2, SeenOf, FindOk;
      var dist := Behind(w.strstart, w.matchStart);
      HoldsLength(w.window[..], w.data, w.base, w.end);
      FindMade(Z(), w.C(), w.data, w.base, w.end, w.strstart, w.prevLength, raw, dist, oldest);
      f := FindOf(Z(), w.ins, w.base, w.end, w.strstart, w.prevLength, raw, dist, oldest);
    }

    /** Look for a match at strstart that is better than the one before: the record of the
        search says what was found, and that nothing longer was to be found. */
    method SlowSearch() returns (ghost f: Find)
      requires Ready() && SlowReady() && w.lookahead > 0 && w.strstart <= 2 * w.wSize - MIN_LOOKAHEAD
      requires w.base > 0 ==> w.strstart >= w.MaxDist()
      modifies this`matchLength, this`prevMatch, w`prevLength, w`matchStart, w`insH, w`ins, w`top, w.prev, w.head
      ensures Looked() && w.prevLength == old(matchLength) && prevMatch == old(w.matchStart)
      ensures MIN_MATCH - 1 <= matchLength <= MAX_MATCH && Recorded(f)
      ensures matchLength >= MIN_MATCH && matchLength > w.prevLength ==> Pending(w.strstart, w.matchStart, matchLength)
      ensures Grown(old(w.ins), w.ins, w.strstart, Ripe(w.strstart + 1, w.end))
    {
      hide Within, TokensOk, ChainsOk, WindowHolds, Primed, HashOk, HashAt, MatchAt, Pow2, FoundHere, Grown, Recorded;
      hide Behind, Poor;
      var hashHead := NIL;
      if w.lookahead >= MIN_MATCH {
        GrownOne(w.ins, w.strstart);
        hashHead := w.InsertString(w.strstart);
      } else {
        GrownNone(w.ins, w.strstart, Ripe(w.strstart + 1, w.end));
      }
      w.prevLength, prevMatch := matchLength, w.matchStart;
      ghost var raw, oldest := SearchHere(hashHead);
      f := Record(raw, oldest);
    }

    /** The search proper, if the match held back is short enough for one. */
    method SearchHere(hashHead: nat) returns (ghost raw: nat, ghost oldest: int)
      requires w.Holding() && w.end == w.strstart + w.lookahead && MIN_MATCH - 1 <= w.prevLength <= MAX_MATCH
      requires w.strstart <= 2 * w.wSize - MIN_LOOKAHEAD && (w.lookahead < MIN_MATCH ==> hashHead == NIL)
      requires w.lookahead >= MIN_MATCH ==> w.top == w.strstart + 1
      requires hashHead == NIL || (hashHead in w.ins && hashHead < w.strstart
        && HashAt(w.h, w.window[..], hashHead) == HashAt(w.h, w.window[..], w.strstart))
      requires w.lookahead >= MIN_MATCH ==> forall q ::
        q in w.ins && q < w.strstart && HashAt(w.h, w.window[..], q) == HashAt(w.h, w.window[..], w.strstart) ==>
          q <= hashHead
      modifies this`matchLength, w`matchStart
      ensures w.Holding() && MIN_MATCH - 1 <= matchLength <= MAX_MATCH && FoundHere(raw, oldest)
      ensures matchLength ==
        if w.prevLength >= maxLazy || w.lookahead < MIN_MATCH || Poor(Z(), raw, Behind(w.strstart, w.matchStart))
        then MIN_MATCH - 1 else raw
      ensures matchLength >= MIN_MATCH && matchLength > w.prevLength ==> Pending(w.strstart, w.matchStart, matchLength)
    {
      hide Within, TokensOk, ChainsOk, WindowHolds, Primed, HashOk, HashAt, MatchAt, Pow2, Sought, Behind;
      matchLength := MIN_MATCH - 1;
      raw, oldest := matchLength, hashHead + 1;
      if hashHead != NIL && w.prevLength < maxLazy && w.strstart - hashHead <= w.MaxDist() {
        oldest := SlowLongest(hashHead);
        raw := matchLength;
        if matchLength <= 5 && (filtered || (matchLength == MIN_MATCH && Behind(w.strstart, w.matchStart) > TOO_FAR)) {
          matchLength := MIN_MATCH - 1;
        }
      } else if w.prevLength < maxLazy && w.lookahead >= MIN_MATCH {
        NothingSought(Z(), w.C(), w.strstart, w.lookahead, w.prevLength, hashHead);
      }
    }

    /** The longest match at strstart, which counts if it is better than the one before. */
    method SlowLongest(hashHead: nat) returns (ghost oldest: int)
      requires w.Holding() && w.end == w.strstart + w.lookahead && w.top == w.strstart + 1
      requires w.strstart <= 2 * w.wSize - MIN_LOOKAHEAD && 1 <= w.prevLength <= MAX_MATCH && w.lookahead >= MIN_MATCH
      requires hashHead in w.ins && 0 < hashHead < w.strstart && w.strstart - hashHead <= w.MaxDist()
      requires HashAt(w.h, w.window[..], hashHead) == HashAt(w.h, w.window[..], w.strstart)
      requires forall q ::
        q in w.ins && q < w.strstart && HashAt(w.h, w.window[..], q) == HashAt(w.h, w.window[..], w.strstart) ==>
          q <= hashHead
      modifies this`matchLength, w`matchStart
      ensures w.Holding() && matchLength <= MAX_MATCH && (matchLength >= w.prevLength || matchLength == w.lookahead)
      ensures matchLength > w.prevLength ==> Pending(w.strstart, w.matchStart, matchLength)
      ensures matchLength <= w.lookahead
      ensures Sought(Z(), w.C(), w.strstart, w.lookahead, w.prevLength, matchLength, oldest)
    {
      hide Within, TokensOk, ChainsOk, WindowHolds, Primed, HashOk, HashAt, Agree, MatchAt, Best, Chain, Pow2;
      matchLength, oldest := w.LongestMatch(hashHead);
      if matchLength > w.prevLength {
        AgreeIsMatch(w.window[..], w.data, w.base, w.end, w.matchStart, w.strstart, matchLength);
      }
    }

    /** One step of lazy evaluation; stop if the output is full. */
    method SlowStep() returns (stop: bool)
      requires Ready() && SlowReady() && Covered(w.strstart - Held()) && w.lookahead > 0 && Accounted()
      requires w.strstart <= 2 * w.wSize - MIN_LOOKAHEAD
      modifies Repr()
      ensures Ready() && SlowReady() && Covered(w.strstart - Held())
      ensures |old(blocks)| <= |blocks| <= |old(blocks)| + 1 && blocks[..|old(blocks)|] == old(blocks)
      ensures forall k :: |old(blocks)| <= k < |blocks| ==> !blocks[k].last
      ensures w.base == old(w.base) && w.data == old(w.data) && w.input == old(w.input)
      ensures old(w.strstart) < w.strstart <= old(w.strstart) + MAX_MATCH
      ensures w.strstart + w.lookahead == old(w.strstart + w.lookahead)
      ensures Accounted() && (old(Dense() && AllSeen(Z(), finds)) ==> Dense() && AllSeen(Z(), finds))
    {
      hide Within, TokensOk, ChainsOk, WindowHolds, Primed, HashOk, MatchAt, Account, Behind, FindOk, Grown, Ripe;
      hide AllSeen, DenseTo, SeenOf, TokensOf;
      ghost var was, fs, s := w.ins, finds, w.strstart;
      ghost var f := SlowSearch();
      ghost var mid := w.ins;
      HoldsLength(w.window[..], w.data, w.base, w.end);
      SeenAll(fs, f, was, s);
      stop := Decide(f);
      GrownOn(was, mid, w.ins, s, w.strstart, w.end);
      StillDense(was, s);
    }

    /** The match held back goes out if it is not beaten, or else the byte held back, if
        there is one. */
    method Decide(ghost f: Find) returns (stop: bool)
      requires Looked() && Weighing(f) && |syms| < symMax && w.blockStart <= w.strstart && maxLazy <= MAX_MATCH
      requires Covered(w.strstart - Held()) && w.lookahead > 0 && w.strstart <= 2 * w.wSize - MIN_LOOKAHEAD
      requires MIN_MATCH - 1 <= matchLength <= MAX_MATCH && (matchAvailable ==> w.strstart >= 1)
      requires MIN_MATCH - 1 <= w.prevLength <= MAX_MATCH
      requires w.prevLength >= MIN_MATCH ==> matchAvailable && Pending(w.strstart - 1, prevMatch, w.prevLength)
      requires matchLength >= MIN_MATCH && matchLength > w.prevLength ==> Pending(w.strstart, w.matchStart, matchLength)
      modifies Repr()
      ensures Ready() && SlowReady() && Covered(w.strstart - Held()) && Accounted()
      ensures |old(blocks)| <= |blocks| <= |old(blocks)| + 1 && blocks[..|old(blocks)|] == old(blocks)
      ensures forall k :: |old(blocks)| <= k < |blocks| ==> !blocks[k].last
      ensures w.base == old(w.base) && w.data == old(w.data) && w.input == old(w.input)
      ensures old(w.strstart) < w.strstart <= old(w.strstart) + MAX_MATCH
      ensures w.strstart + w.lookahead == old(w.strstart + w.lookahead)
      ensures finds == old(finds[w.base + w.strstart := f]) && w.insert == old(w.insert)
      ensures Grown(old(w.ins), w.ins, old(w.strstart) + 1, Ripe(w.strstart, w.end))
    {
      hide Within, TokensOk, ChainsOk, WindowHolds, Primed, HashOk, MatchAt, Account, Behind, Searching, Grown;
      hide TokensOf;
      GrownNone(w.ins, w.strstart + 1, Ripe(w.strstart + 1, w.end));
      if w.prevLength >= MIN_MATCH && matchLength <= w.prevLength {
        stop := FlushPrevious(f);
      } else if matchAvailable {
        stop := EmitHeldLiteral(f);
      } else {
        stop := false;
        HoldBack(f);
      }
    }

    /** Nothing is held back: the byte at strstart is now. */
    method HoldBack(ghost f: Find)
      requires w.Holding() && w.end == w.strstart + w.lookahead && !matchAvailable && Weighing(f)
      requires w.lookahead > 0
      modifies this`matchAvailable, this`finds, w`strstart, w`lookahead
      ensures matchAvailable && w.strstart == old(w.strstart) + 1 && w.lookahead == old(w.lookahead) - 1
      ensures Accounted() && finds == old(finds[w.base + w.strstart := f])
    {
      hide ChainsOk, WindowHolds, HashOk, Account, Searching, Behind, TokensOf;
      AccountHold(Z(), w.data, All(), finds, w.base + w.strstart, w.prevLength, Behind(w.strstart - 1, prevMatch), f);
      finds := finds[w.base + w.strstart := f];
      matchAvailable := true;
      w.strstart := w.strstart + 1;
      w.lookahead := w.lookahead - 1;
    }

    /** The strings passed over since strstart was s are in. */
    lemma StillDense(was: set<int>, s: nat)
      requires s <= w.strstart && w.end == w.strstart + w.lookahead && Grown(was, w.ins, s, Ripe(w.strstart, w.end))
      ensures (w.insert > 0 ==> w.end - s + w.insert < MIN_MATCH) && DenseTo(was, s - w.insert, w.end) ==> Dense()
    {
      hide DenseTo, Grown;
      if (w.insert > 0 ==> w.end - s + w.insert < MIN_MATCH) && DenseTo(was, s - w.insert, w.end) {
        DenseStep(was, w.ins, s, w.strstart, w.insert, w.end);
      }
    }

    /** The search just made knew all strings in reach. */
    lemma SeenAll(fs: map<int, Find>, f: Find, was: set<int>, s: nat)
      requires w.strstart == s && w.end == s + w.lookahead && (w.base > 0 ==> s >= w.MaxDist()) && Recorded(f)
      requires Grown(was, w.ins, s, Ripe(s + 1, w.end)) && |w.data| == w.base + w.end
      requires w.lookahead >= MIN_MATCH ==> w.insert == 0
      ensures DenseTo(was, s - w.insert, w.end) && AllSeen(Z(), fs) ==> AllSeen(Z(), fs[w.base + s := f])
    {
      hide FindOk, SeenOf, AllSeen, Behind;
      if DenseTo(was, s - w.insert, w.end) && AllSeen(Z(), fs) {
        AllSeenMore(Z(), fs, w.ins, w.base, w.end, s, f);
      }
    }

    /** No match at the byte before, or a better one now: that byte is a literal. */
    method EmitHeldLiteral(ghost f: Find) returns (stop: bool)
      requires Looked() && |syms| < symMax && matchAvailable
      requires w.blockStart <= w.strstart
      requires symMax >= 1 && maxLazy <= MAX_MATCH
      requires 1 <= w.strstart <= 2 * w.wSize - MIN_LOOKAHEAD && Covered(w.strstart - 1) && w.lookahead > 0
      requires MIN_MATCH - 1 <= matchLength <= MAX_MATCH
      requires matchLength >= MIN_MATCH ==> Pending(w.strstart, w.matchStart, matchLength)
      requires Weighing(f) && (w.prevLength < MIN_MATCH || matchLength > w.prevLength)
      modifies this`syms, this`blocks, this`finds, w`strstart, w`lookahead, w`blockStart
      ensures Ready() && SlowReady() && matchAvailable && Covered(w.strstart - 1)
      ensures |old(blocks)| <= |blocks| <= |old(blocks)| + 1 && blocks[..|old(blocks)|] == old(blocks)
      ensures forall k :: |old(blocks)| <= k < |blocks| ==> !blocks[k].last
      ensures w.strstart == old(w.strstart) + 1 && w.lookahead == old(w.lookahead) - 1
      ensures Accounted() && finds == old(finds[w.base + w.strstart := f])
      ensures 0 <= w.base + old(w.strstart) - 1 < |w.data|
      ensures All() == old(All()) + [Lit(w.data[w.base + old(w.strstart) - 1])]
    {
      hide Within, TokensOk, ChainsOk, WindowHolds, Primed, HashOk, MatchAt, TokensOf;
      hide Searching, Account, Behind, All;
      ghost var ts, fs, pos, len := All(), finds, w.base + w.strstart, w.prevLength;
      ghost var dist := Behind(w.strstart - 1, prevMatch);
      stop := SendHeld();
      w.strstart := w.strstart + 1;
      w.lookahead := w.lookahead - 1;
      finds := finds[pos := f];
      AccountLit(Z(), w.data, ts, fs, pos, len, dist, f, w.data[pos - 1]);
    }

    /** The byte before strstart as a literal, and the block if it is full. */
    method SendHeld() returns (stop: bool)
      requires w.Holding() && w.strstart <= w.end && |syms| < symMax && 1 <= w.strstart && Covered(w.strstart - 1)
      requires w.blockStart <= w.strstart < 2 * w.wSize
      modifies this`syms, this`blocks, w`blockStart
      ensures Covered(w.strstart) && w.blockStart <= w.strstart && |syms| < symMax
      ensures |old(blocks)| <= |blocks| <= |old(blocks)| + 1 && blocks[..|old(blocks)|] == old(blocks)
      ensures forall k :: |old(blocks)| <= k < |blocks| ==> !blocks[k].last
      ensures 0 <= w.base + w.strstart - 1 < |w.data|
      ensures All() == old(All()) + [Lit(w.data[w.base + w.strstart - 1])]
    {
      hide Within, TokensOk, ChainsOk, WindowHolds, HashOk, All;
      var bflush := TallyHeld();
      stop := false;
      if bflush { stop := FlushBlockOnly(false); }
    }

    /** The byte before strstart as a literal. */
    method TallyHeld() returns (bflush: bool)
      requires w.Holding() && w.strstart <= w.end && |syms| < symMax && 1 <= w.strstart && Covered(w.strstart - 1)
      modifies this`syms
      ensures Covered(w.strstart) && |syms| == |old(syms)| + 1 && (bflush <==> |syms| == symMax)
      ensures 0 <= w.base + w.strstart - 1 < |w.data|
      ensures All() == old(All()) + [Lit(w.data[w.base + w.strstart - 1])]
    {
      hide Within, TokensOk, ChainsOk, WindowHolds, HashOk, TokensOf;
      HoldsLength(w.window[..], w.data, w.base, w.end);
      TokenLit(blocks, syms, w.data, w.base + w.blockStart, w.base + w.strstart - 1, w.MaxDist());
      HeldByte(w.window[..], w.data, w.base, w.end, w.strstart - 1);
      bflush := TallyLit(w.window[w.strstart - 1]);
    }

    /** fill_window under lazy evaluation: the match held back stays one, though its start
        may now lie before the window. */
    method FillSlow()
      requires Ready() && SlowReady() && Covered(w.strstart - Held()) && w.lookahead < MIN_LOOKAHEAD && Accounted()
      modifies w`input, w`lookahead, w`data, w`insert, w`insH, w`ins, w`top, w`base, w`end
      modifies w`matchStart, w`strstart, w`blockStart, w.window, w.prev, w.head
      ensures Ready() && SlowReady() && Covered(w.strstart - Held()) && Accounted() && (old(Thorough()) ==> Thorough())
      ensures w.strstart <= 2 * w.wSize - MIN_LOOKAHEAD && (w.lookahead < MIN_LOOKAHEAD ==> w.input == [])
      ensures w.lookahead + |w.input| == old(w.lookahead + |w.input|)
      ensures w.data + w.input == old(w.data + w.input) && old(w.data) <= w.data
    {
      hide Within, TokensOk, ChainsOk, WindowHolds, Primed, HashOk, MatchAt, Behind, Account, AllSeen, DenseTo;
      ghost var data, pos, dist := w.data, w.base + w.strstart - 1, Behind(w.strstart - 1, w.matchStart);
      ghost var s, m := w.strstart, w.matchStart;
      Fill(Held());
      BehindPred(s, m, w.strstart, w.matchStart);
      AccountGrows(Z(), data, w.data, All(), finds, w.base + w.strstart, matchAvailable, matchLength,
        Behind(w.strstart - 1, w.matchStart));
      if matchLength >= MIN_MATCH { MatchGrows(data, w.data, pos, dist, matchLength); }
    }

    /** deflate_slow: the same for lazy evaluation; one byte may be held back. */
    method DeflateSlow(flush: Flush) returns (state: BlockState)
      requires Ready() && SlowReady() && Covered(w.strstart - Held()) && Accounted()
      modifies Repr()
      ensures Ready() && SlowReady() && Covered(w.strstart - Held())
      ensures Accounted() && (old(Thorough()) ==> Thorough()) && (state != NeedMore ==> Caught())
      ensures w.data + w.input == old(w.data + w.input) && old(w.data) <= w.data
      ensures state == BlockDone || state == FinishDone || state == FinishStarted ==>
        w.input == [] && w.lookahead == 0 && syms == [] && w.blockStart == w.strstart && !matchAvailable
      ensures state == FinishDone || state == FinishStarted <==>
        flush == Finish && |blocks| > |old(blocks)| && blocks[|blocks| - 1].last
      ensures |old(blocks)| <= |blocks| && blocks[..|old(blocks)|] == old(blocks)
      ensures forall k :: |old(blocks)| <= k < |blocks| - 1 ==> !blocks[k].last
      ensures flush == Finish ==> state != BlockDone
      ensures flush == Finish && state == NeedMore ==> |w.input| + w.lookahead < old(|w.input| + w.lookahead)
      ensures state == NeedMore && |w.input| + w.lookahead == old(|w.input| + w.lookahead) ==>
        w.input == [] && (flush == NoFlush || |blocks| > |old(blocks)|)
    {
      hide Within, TokensOk, ChainsOk, WindowHolds, Primed, HashOk, MatchAt, Behind, Account, AllSeen, DenseTo;
      hide TokensOf;
      while true
        invariant Ready() && SlowReady() && Covered(w.strstart - Held())
        invariant Accounted() && (old(Thorough()) ==> Thorough())
        invariant w.data + w.input == old(w.data + w.input) && old(w.data) <= w.data
        invariant |old(blocks)| <= |blocks| && blocks[..|old(blocks)|] == old(blocks)
        invariant forall k :: |old(blocks)| <= k < |blocks| ==> !blocks[k].last
        invariant |w.input| + w.lookahead <= old(|w.input| + w.lookahead)
        decreases |w.input| + w.lookahead
      {
        if w.lookahead < MIN_LOOKAHEAD {
          FillSlow();
          if w.lookahead < MIN_LOOKAHEAD && flush == NoFlush { return NeedMore; }
          if w.lookahead == 0 { break; }
        }
        var stop := SlowStep();
        if stop { return NeedMore; }
      }
      state := FinishSlow(flush);
    }

    /** The end of deflate_slow, all input being used up. */
    method FinishSlow(flush: Flush) returns (state: BlockState)
      requires Ready() && SlowReady() && Covered(w.strstart - Held()) && Accounted()
      requires w.lookahead == 0 && w.input == []
      requires w.strstart <= 2 * w.wSize - MIN_LOOKAHEAD
      modifies Repr()
      ensures Ready() && SlowReady() && Covered(w.strstart) && !matchAvailable
      ensures Accounted() && Caught() && (old(Thorough()) ==> Thorough())
      ensures w.data == old(w.data) && w.input == [] && w.lookahead == 0
      ensures state != NeedMore ==> syms == [] && w.blockStart == w.strstart
      ensures state == FinishDone || state == FinishStarted <==> flush == Finish
      ensures state == NeedMore ==> |blocks| > |old(blocks)|
      ensures |old(blocks)| <= |blocks| <= |old(blocks)| + 1 && blocks[..|old(blocks)|] == old(blocks)
      ensures |blocks| > |old(blocks)| ==> (blocks[|blocks| - 1].last <==> flush == Finish)
      ensures flush == Finish ==> |blocks| > |old(blocks)|
    {
      hide Within, TokensOk, ChainsOk, WindowHolds, Primed, HashOk, MatchAt, Behind, Account, AllSeen, DenseTo, All;
      HoldsLength(w.window[..], w.data, w.base, w.end);
      if matchLength >= MIN_MATCH {
        MatchEnds(w.data, w.base + w.strstart - 1, Behind(w.strstart - 1, w.matchStart), matchLength);
      }
      if matchAvailable {
        ghost var ts := All();
        var bflush := TallyHeld();
        matchAvailable := false;
        AccountEnd(Z(), w.data, ts, finds, w.base + w.strstart, matchLength, Behind(w.strstart - 1, w.matchStart),
          w.data[w.base + w.strstart - 1], Behind(w.strstart - 1, w.matchStart));
      }
      state := FlushEnd(flush);
    }
  }

  lemma BehindPred(s: int, m: int, s': int, m': int)
    requires Behind(s, m) == Behind(s', m')
    ensures Behind(s - 1, m) == Behind(s' - 1, m')
  {
    OneLess(s - m);
    OneLess(s' - m');
  }

  lemma OneLess(x: int)
    ensures (x - 1) % UINT == if x % UINT == 0 then UINT - 1 else x % UINT - 1
  {
    var q, r := x / UINT, x % UINT;
    if r == 0 { DivModUnique(x - 1, UINT, q - 1, UINT - 1); } else { DivModUnique(x - 1, UINT, q, r - 1); }
  }

  lemma MatchEnds(data: seq<byte>, pos: int, dist: nat, len: nat)
    requires pos >= 0 && MatchAt(data, pos, dist, len)
    ensures pos + len <= |data|
  {
  }

  lemma MatchGrows(data: seq<byte>, more: seq<byte>, pos: int, dist: nat, len: nat)
    requires pos >= 0 && MatchAt(data, pos, dist, len) && data <= more
    ensures MatchAt(more, pos, dist, len)
  {
    assert forall i :: 0 <= i < |data| ==> more[i] == data[i];
  }

  lemma NothingLeft(blocks: seq<LzBlock>, data: seq<byte>, start: int, pos: int, maxDist: int)
    requires TokensOk(blocks, [], data, start, pos, maxDist)
    ensures start == pos
  {
    assert |data[..start]| == |data[..pos]|;
  }

  lemma ChainsTop(c: Chains, h: Hash, end: int)
    requires ChainsOk(c, h, end)
    ensures c.top <= 0 || c.top + 2 <= end
  {
  }

  lemma HeldByte(w: seq<byte>, data: seq<byte>, base: nat, end: nat, p: nat)
    requires WindowHolds(w, data, base, end) && p < end
    ensures w[p] == data[base + p]
  {
  }

  lemma HoldsLength(w: seq<byte>, data: seq<byte>, base: nat, end: nat)
    requires WindowHolds(w, data, base, end)
    ensures |data| == base + end
  {
  }

  lemma DataGrew(was: seq<byte>, in0: seq<byte>, now: seq<byte>, in1: seq<byte>)
    requires now + in1 == was + in0 && |was| <= |now|
    ensures was <= now && now == was + now[|was|..]
  {
    assert forall i :: 0 <= i < |was| ==> (now + in1)[i] == now[i] && (was + in0)[i] == was[i];
  }

  lemma WindowText(w: seq<byte>, data: seq<byte>, base: nat, end: nat, a: nat, b: nat)
    requires WindowHolds(w, data, base, end) && a <= b <= end
    ensures w[a..b] == data[base + a..base + b]
  {
  }
}
