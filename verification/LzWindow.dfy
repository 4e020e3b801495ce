/** deflate.c: the sliding window, its hash chains, and the search for the longest match. */
module LzWindow {
  import opened Bits
  import opened BitStream
  import opened Format
  import opened ExclusiveOr
  import opened RollingHash
  import opened HashChains

  const UINT: nat := 0x1_0000_0000

  /** The window holds the data from position base of the input up to end. */
  ghost predicate WindowHolds(w: seq<byte>, data: seq<byte>, base: nat, end: nat) {
    end <= |w| && base + end == |data| && forall i {:trigger w[i]} :: 0 <= i < end ==> w[i] == data[base + i]
  }

  /** The positions from a up to b. */
  ghost function Range(a: int, b: int): (r: set<int>)
    ensures forall q :: q in r <==> a <= q < b
    decreases b - a
  {
    if b <= a then {} else Range(a, b - 1) + {b - 1}
  }

  /** All strings from a up to b have been inserted, and no others. */
  ghost predicate Grown(was: set<int>, now: set<int>, a: int, b: int) {
    now == was + Range(a, b)
  }

  lemma GrownNot(was: set<int>, a: int)
    ensures Grown(was, was, a, a)
  {
  }

  lemma GrownMore(was: set<int>, mid: set<int>, a: int, b: int)
    requires Grown(was, mid, a, b) && a <= b
    ensures Grown(was, mid + {b}, a, b + 1)
  {
  }

  /** Where the strings before position to end that have all their bytes. */
  function Ripe(to: int, end: int): int {
    if to + MIN_MATCH - 1 <= end then to else end - (MIN_MATCH - 1)
  }

  lemma GrownOn(was: set<int>, mid: set<int>, now: set<int>, s: int, to: int, end: int)
    requires Grown(was, mid, s, Ripe(s + 1, end)) && Grown(mid, now, s + 1, Ripe(to, end)) && s < to
    ensures Grown(was, now, s, Ripe(to, end))
  {
  }

  lemma GrownNone(was: set<int>, a: int, b: int)
    requires b <= a
    ensures Grown(was, was, a, b)
  {
  }

  lemma GrownOne(was: set<int>, s: int)
    ensures Grown(was, was + {s}, s, s + 1)
  {
  }

  /** The strings inserted move down by k with the window, and those from position from on
      that have their bytes now are inserted up to position to. */
  ghost predicate Carried(was: set<int>, now: set<int>, k: int, from: int, to: int) {
    && (forall q :: q in was && q >= k ==> q - k in now)
    && (forall q {:trigger q in now} :: 0 <= q < to && from <= q + k ==> q in now)
  }

  /** In the data, len bytes at p equal those dist positions before. */
  ghost predicate MatchAt(data: seq<byte>, p: nat, dist: nat, len: nat) {
    1 <= dist <= p && p + len <= |data| && forall i {:trigger data[i]} :: p <= i < p + len ==> data[i] == data[i - dist]
  }

  function HashFor(memLevel: nat): Hash {
    Hash(memLevel + 7, (memLevel + 7 + MIN_MATCH - 1) / MIN_MATCH)
  }

  /** The string matching part of deflate_state; input is what avail_in still offers. */
  class Window {
    const h: Hash
    const wSize: nat
    const maxChain: nat
    const goodMatch: nat
    const niceMatch: nat
    const window: array<byte>
    const prev: array<nat>
    const head: array<nat>
    var input: seq<byte>
    var strstart: nat
    var lookahead: nat
    var insert: nat
    var insH: nat
    var matchStart: nat
    var prevLength: nat
    var blockStart: int
    ghost var data: seq<byte>
    ghost var base: nat
    ghost var end: nat
    ghost var ins: set<int>
    ghost var top: int

    /** lm_init: an empty window and empty chains. */
    constructor (windowBits: nat, memLevel: nat, chain: nat, good: nat, nice: nat)
      requires 9 <= windowBits <= 15 && 1 <= memLevel <= 9 && chain >= 4 && nice <= MAX_MATCH
      ensures Valid() && data == [] && base == 0 && strstart == 0 && lookahead == 0 && blockStart == 0 && input == []
      ensures wSize == Pow2(windowBits) && prevLength == MIN_MATCH - 1 && insert == 0
      ensures h == HashFor(memLevel) && maxChain == chain && goodMatch == good && niceMatch == nice
      ensures fresh(window) && fresh(prev) && fresh(head)
    {
      hide ChainsOk, Pow2, Primed;
      wSize := Pow2(windowBits);
      h := HashFor(memLevel);
      maxChain, goodMatch, niceMatch := chain, good, nice;
      window := new byte[2 * Pow2(windowBits)](_ => 0);
      prev := new nat[Pow2(windowBits)](_ => 0);
      head := new nat[Pow2(memLevel + 7)](_ => NIL);
      input, strstart, lookahead, insert, insH, matchStart, prevLength, blockStart := [], 0, 0, 0, 0, 0, MIN_MATCH - 1,
        0;
      data, base, end, ins, top := [], 0, 0, {}, 0;
      new;
      Pow2Mono(9, windowBits);
      Pow2Mono(windowBits, 15);
      Pow2Values();
      NoChains(C(), h);
    }

    ghost predicate Shape() {
      && HashOk(h) && 512 <= wSize <= 32768 && window.Length == 2 * wSize && prev.Length == wSize
      && head.Length == Pow2(h.bits)
      && prev != head && 4 <= maxChain && niceMatch <= MAX_MATCH
    }

    ghost function C(): Chains
      reads this, window, prev, head
    {
      Chains(window[..], prev[..], head[..], ins, top)
    }

    ghost predicate Holding()
      reads this, window, prev, head
    {
      && Shape() && end <= 2 * wSize && WindowHolds(window[..], data, base, end)
      && ChainsOk(C(), h, end) && matchStart < UINT
    }

    ghost predicate Valid()
      reads this, window, prev, head
    {
      && Holding() && end == strstart + lookahead && insert <= strstart && top <= strstart - insert
      && (lookahead >= MIN_MATCH ==> insert == 0 && Primed(h, window[..], insH, strstart))
    }

    function MaxDist(): int { wSize - MIN_LOOKAHEAD }

    /** INSERT_STRING: returns the previous head of the chain, which is the newest string
        of that hash inserted before. */
    method InsertString(str: nat) returns (hashHead: nat)
      requires Holding() && top <= str && str + MIN_MATCH <= end && Primed(h, window[..], insH, str)
      modifies this`insH, this`ins, this`top, prev, head
      ensures Holding() && ins == old(ins) + {str} && top == str + 1 && Primed(h, window[..], insH, str + 1)
      ensures hashHead == NIL
        || (hashHead in ins && hashHead < str && HashAt(h, window[..], hashHead) == HashAt(h, window[..], str))
      ensures forall q :: q in old(ins) && HashAt(h, window[..], q) == HashAt(h, window[..], str) ==> q <= hashHead
    {
      hide Update, ChainsOk, WindowHolds, Pow2;
      ghost var c := C();
      KeyAt(h, window[..], insH, str);
      insH := Update(h, insH, window[str + MIN_MATCH - 1]);
      InsertKeeps(c, h, end, str);
      HeadFacts(c, h, end, str, insH);
      hashHead := head[insH];
      prev[str % wSize] := hashHead;
      head[insH] := str;
      ins, top := ins + {str}, str + 1;
      assert C() == Inserted(c, insH, str);
    }

    /** slide_hash: rebase every link, dropping those that leave the window. */
    method SlideHash()
      requires Shape()
      modifies prev, head
      ensures forall k :: 0 <= k < head.Length ==> head[k] == Down(old(head[k]), wSize)
      ensures forall i :: 0 <= i < prev.Length ==> prev[i] == Down(old(prev[i]), wSize)
    {
      var n := head.Length;
      while n > 0
        invariant 0 <= n <= head.Length
        invariant forall k :: 0 <= k < head.Length ==> head[k] == if k >= n then Down(old(head[k]), wSize)
          else old(head[k])
        modifies head
      {
        n := n - 1;
        var m := head[n];
        head[n] := if m >= wSize then m - wSize else NIL;
      }
      n := wSize;
      while n > 0
        invariant 0 <= n <= wSize
        invariant forall i :: 0 <= i < prev.Length ==> prev[i] == if i >= n then Down(old(prev[i]), wSize)
          else old(prev[i])
        modifies prev
      {
        n := n - 1;
        var m := prev[n];
        prev[n] := if m >= wSize then m - wSize else NIL;
      }
    }

    /** Move the upper half of the window to the lower one, and the chains with it. */
    method SlideArrays(to: nat)
      requires Shape() && wSize <= to <= 2 * wSize
      modifies this`ins, this`top, window, prev, head
      ensures Slid(old(C()), C(), wSize)
      ensures forall i :: 0 <= i < to - wSize ==> window[i] == old(window[wSize + i])
    {
      hide HashOk, Pow2;
      ghost var c := C();
      CopyIn(0, window[wSize..to]);
      SlideHash();
      top := top - wSize;
      ins := set q | q in c.ins && q >= wSize :: q - wSize;
    }

    /** The arrays, and with them where the window is in the data. */
    method SlideContents()
      requires Valid() && wSize + MaxDist() <= strstart
      modifies this`base, this`end, this`ins, this`top, window, prev, head
      ensures Holding() && base == old(base) + wSize && end == old(end) - wSize && top == old(top) - wSize
      ensures lookahead >= MIN_MATCH ==> Primed(h, window[..], insH, strstart - wSize)
      ensures Slid(old(C()), C(), wSize)
    {
      hide ChainsOk, WindowHolds, HashAt, Primed, Pow2, HashOk, Slid;
      ghost var c := C();
      SlideArrays(strstart + lookahead);
      SlideKeeps(c, C(), h, end, wSize);
      SlideHolds(c.w, window[..], data, base, end, wSize);
      if lookahead >= MIN_MATCH { SlidePrimed(h, c.w, window[..], insH, strstart - wSize, wSize, end); }
      SlidTop(c, C(), wSize);
      base, end := base + wSize, end - wSize;
    }

    /** The slide in fill_window: every position moves down by the window size. */
    method SlideWindow()
      requires Valid() && wSize + MaxDist() <= strstart
      modifies this`matchStart, this`strstart, this`blockStart, this`insert, this`base, this`end, this`ins, this`top
      modifies window, prev, head
      ensures Valid() && strstart == old(strstart) - wSize && base == old(base) + wSize
      ensures base + blockStart == old(base + blockStart)
      ensures Behind(strstart, matchStart) == old(Behind(strstart, matchStart))
      ensures Carried(old(ins), ins, wSize, old(strstart - insert), strstart - insert)
      ensures insert == if old(insert) > strstart then strstart else old(insert)
    {
      hide ChainsOk, WindowHolds, Primed, Pow2, HashOk, Slid, Carried, Behind;
      ghost var c, from := C(), strstart - insert;
      SlideContents();
      WrapDown(strstart, matchStart, wSize);
      matchStart := (matchStart - wSize) % UINT;
      strstart := strstart - wSize;
      blockStart := blockStart - wSize;
      if insert > strstart { insert := strstart; }
      CarriedDown(c, C(), wSize, from, strstart - insert);
    }

    method CopyIn(at: nat, from: seq<byte>)
      requires at + |from| <= window.Length
      modifies window
      ensures forall i :: 0 <= i < window.Length && (i < at || at + |from| <= i) ==> window[i] == old(window[i])
      ensures forall i :: 0 <= i < |from| ==> window[at + i] == from[i]
    {
      forall i | 0 <= i < |from| { window[at + i] := from[i]; }
    }

    /** read_buf into the window: as much of the input as there is room for. */
    method ReadBuf(more: nat)
      requires Valid() && strstart + lookahead + more <= 2 * wSize
      modifies this`input, this`lookahead, this`data, this`end, window
      ensures Holding() && end == strstart + lookahead && var n := if |old(input)| < more then |old(input)| else more;
        input == old(input)[n..] && data == old(data) + old(input)[..n] && lookahead == old(lookahead) + n
    {
      hide ChainsOk, WindowHolds, Pow2, HashOk;
      var n := if |input| < more then |input| else more;
      ghost var c := C();
      CopyIn(strstart + lookahead, input[..n]);
      ReadHolds(c.w, window[..], data, base, end, input[..n]);
      FillKeeps(c, h, window[..], end, end + n);
      data := data + input[..n];
      input := input[n..];
      lookahead, end := lookahead + n, end + n;
      assert C() == c.(w := window[..]);
    }

    /** Start the running hash again and insert the strings that were too short before. */
    method PrimeHash()
      requires Holding() && end == strstart + lookahead && insert <= strstart && top <= strstart - insert
      requires lookahead + insert >= MIN_MATCH
      modifies this`insert, this`insH, this`ins, this`top, prev, head
      ensures Valid() && insert <= old(insert) && (insert > 0 ==> lookahead + insert < MIN_MATCH)
      ensures Grown(old(ins), ins, strstart - old(insert), strstart - insert)
    {
      hide ChainsOk, WindowHolds, Pow2, HashOk, HashAt, Update, Primed, Grown;
      var str := strstart - insert;
      GrownNot(ins, str);
      insH := window[str];
      PrimedStart(h, window[..], str);
      insH := Update(h, insH, window[str + 1]);
      while insert > 0
        invariant Holding() && end == strstart + lookahead && insert <= strstart && str == strstart - insert
        invariant top <= str
        invariant lookahead + insert >= MIN_MATCH && Primed(h, window[..], insH, str)
        invariant insert <= old(insert) && Grown(old(ins), ins, strstart - old(insert), str)
        decreases insert
      {
        GrownMore(old(ins), ins, strstart - old(insert), str);
        var old' := InsertString(str);
        str := str + 1;
        insert := insert - 1;
        if lookahead + insert < MIN_MATCH { break; }
      }
    }

    /** Read, and insert the strings that have got their bytes. */
    method ReadMore(more: nat, ghost was: set<int>, ghost k: int, ghost from: int)
      requires Valid() && strstart + lookahead + more <= 2 * wSize && Carried(was, ins, k, from, strstart - insert)
      modifies this`input, this`lookahead, this`data, this`end, this`insert, this`insH, this`ins, this`top
      modifies window, prev, head
      ensures Valid() && insert <= old(insert) && Carried(was, ins, k, from, strstart - insert)
      ensures insert > 0 ==> lookahead + insert < MIN_MATCH
      ensures data + input == old(data + input) && lookahead >= old(lookahead)
      ensures lookahead + |input| == old(lookahead + |input|)
      ensures |input| == 0 || lookahead == old(lookahead) + more
    {
      hide ChainsOk, WindowHolds, Pow2, HashOk, Update, Primed, Carried, Grown;
      ReadBuf(more);
      ghost var mid, to := ins, strstart - insert;
      if lookahead + insert >= MIN_MATCH {
        PrimeHash();
        CarriedOn(was, mid, ins, k, from, to, strstart - insert);
      }
    }

    /** fill_window: slide if the window is almost full, and read what there is room for.
        The loop of the source never goes round again: one pass leaves enough to search
        or no more input. */
    method FillWindow()
      requires Valid() && lookahead < MIN_LOOKAHEAD
      modifies this`input, this`lookahead, this`data, this`insert, this`insH, this`ins, this`top, this`base, this`end
      modifies this`matchStart, this`strstart, this`blockStart, window, prev, head
      ensures Valid() && strstart <= 2 * wSize - MIN_LOOKAHEAD && (lookahead < MIN_LOOKAHEAD ==> input == [])
      ensures strstart == old(strstart) || strstart >= MaxDist()
      ensures base + strstart == old(base + strstart) && base + blockStart == old(base + blockStart)
      ensures lookahead >= old(lookahead) && lookahead + |input| == old(lookahead + |input|)
      ensures data + input == old(data + input)
      ensures Behind(strstart, matchStart) == old(Behind(strstart, matchStart))
      ensures base == old(base) || (base > old(base) && strstart >= MaxDist())
      ensures insert <= old(insert) && (old(input) == [] ==> input == [] && data == old(data))
      ensures old(insert > 0 ==> lookahead + insert < MIN_MATCH) ==> insert > 0 ==> lookahead + insert < MIN_MATCH
      ensures Carried(old(ins), ins, base - old(base), old(strstart - insert), strstart - insert)
    {
      hide ChainsOk, WindowHolds, Pow2, HashOk, Update, Primed, Carried, Range, Behind;
      ghost var was, from := ins, strstart - insert;
      var more := 2 * wSize - lookahead - strstart;
      if strstart >= wSize + MaxDist() {
        SlideWindow();
        more := more + wSize;
      } else {
        CarriedNowhere(was, from);
      }
      if |input| == 0 { return; }
      ReadMore(more, was, base - old(base), from);
    }

    /** The unrolled comparison: eight bytes between checks of the end, the third byte
        never compared since the hash says it is equal. */
    method CompareStrings(cur: nat) returns (len: nat)
      requires Shape() && cur < strstart <= 2 * wSize - MIN_LOOKAHEAD
      requires Agree(window[..], cur, strstart, MIN_MATCH)
      ensures MIN_MATCH <= len <= MAX_MATCH && Agree(window[..], cur, strstart, len)
      ensures len < MAX_MATCH ==> window[cur + len] != window[strstart + len]
    {
      hide Pow2, HashOk, Abreast, Agree;
      var strend := strstart + MAX_MATCH;
      var scan, match' := strstart + 2, cur + 2;
      var equal := true;
      ghost var rounds := 0;
      AbreastStart(window[..], cur, strstart);
      while equal && scan < strend
        invariant scan - strstart == match' - cur && strstart + 2 <= scan <= strend
        invariant equal ==> scan == strstart + 2 + 8 * rounds
        invariant !equal ==> scan > strstart + 2
        invariant Abreast(window[..], cur, strstart, scan - strstart, equal)
        decreases strend - scan
      {
        ghost var scan0 := scan;
        rounds := rounds + 1;
        var k := 0;
        while k < 8 && equal
          invariant 0 <= k <= 8 && (k == 0 ==> equal) && scan == scan0 + k && scan - strstart == match' - cur
            && strstart + 2 <= scan <= strend
          invariant scan0 + 8 <= strend
          invariant Abreast(window[..], cur, strstart, scan - strstart, equal)
          decreases 8 - k
        {
          AbreastNext(window[..], cur, strstart, scan - strstart);
          scan, match', k := scan + 1, match' + 1, k + 1;
          equal := window[scan] == window[match'];
        }
      }
      AbreastEnd(window[..], cur, strstart, scan - strstart, equal);
      len := MAX_MATCH - (strend - scan);
    }

    /** How far the strings at cur and strstart agree, 0 if not beyond bestLen. */
    method Candidate(cur: nat, bestLen: nat, scanEnd1: byte, scanEnd: byte) returns (len: nat)
      requires Shape() && cur < strstart <= 2 * wSize - MIN_LOOKAHEAD && 1 <= bestLen <= MAX_MATCH
      requires HashAt(h, window[..], cur) == HashAt(h, window[..], strstart)
      requires scanEnd1 == window[strstart + bestLen - 1] && scanEnd == window[strstart + bestLen]
      ensures len == 0 || (MIN_MATCH <= len <= MAX_MATCH && Agree(window[..], cur, strstart, len))
      ensures forall n :: len < n <= MAX_MATCH && bestLen < n ==> !Agree(window[..], cur, strstart, n)
    {
      hide Pow2, HashAt, HashOk, Agree;
      len := 0;
      if window[cur + bestLen] == scanEnd && window[cur + bestLen - 1] == scanEnd1 &&
         window[cur] == window[strstart] && window[cur + 1] == window[strstart + 1] {
        SameThird(h, window[..], cur, strstart);
        len := CompareStrings(cur);
        if len < MAX_MATCH { DiffersAt(window[..], cur, strstart, len); }
      } else {
        FirstDiffers(window[..], cur, strstart, bestLen);
      }
    }

    /** How many strings longest_match may look at. */
    function ChainLimit(): nat
      reads this
    {
      if prevLength >= goodMatch then maxChain / 4 else maxChain
    }

    /** longest_match: a result above prevLength is the length of a true match at
        matchStart, within reach and within the lookahead; unless it is nice enough or
        the lookahead's length, no string inserted from oldest on has a longer one, and
        oldest is out of reach unless as many strings have been compared as allowed. */
    method LongestMatch(curMatch: nat) returns (len: nat, ghost oldest: nat)
      requires Holding() && end == strstart + lookahead && top == strstart + 1 && strstart <= 2 * wSize - MIN_LOOKAHEAD
      requires curMatch in ins && 0 < curMatch < strstart && strstart - curMatch <= MaxDist()
      requires HashAt(h, window[..], curMatch) == HashAt(h, window[..], strstart)
      requires forall q :: q in ins && q < strstart && HashAt(h, window[..], q) == HashAt(h, window[..], strstart) ==>
        q <= curMatch
      requires 1 <= prevLength <= MAX_MATCH && lookahead >= MIN_MATCH
      modifies this`matchStart
      ensures len <= lookahead && len <= MAX_MATCH && matchStart < UINT
      ensures len >= prevLength || len == lookahead
      ensures len > prevLength ==>
        matchStart < strstart && strstart - matchStart <= MaxDist() && Agree(window[..], matchStart, strstart, len)
      ensures len < lookahead && len < niceMatch ==> Best(C(), h, oldest, strstart, len)
      ensures len < lookahead && len < niceMatch ==>
        oldest <= 1 || oldest + MaxDist() <= strstart + 1 || |Chain(C(), h, oldest, strstart)| == ChainLimit()
    {
      hide ChainsOk, WindowHolds, Pow2, HashAt, HashOk, Agree, Chain, Best, Searched;
      var limit := if strstart > MaxDist() then strstart - MaxDist() else NIL;
      var chainLength, nice := ChainLimit(), if niceMatch > lookahead then lookahead else niceMatch;
      NoneNewer(C(), h, curMatch, strstart, prevLength);
      var bestLen;
      bestLen, oldest := SearchChain(curMatch, limit, nice, chainLength);
      len := if bestLen <= lookahead then bestLen else lookahead;
      AgreeLess(window[..], matchStart, strstart, bestLen, len);
    }

    /** The loop of longest_match: along the chain until it leaves the reach, a match is
        nice enough, or chain strings have been compared. */
    method SearchChain(curMatch: nat, limit: nat, nice: nat, chain: nat) returns (bestLen: nat, ghost oldest: nat)
      requires Holding() && top == strstart + 1 && strstart <= 2 * wSize - MIN_LOOKAHEAD
      requires limit <= curMatch < strstart <= limit + MaxDist() && matchStart < UINT && chain >= 1
      requires Searched(C(), h, curMatch, strstart, prevLength, 0)
      requires 1 <= prevLength <= MAX_MATCH
      modifies this`matchStart
      ensures prevLength <= bestLen <= MAX_MATCH && matchStart < UINT
      ensures bestLen > prevLength ==>
        limit <= matchStart < strstart && Agree(window[..], matchStart, strstart, bestLen)
      ensures bestLen < nice || bestLen == prevLength ==>
        && Best(C(), h, oldest, strstart, bestLen)
        && (oldest <= limit + 1 || |Chain(C(), h, oldest, strstart)| == chain)
    {
      hide ChainsOk, WindowHolds, Pow2, HashAt, HashOk, Agree, Chain, Best, Searched;
      ghost var c := C();
      var chainLength, cur := chain, curMatch;
      bestLen := prevLength;
      var scanEnd1, scanEnd := window[strstart + bestLen - 1], window[strstart + bestLen];
      while true
        invariant limit <= cur < strstart && chainLength >= 1 && matchStart < UINT
        invariant Searched(c, h, cur, strstart, bestLen, chain - chainLength)
        invariant prevLength <= bestLen <= MAX_MATCH
        invariant scanEnd1 == window[strstart + bestLen - 1] && scanEnd == window[strstart + bestLen]
        invariant bestLen > prevLength ==>
          limit <= matchStart < strstart && Agree(window[..], matchStart, strstart, bestLen)
        decreases chainLength
      {
        SearchedAt(c, h, cur, strstart, bestLen, chain - chainLength);
        var l := Candidate(cur, bestLen, scanEnd1, scanEnd);
        assert c.w == window[..];
        SearchOn(c, h, end, cur, strstart, bestLen, if l > bestLen then l else bestLen, chain - chainLength);
        oldest := cur;
        if l > 0 {
          if l > bestLen {
            matchStart := cur;
            bestLen := l;
            if l >= nice { break; }
            scanEnd1, scanEnd := window[strstart + bestLen - 1], window[strstart + bestLen];
          }
        }
        cur := prev[cur % wSize];
        if cur <= limit {
          if limit < oldest { oldest := limit + 1; }
          break;
        }
        chainLength := chainLength - 1;
        if chainLength == 0 { break; }
      }
    }
  }

  /** The first len bytes agree, and the next one if equal says so. */
  ghost predicate Abreast(w: seq<byte>, m: nat, s: nat, len: int, equal: bool) {
    Agree(w, m, s, len) && 0 <= len && s + len < |w| && (equal <==> w[s + len] == w[m + len])
  }

  lemma AbreastStart(w: seq<byte>, m: nat, s: nat)
    requires Agree(w, m, s, MIN_MATCH)
    ensures Abreast(w, m, s, MIN_MATCH - 1, true)
  {
    assert w[s + 2] == w[s + 2 - s + m];
  }

  lemma AbreastNext(w: seq<byte>, m: nat, s: nat, len: int)
    requires Abreast(w, m, s, len, true) && s + len + 1 < |w|
    ensures m <= s && Abreast(w, m, s, len + 1, w[s + len + 1] == w[m + len + 1])
  {
    assert w[s + len] == w[s + len - s + m];
  }

  lemma AbreastEnd(w: seq<byte>, m: nat, s: nat, len: int, equal: bool)
    requires Abreast(w, m, s, len, equal)
    ensures Agree(w, m, s, len) && 0 <= len && m <= s && s + len < |w| && (!equal ==> w[s + len] != w[m + len])
  {
  }

  /** None of the strings of the chain from `from` on agrees for more than len bytes. */
  ghost predicate Best(c: Chains, h: Hash, from: int, s: int, len: int) {
    forall q, n :: q in Chain(c, h, from, s) && len < n <= MAX_MATCH ==> !Agree(c.w, q, s, n)
  }

  /** A longer match anywhere in reach would have been on the chain. */
  lemma BestOfAll(c: Chains, h: Hash, from: int, s: int, len: int, q: int, n: int)
    requires Best(c, h, from, s, len) && q in c.ins && from <= q < s && 0 <= q && Agree(c.w, q, s, n)
    requires MIN_MATCH <= n <= MAX_MATCH
    ensures n <= len
  {
    assert c.w[s] == c.w[q] && c.w[s + 1] == c.w[q + 1] && c.w[s + 2] == c.w[q + 2] by {
      assert c.w[s + 1 - s + q] == c.w[q + 1] && c.w[s + 2 - s + q] == c.w[q + 2];
    }
    assert q in Chain(c, h, from, s);
  }

  /** n strings before cur on the chain, from strstart s back, have been compared. */
  ghost predicate Searched(c: Chains, h: Hash, cur: int, s: int, len: int, n: int) {
    && cur in c.ins && 0 < cur < s && HashAt(h, c.w, cur) == HashAt(h, c.w, s)
    && Best(c, h, cur + 1, s, len) && |Chain(c, h, cur, s)| == n + 1
  }

  lemma SearchedAt(c: Chains, h: Hash, cur: int, s: int, len: int, n: int)
    requires Searched(c, h, cur, s, len, n)
    ensures cur in c.ins && 0 < cur < s && HashAt(h, c.w, cur) == HashAt(h, c.w, s) && |Chain(c, h, cur, s)| == n + 1
  {
  }

  lemma NoneNewer(c: Chains, h: Hash, cur: int, s: int, len: int)
    requires cur in c.ins && 0 < cur < s && HashAt(h, c.w, cur) == HashAt(h, c.w, s)
    requires forall q :: q in c.ins && q < s && HashAt(h, c.w, q) == HashAt(h, c.w, s) ==> q <= cur
    ensures Searched(c, h, cur, s, len, 0)
  {
    hide HashAt;
    assert Chain(c, h, cur, s) == {cur};
  }

  /** One more string compared, and the link to the next. */
  lemma SearchOn(c: Chains, h: Hash, end: int, cur: nat, s: int, len: int, more: int, n: int)
    requires ChainsOk(c, h, end) && |c.prev| > 0 && cur + |c.prev| >= c.top
    requires Searched(c, h, cur, s, len, n) && len <= more
    requires forall k :: more < k <= MAX_MATCH ==> !Agree(c.w, cur, s, k)
    ensures var p := c.prev[cur % |c.prev|];
      && (forall r :: p < r <= cur ==> Best(c, h, r, s, more))
      && (p != NIL ==> p < cur && Searched(c, h, p, s, more, n + 1)) && Best(c, h, cur, s, more)
  {
    hide HashAt, Agree, ChainsOk;
    Follow(c, h, end, cur, s);
    forall q | q in Chain(c, h, cur, s) ensures q == cur || q in Chain(c, h, cur + 1, s) { }
    assert Best(c, h, cur, s, more);
    var p := c.prev[cur % |c.prev|];
    if p != NIL { assert Best(c, h, p + 1, s, more); }
  }

  lemma FirstDiffers(w: seq<byte>, m: nat, s: nat, len: nat)
    requires 1 <= len && m <= s && s + len < |w|
    requires w[m + len] != w[s + len] || w[m + len - 1] != w[s + len - 1] || w[m] != w[s] || w[m + 1] != w[s + 1]
    ensures forall n :: len < n ==> !Agree(w, m, s, n)
  {
  }

  lemma DiffersAt(w: seq<byte>, m: nat, s: nat, len: nat)
    requires m <= s && s + len < |w| && w[m + len] != w[s + len]
    ensures forall n :: len < n ==> !Agree(w, m, s, n)
  {
  }

  /** The bytes of the window at m and at s agree for a given length. */
  ghost predicate Agree(w: seq<byte>, m: int, s: int, len: int) {
    0 <= m <= s && s + len <= |w| && forall i {:trigger w[i]} :: s <= i < s + len ==> w[i] == w[i - s + m]
  }

  lemma AgreeLess(w: seq<byte>, m: int, s: int, a: int, b: int)
    requires b <= a
    ensures Agree(w, m, s, a) ==> Agree(w, m, s, b)
  {
  }

  /** Two equal bytes and an equal hash: the third byte is equal too. */
  lemma SameThird(h: Hash, w: seq<byte>, m: nat, s: nat)
    requires HashOk(h) && m < s && s + 2 < |w| && w[m] == w[s] && w[m + 1] == w[s + 1]
    requires HashAt(h, w, m) == HashAt(h, w, s)
    ensures Agree(w, m, s, MIN_MATCH)
  {
    hide Update;
    ThirdByteAgrees(h, w[m], w[m + 1], w[m + 2], w[s + 2]);
  }

  lemma ReadHolds(w: seq<byte>, w': seq<byte>, data: seq<byte>, base: nat, end: nat, more: seq<byte>)
    requires WindowHolds(w, data, base, end) && end + |more| <= |w| == |w'|
    requires (forall i :: 0 <= i < end ==> w'[i] == w[i]) && forall i :: 0 <= i < |more| ==> w'[end + i] == more[i]
    ensures WindowHolds(w', data + more, base, end + |more|)
  {
    forall i | 0 <= i < end + |more| ensures w'[i] == (data + more)[base + i] {
      if i >= end { assert w'[end + (i - end)] == more[i - end]; }
    }
  }

  /** The first two bytes put into an empty key. */
  lemma PrimedStart(h: Hash, w: seq<byte>, p: nat)
    requires HashOk(h) && p + 1 < |w|
    ensures Primed(h, w, Update(h, w[p], w[p + 1]), p)
  {
    hide Pow2;
    Pow2Mono(8, h.bits);
    Pow2Values();
    assert Xor(0, w[p]) == w[p];
    ZeroTimes(Pow2(h.shift));
    SmallMod(w[p], Pow2(h.bits));
    assert Update(h, 0, w[p]) == w[p];
  }

  lemma ZeroTimes(p: nat)
    ensures 0 * p == 0
  {
  }

  lemma SmallMod(x: nat, p: nat)
    requires x < p
    ensures x % p == x
  {
  }

  /** Distance back from s to m in the arithmetic of unsigned int. */
  function Behind(s: int, m: int): nat { (s - m) % UINT }

  lemma WrapDown(s: int, m: int, ws: int)
    ensures Behind(s - ws, (m - ws) % UINT) == Behind(s, m)
  {
  }

  lemma SlidTop(c: Chains, d: Chains, ws: nat)
    requires Slid(c, d, ws)
    ensures d.top == c.top - ws
  {
  }

  lemma CarriedDown(c: Chains, d: Chains, ws: nat, from: int, to: int)
    requires Slid(c, d, ws) && (to <= 0 || to + ws <= from)
    ensures Carried(c.ins, d.ins, ws, from, to)
  {
  }

  lemma CarriedNowhere(was: set<int>, from: int)
    ensures Carried(was, was, 0, from, from)
  {
  }

  lemma CarriedOn(was: set<int>, mid: set<int>, now: set<int>, k: int, from: int, to: int, on: int)
    requires Carried(was, mid, k, from, to) && Grown(mid, now, to, on)
    ensures Carried(was, now, k, from, on)
  {
  }

  lemma SlideHolds(w: seq<byte>, w': seq<byte>, data: seq<byte>, base: nat, end: nat, ws: nat)
    requires WindowHolds(w, data, base, end) && ws <= end && |w'| == |w|
    requires forall i :: 0 <= i < end - ws ==> w'[i] == w[ws + i]
    ensures WindowHolds(w', data, base + ws, end - ws)
  {
  }

  lemma SlidePrimed(h: Hash, w: seq<byte>, w': seq<byte>, key: nat, p: nat, ws: nat, end: nat)
    requires Primed(h, w, key, p + ws) && p + ws + 1 < end <= |w| && |w'| == |w|
    requires forall i :: 0 <= i < end - ws ==> w'[i] == w[ws + i]
    ensures Primed(h, w', key, p)
  {
    hide Update;
    var q := p + ws;
    assert w'[p] == w[q] && w'[p + 1] == w[q + 1];
    var k: nat :| key == Update(h, Update(h, k, w[q]), w[q + 1]);
    assert key == Update(h, Update(h, k, w'[p]), w'[p + 1]);
  }

  /** The primed key, updated with the third byte, is the hash; it primes the next string. */
  lemma KeyAt(h: Hash, w: seq<byte>, key: nat, p: nat)
    requires HashOk(h) && Primed(h, w, key, p) && p + 2 < |w|
    ensures Update(h, key, w[p + 2]) == HashAt(h, w, p) < Pow2(h.bits)
    ensures Primed(h, w, Update(h, key, w[p + 2]), p + 1)
  {
    hide Update;
    var k: nat :| key == Update(h, Update(h, k, w[p]), w[p + 1]);
    Rolls(h, k, w[p], w[p + 1], w[p + 2]);
    assert Update(h, key, w[p + 2]) == Update(h, Update(h, Update(h, k, w[p]), w[p + 1]), w[p + 2]);
  }

  lemma HeadFacts(c: Chains, h: Hash, end: int, s: nat, key: nat)
    requires ChainsOk(c, h, end) && c.top <= s && key < |c.head|
    ensures c.head[key] == NIL || (c.head[key] in c.ins && c.head[key] < s && HashAt(h, c.w, c.head[key]) == key)
    ensures forall q :: q in c.ins && HashAt(h, c.w, q) == key ==> q <= c.head[key]
  {
    assert HeadOk(c, h, key);
  }
}
