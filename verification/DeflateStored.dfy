/** deflate.c: deflate_stored, copying without compression. */
module DeflateStored {
  import opened Bits
  import opened BitStream
  import opened BitOutput
  import opened Format
  import opened BlockOutput
  import opened BlockWriter
  import opened StreamRoundTrip
  import opened Deflate

  const MAX_STORED: nat := 65535

  function Min(a: nat, b: nat): nat { if a > b then b else a }

  /** The stream is the blocks emitted; they and the window from `from` to `to` are the
      text, of whose last used bytes the window knows nothing. */
  ghost predicate Told(m: Maps, bs: seq<Block>, closed: bool, out: seq<byte>, s: seq<bool>, w: seq<byte>, from: nat,
                       to: nat, text: seq<byte>, used: nat)
    requires MapsOk(m) && BlocksMade(m, bs)
  {
    && BytesToBits(out) + s == EmitAll(m, bs, closed) && from <= to <= |w|
    && used <= |text| && Recent(w, text[..|text| - used], to) && (used > 0 ==> from == to)
    && MeaningAll(bs) + w[from..to] == text
  }

  /** How many stored blocks n bytes take, and how many bytes these take at most. */
  function Pieces(n: int): (r: nat)
    ensures r >= 1
    decreases n
  {
    if n <= MAX_STORED then 1 else 1 + Pieces(n - MAX_STORED)
  }

  function Room(n: int): int {
    n + 6 * Pieces(n)
  }

  /** The next piece of n bytes. */
  function Piece(n: int): int { if n > MAX_STORED then MAX_STORED else n }

  /** Text, input, blocks, room for output, and bytes no block carries yet. */
  datatype Progress = Progress(text: seq<byte>, input: seq<byte>, blocks: seq<Block>, avail: int, unsent: int)

  /** One more block, n bytes of it straight from the input. */
  ghost predicate Next(p: Progress, q: Progress, n: int, minBlock: int, flush: Flush, last: bool) {
    var len := p.unsent - q.unsent;
    && |q.blocks| == |p.blocks| + 1 && q.blocks[..|p.blocks|] == p.blocks
    && q.blocks[|p.blocks|].Stored? && |q.blocks[|p.blocks|].data| == len
    && (len >= minBlock || (flush != NoFlush && q.unsent == 0)) && (len == 0 ==> last)
    && (last <==> flush == Finish && q.unsent == 0) && q.unsent >= 0
    && 0 <= n <= |p.input| && q.input == p.input[n..] && q.text == p.text + p.input[..n]
    && q.avail >= p.avail - 6 - len
  }

  /** From p to q: bytes taken, blocks made, and if there is room for everything, so many
      blocks that all of it has room in the rest. */
  ghost predicate Going(p: Progress, q: Progress, used: nat, least: int, flush: Flush, last: bool) {
    && used <= |p.input| && q.input == p.input[used..] && q.text == p.text + p.input[..used]
    && |p.blocks| <= |q.blocks| && q.blocks[..|p.blocks|] == p.blocks && (last ==> |q.blocks| > |p.blocks|)
    && 0 <= q.unsent <= p.unsent && Worthy(q.blocks, |p.blocks|, least, flush, q.unsent, last)
    && (flush == Finish && p.avail >= Room(p.unsent) ==>
          if last then |q.blocks| == |p.blocks| + Pieces(p.unsent)
          else q.avail >= Room(q.unsent) && |q.blocks| + Pieces(q.unsent) == |p.blocks| + Pieces(p.unsent))
  }

  lemma GoingStart(p: Progress, least: int, flush: Flush)
    requires p.unsent >= 0
    ensures Going(p, p, 0, least, flush, false)
  {
  }

  lemma GoingLeft(p: Progress, q: Progress, used: nat, least: int, flush: Flush)
    requires Going(p, q, used, least, flush, false)
    ensures flush == Finish && p.avail >= Room(p.unsent) ==> q.avail >= Room(q.unsent)
  {
  }

  lemma GoingOn(p: Progress, q: Progress, r: Progress, used: nat, used': nat, least: int, minBlock: int, flush: Flush,
                last: bool)
    requires Going(p, q, used, least, flush, false) && least <= minBlock
    requires Next(q, r, used' - used, minBlock, flush, last)
    requires flush == Finish && p.avail >= Room(p.unsent) ==> q.unsent - r.unsent == Piece(q.unsent)
    ensures Going(p, r, used', least, flush, last)
    ensures r.unsent <= q.unsent && (r.unsent == q.unsent ==> last) && (last ==> flush == Finish)
  {
    hide Worthy, Pieces, Room;
    TakenMore(p.text, p.input, q.text, q.input, used, used' - used);
    PrefixOn(p.blocks, q.blocks, r.blocks);
    WorthyMore(q.blocks, r.blocks, |p.blocks|, least, flush, q.unsent, last);
    if flush == Finish && p.avail >= Room(p.unsent) { PiecesStep(q.unsent, q.avail, r.avail); }
  }

  lemma TakenMore(text0: seq<byte>, input0: seq<byte>, text: seq<byte>, input: seq<byte>, used: nat, n: nat)
    requires used <= |input0| && input == input0[used..] && text == text0 + input0[..used] && n <= |input|
    ensures text + input[..n] == text0 + input0[..used + n] && input[n..] == input0[used + n..]
  {
    assert input0[..used + n] == input0[..used] + input0[used..][..n];
  }

  lemma PrefixOn(a: seq<Block>, b: seq<Block>, c: seq<Block>)
    requires |a| <= |b| <= |c| && b[..|a|] == a && c[..|b|] == b
    ensures c[..|a|] == a
  {
    assert c[..|a|] == c[..|b|][..|a|];
  }

  lemma PiecesStep(n: int, avail: int, avail': int)
    requires n >= 0 && avail >= Room(n) && avail' >= avail - 6 - Piece(n)
    ensures n <= MAX_STORED ==> Pieces(n) == 1
    ensures n > MAX_STORED ==> Pieces(n) == 1 + Pieces(n - MAX_STORED) && avail' >= Room(n - MAX_STORED)
  {
  }

  lemma GoingDone(p: Progress, q: Progress, used: nat, least: int, flush: Flush, last: bool)
    requires Going(p, q, used, least, flush, last)
    ensures used <= |p.input| && q.input == p.input[used..] && q.text == p.text + p.input[..used]
    ensures |p.blocks| <= |q.blocks| && q.blocks[..|p.blocks|] == p.blocks && (last ==> |q.blocks| > |p.blocks|)
    ensures q.unsent <= p.unsent && Worthy(q.blocks, |p.blocks|, least, flush, q.unsent, last)
    ensures flush == Finish && p.avail >= Room(p.unsent) && last ==> |q.blocks| == |p.blocks| + Pieces(p.unsent)
  {
  }

  /** Blocks from k on carry least bytes each, except the last one when it leaves nothing
      behind and something is to be flushed. */
  ghost predicate Worthy(bs: seq<Block>, k: nat, least: int, flush: Flush, unsent: int, closed: bool) {
    forall i :: k <= i < |bs| ==>
      && bs[i].Stored?
      && (|bs[i].data| >= least ||
          (flush != NoFlush && i == |bs| - 1 && unsent == 0 && (flush == Finish ==> closed)))
  }

  lemma NoneWorthy(bs: seq<Block>, least: int, flush: Flush, unsent: int, closed: bool)
    ensures Worthy(bs, |bs|, least, flush, unsent, closed)
  {
  }

  lemma WorthyMore(was: seq<Block>, bs: seq<Block>, k: nat, least: int, flush: Flush, unsent: int, closed: bool)
    requires k <= |was| && Worthy(was, k, least, flush, unsent, false) && |bs| == |was| + 1 && bs[..|was|] == was
    requires bs[|was|].Stored?
    requires var len := |bs[|was|].data|;
      && (len >= least || (flush != NoFlush && len == unsent)) && (flush == Finish && len == unsent ==> closed)
      && (len == 0 ==> flush == Finish || least <= 0) && len <= unsent
    ensures Worthy(bs, k, least, flush, unsent - |bs[|was|].data|, closed)
  {
    forall i | k <= i < |was| ensures bs[i].Stored? && |bs[i].data| >= least {
      assert bs[i] == was[i];
    }
  }


  /** The bytes left of the input at hand, the output given out so far, and the window. */
  class Storer {
    const o: Pending
    const wSize: nat
    const window: array<byte>
    ghost const m: Maps
    var strstart: nat
    var blockStart: nat
    var insert: nat
    var matches: nat
    var input: seq<byte>
    var availOut: nat
    var out: seq<byte>
    ghost var text: seq<byte>
    ghost var blocks: seq<Block>
    ghost var closed: bool

    constructor (bits: nat, bufSize: nat, ghost maps: Maps)
      requires 9 <= bits <= 15 && bufSize >= 512 && MapsOk(maps)
      ensures Valid() && text == [] && blocks == [] && !closed && out == [] && input == [] && availOut == 0
      ensures o.pending == 0
      ensures o.bi_valid == 0 && fresh(o) && fresh(o.pending_buf) && fresh(window)
    {
      wSize := Pow2(bits);
      window := new byte[2 * Pow2(bits)](_ => 0);
      o := new Pending(bufSize);
      m := maps;
      strstart, blockStart, insert, matches, input, availOut, out := 0, 0, 0, 0, [], 0, [];
      text, blocks, closed := [], [], false;
      new;
      Pow2Mono(9, bits);
      Pow2Mono(bits, 15);
      Pow2Values();
    }

    lemma LeastIs()
      requires Valid()
      ensures o.pending_buf.Length >= 512 && 512 <= wSize <= 32768
      ensures Least() <= Min(o.pending_buf.Length - 5, wSize) <= MAX_STORED
    {
    }

    /** Bytes that no block carries yet. */
    function Unsent(): int
      reads this`input, this`strstart, this`blockStart
    {
      |input| + strstart - blockStart
    }

    /** What a block must carry at least, unless it carries all there is. */
    function Least(): int
      reads o
    {
      Min(Min(if o.pending_buf.Length > 6 then o.pending_buf.Length - 6 else 0, wSize), MAX_STORED)
    }

    ghost function Repr(): set<object>
      reads o
    {
      {this, o, o.pending_buf, window}
    }

    /** The stream is the stored blocks emitted; they and the rest of the window from
        blockStart on are all the input consumed. */
    ghost predicate Valid()
      reads this, o, o.pending_buf, window
    {
      Sound(0)
    }

    /** The same while the last used bytes of the text have gone straight to the output,
        the window not being up to date. */
    ghost predicate Sound(used: nat)
      reads this, o, o.pending_buf, window
    {
      Shape() && blockStart <= strstart <= 2 * wSize && insert <= wSize
      && Told(m, blocks, closed, out, o.Stream(), window[..], blockStart, strstart, text, used)
    }

    ghost predicate Shape()
      reads this, o, o.pending_buf, window
    {
      && 512 <= wSize <= 32768 && window.Length == 2 * wSize && window != o.pending_buf && o.Valid()
      && o.pending_buf.Length >= 512
      && MapsOk(m) && BlocksMade(m, blocks)
    }

    /** flush_pending, into the output of the stream */
    method Flush()
      requires o.Valid() && (o.bi_valid >= 8 ==> o.pending + 2 <= o.pending_buf.Length)
      modifies this`availOut, this`out, o, o.pending_buf
      ensures o.Valid() && o.pending_buf == old(o.pending_buf)
      ensures BytesToBits(out) + o.Stream() == old(BytesToBits(out) + o.Stream())
      ensures |out| + availOut == old(|out| + availOut) && o.bi_valid <= 7
      ensures old(o.bi_valid) == 0 && old(o.pending) <= old(availOut) ==>
        o.pending == 0 && o.bi_valid == 0 && availOut == old(availOut - o.pending)
      ensures old(o.bi_valid) == 0 ==>
        o.bi_valid == 0 && o.pending == old(if o.pending <= availOut then 0 else o.pending - availOut)
    {
      hide BytesToBits, ToBits, Pow2;
      var given := FlushPending(o, availOut);
      BytesToBitsConcat(out, given);
      Glue(BytesToBits(out), BytesToBits(given), o.Stream());
      out := out + given;
      availOut := availOut - |given|;
    }

    /** Replace the lengths in a dummy stored block by the real ones. */
    method PatchLengths(len: nat, ghost head: seq<bool>)
      requires o.Valid() && o.bi_valid == 0 && o.pending >= 4 && len <= MAX_STORED
      requires |head| == 8 * (o.pending - 4) && head <= o.Stream()
      modifies o.pending_buf
      ensures o.Valid() && o.Stream() == head + (ToBits(len, 16) + ToBits(0xffff - len, 16))
    {
      hide BytesToBits, ToBits, Pow2;
      ghost var p := o.pending - 4;
      ghost var was := o.pending_buf[..o.pending];
      assert o.Stream() == BytesToBits(was);
      HeadBytes(was, p, head);
      o.pending_buf[o.pending - 4] := len % 256;
      o.pending_buf[o.pending - 3] := len / 256 % 256;
      o.pending_buf[o.pending - 2] := 255 - len % 256;
      o.pending_buf[o.pending - 1] := 255 - len / 256 % 256;
      Complement(len);
      ShortBits(was[..p], len);
      ShortBits(was[..p] + [len % 256] + [len / 256 % 256], 0xffff - len);
      assert o.pending_buf[..o.pending] ==
        was[..p] + [len % 256] + [len / 256 % 256] + [(0xffff - len) % 256] + [(0xffff - len) / 256 % 256];
    }

    /** The header of a block of len bytes, written out at once. */
    method DirectHeader(len: nat, last: bool)
      requires o.Valid() && o.pending_buf.Length >= 512 && MapsOk(m) && o.pending == 0 && o.bi_valid <= 7
      requires len <= MAX_STORED && HeaderBytes(o.bi_valid) <= availOut
      modifies this`out, this`availOut, o, o.pending_buf
      ensures o.Valid() && o.pending == 0 && o.bi_valid == 0 && o.pending_buf == old(o.pending_buf)
      ensures BytesToBits(out) == old(BytesToBits(out))
        + (Aligned(old(o.Stream()) + TypeBits(0, last)) + (ToBits(len, 16) + ToBits(0xffff - len, 16)))
      ensures availOut == old(availOut) - HeaderBytes(old(o.bi_valid)) && |out| + availOut == old(|out| + availOut)
    {
      hide BytesToBits, ToBits, Pow2, MapsOk, Emit, BlockMade;
      ghost var s0 := o.Stream();
      StoredBlock(o, [], last, m, []);
      EmptyStored(m, s0, [], last);
      PatchLengths(len, Aligned(s0 + TypeBits(0, last)));
      Flush();
      NoBits(o);
      assert BytesToBits(out) + [] == BytesToBits(out);
    }

    /** One stored block straight to the output: its header, what the window still has of
        it, and the rest from the input. */
    method DirectBlock(len0: nat, last: bool, ghost used: nat) returns (ghost used': nat)
      requires Sound(used) && !closed && o.pending == 0 && o.bi_valid <= 7 && len0 <= MAX_STORED
      requires HeaderBytes(o.bi_valid) + len0 <= availOut && len0 <= strstart - blockStart + |input|
      modifies this`out, this`availOut, this`blockStart, this`input, this`text, this`blocks, this`closed, o
      modifies o.pending_buf
      ensures Sound(used') && closed == last && o.pending == 0 && o.bi_valid == 0 && o.pending_buf == old(o.pending_buf)
      ensures var left := Min(strstart - old(blockStart), len0);
        && blockStart == old(blockStart) + left && used' == used + (len0 - left)
        && input == old(input)[len0 - left..] && text == old(text) + old(input)[..len0 - left]
      ensures |out| + availOut == old(|out| + availOut) && strstart == old(strstart)
      ensures |blocks| == |old(blocks)| + 1 && blocks[..|old(blocks)|] == old(blocks)
      ensures blocks[|old(blocks)|].Stored? && |blocks[|old(blocks)|].data| == len0
      ensures availOut == old(availOut) - HeaderBytes(old(o.bi_valid)) - len0
    {
      hide BytesToBits, ToBits, Pow2, MapsOk, EmitAll, Emit, BlocksMade, Recent, BlockMade, MeaningAll, Aligned;
      hide TypeBits, Told;
      ghost var s0, was := o.Stream(), out;
      var left := Min(strstart - blockStart, len0);
      ghost var w, from := window[..], blockStart;
      ghost var a, c := w[from..from + left], input[..len0 - left];
      DirectHeader(len0, last);
      ToldDirect(m, blocks, was, s0, out, w, from, strstart, text, used, left, c, last);
      NoBits(o);
      GiveDirect(len0, left, a, c);
      blocks := blocks + [Stored(a + c)];
      closed := last;
      used' := used + (len0 - left);
    }

    /** left bytes from the window, the rest of len0 from the input */
    method GiveDirect(len0: nat, left: nat, ghost a: seq<byte>, ghost c: seq<byte>)
      requires blockStart + left <= window.Length && left <= len0 <= availOut && len0 - left <= |input|
      requires a == window[..][blockStart..blockStart + left] && c == input[..len0 - left]
      modifies this`out, this`availOut, this`blockStart, this`input, this`text
      ensures blockStart == old(blockStart) + left && availOut == old(availOut) - len0
      ensures out == old(out) + a + c && input == old(input)[len0 - left..] && text == old(text) + c
    {
      out := out + window[blockStart..blockStart + left];
      blockStart := blockStart + left;
      out := out + input[..len0 - left];
      availOut := availOut - len0;
      text := text + input[..len0 - left];
      input := input[len0 - left..];
    }

    method CopyTo(at: nat, from: seq<byte>)
      requires at + |from| <= window.Length
      modifies window
      ensures forall i :: 0 <= i < window.Length && (i < at || at + |from| <= i) ==> window[i] == old(window[i])
      ensures forall i :: 0 <= i < |from| ==> window[at + i] == from[i]
    {
      forall i | 0 <= i < |from| { window[at + i] := from[i]; }
    }

    /** Move the upper half of the window down. */
    method SlideDown(ghost t: seq<byte>)
      requires window.Length == 2 * wSize && wSize <= strstart <= 2 * wSize && Recent(window[..], t, strstart)
      requires insert <= wSize
      modifies this`strstart, this`insert, this`matches, window
      ensures strstart == old(strstart) - wSize && Recent(window[..], t, strstart) && insert <= wSize
      ensures forall i :: 0 <= i < strstart ==> window[i] == old(window[wSize + i])
    {
      ghost var w0 := window[..];
      strstart := strstart - wSize;
      ghost var upper := window[wSize..wSize + strstart];
      CopyTo(0, window[wSize..wSize + strstart]);
      forall i | 0 <= i < strstart ensures window[i] == w0[wSize + i] { assert window[0 + i] == upper[i]; }
      RecentSlid(w0, window[..], t, strstart + wSize, wSize);
      if matches < 2 { matches := matches + 1; }
      if insert > strstart { insert := strstart; }
    }

    /** Add bytes to the window. */
    method Append(from: seq<byte>, ghost t: seq<byte>)
      requires window.Length == 2 * wSize && strstart + |from| <= 2 * wSize && Recent(window[..], t, strstart)
      requires insert <= wSize
      modifies this`strstart, this`insert, window
      ensures strstart == old(strstart) + |from| && Recent(window[..], t + from, strstart) && insert <= wSize
      ensures forall i :: 0 <= i < strstart ==> window[i] == if i < old(strstart) then old(window[i])
        else from[i - old(strstart)]
    {
      ghost var w0 := window[..];
      CopyTo(strstart, from);
      RecentAdded(w0, window[..], t, strstart, from);
      strstart := strstart + |from|;
      insert := insert + Min(|from|, wSize - insert);
    }

    /** Supplant the previous history. */
    method Supplant(tail: seq<byte>, ghost t: seq<byte>)
      requires window.Length == 2 * wSize && wSize <= |tail| <= |t| && tail == t[|t| - |tail|..]
      modifies this`strstart, this`insert, this`matches, window
      ensures strstart == wSize == insert && Recent(window[..], t, strstart)
    {
      matches := 2;
      CopyTo(0, tail[|tail| - wSize..]);
      strstart := wSize;
      insert := strstart;
      RecentOnly(window[..], t, tail, wSize);
    }

    /** The window takes in what went directly from input to output. */
    method CatchUp(used: nat, tail: seq<byte>)
      requires Sound(used) && used > 0 && |tail| == used && tail == text[|text| - used..]
      modifies this`strstart, this`blockStart, this`insert, this`matches, window
      ensures Valid() && blockStart == strstart
    {
      hide BytesToBits, ToBits, MapsOk, EmitAll, BlocksMade, MeaningAll, Recent;
      ghost var before := text[..|text| - used];
      assert before + tail == text && text[..|text|] == text;
      if used >= wSize {
        Supplant(tail, text);
      } else {
        if 2 * wSize - strstart <= used { SlideDown(before); }
        Append(tail, before);
      }
      blockStart := strstart;
      assert window[blockStart..strstart] == [];
    }

    /** Slide the window down with the unsent bytes in it. */
    method SlideUnsent()
      requires Valid() && blockStart >= wSize
      modifies this`strstart, this`blockStart, this`insert, this`matches, window
      ensures Valid() && strstart == old(strstart) - wSize && blockStart == old(blockStart) - wSize
    {
      hide BytesToBits, ToBits, MapsOk, EmitAll, BlocksMade, MeaningAll, Recent;
      assert text[..|text|] == text;
      ghost var left := window[blockStart..strstart];
      blockStart := blockStart - wSize;
      SlideDown(text);
      assert window[blockStart..strstart] == left;
    }

    /** Read bytes behind the unsent ones. */
    method ReadUnsent(have: nat)
      requires Valid() && have <= |input| && strstart + have <= 2 * wSize
      modifies this`strstart, this`insert, this`input, this`text, window
      ensures Valid() && strstart == old(strstart) + have && input == old(input)[have..]
      ensures text == old(text) + old(input)[..have]
    {
      hide BytesToBits, ToBits, MapsOk, EmitAll, BlocksMade, MeaningAll, Recent;
      assert text[..|text|] == text;
      ghost var left := window[blockStart..strstart];
      Append(input[..have], text);
      assert window[blockStart..strstart] == left + input[..have];
      text := text + input[..have];
      input := input[have..];
      assert text[..|text|] == text;
    }

    /** Read what input there is room for into the window, sliding it down if that helps. */
    method FillTail()
      requires Valid()
      modifies this`strstart, this`blockStart, this`insert, this`matches, this`input, this`text, window
      ensures Valid() && text + input == old(text + input) && old(text) <= text
      ensures strstart - blockStart >= old(strstart - blockStart) && Unsent() == old(Unsent())
      ensures input != [] ==> strstart - blockStart >= wSize
      ensures |input| <= |old(input)|
    {
      hide Sound;
      StartBounds();
      var have := 2 * wSize - strstart;
      if |input| > have && blockStart >= wSize {
        SlideUnsent();
        have := have + wSize;
      }
      if have > |input| { have := |input|; }
      if have > 0 { ReadUnsent(have); }
    }

    lemma StartBounds()
      requires Valid()
      ensures blockStart <= strstart <= 2 * wSize && wSize >= 512 && o.pending_buf.Length >= 512
    {
    }

    /** A stored block into the pending buffer, from the window. */
    method PendingBlock(len: nat, last: bool)
      requires Valid() && !closed && o.pending == 0 && o.bi_valid <= 7
      requires len <= strstart - blockStart && len <= MAX_STORED
      requires HeaderBytes(o.bi_valid) + len <= o.pending_buf.Length
      modifies this`blockStart, this`blocks, this`closed, this`availOut, this`out, o, o.pending_buf
      ensures Valid() && closed == last && text == old(text) && input == old(input) && strstart == old(strstart)
      ensures blockStart == old(blockStart) + len && |blocks| == |old(blocks)| + 1
      ensures blocks[..|old(blocks)|] == old(blocks) && o.pending_buf == old(o.pending_buf)
      ensures blocks[|old(blocks)|].Stored? && |blocks[|old(blocks)|].data| == len && o.bi_valid == 0
      ensures |out| + availOut == old(|out| + availOut)
    {
      hide BytesToBits, ToBits, Pow2, MapsOk, EmitAll, Emit, BlocksMade, Recent, BlockMade, MeaningAll;
      ghost var s0, pre := o.Stream(), BytesToBits(out);
      ghost var data := window[blockStart..blockStart + len];
      StoredBlock(o, window[blockStart..blockStart + len], last, m, MeaningAll(blocks));
      StoredMade(m, MeaningAll(blocks), data);
      EmitMore(m, blocks, Stored(data), last);
      EmitShift(m, pre, s0, MeaningAll(blocks), Stored(data), last);
      assert data + window[blockStart + len..strstart] == window[blockStart..strstart];
      blocks := blocks + [Stored(data)];
      closed := last;
      blockStart := blockStart + len;
      Flush();
    }

    /** How long the next such block can be, and whether it is worth it. */
    method DirectLength(flush: Flush, minBlock: nat) returns (len: nat, worth: bool)
      requires blockStart <= strstart && minBlock >= 1
      ensures worth ==> HeaderBytes(o.bi_valid) + len <= availOut && len <= MAX_STORED
      ensures worth ==> len <= strstart - blockStart + |input|
      ensures worth && len == 0 ==> flush == Finish && blockStart == strstart && input == []
      ensures worth ==> len >= minBlock || (flush != NoFlush && len == Unsent())
      ensures flush == Finish && minBlock <= MAX_STORED && availOut >= Room(Unsent()) && o.bi_valid <= 7 ==>
        worth && len == Min(Unsent(), MAX_STORED)
    {
      len := MAX_STORED;
      var have := HeaderBytes(o.bi_valid);
      if availOut < have { return len, false; }
      have := availOut - have;
      var left := strstart - blockStart;
      if len > left + |input| { len := left + |input|; }
      if len > have { len := have; }
      worth := !(len < minBlock && ((len == 0 && flush != Finish) || flush == NoFlush || len != left + |input|));
    }

    /** The next such block, if it is worth it. */
    method DirectNext(flush: Flush, minBlock: nat, ghost used: nat) returns (worth: bool, last: bool, ghost used': nat)
      requires Sound(used) && !closed && o.pending == 0 && o.bi_valid <= 7 && blockStart <= strstart && minBlock >= 1
      requires used > 0 ==> blockStart == strstart
      modifies this`out, this`availOut, this`blockStart, this`input, this`text, this`blocks, this`closed, o
      modifies o.pending_buf
      ensures Sound(used') && closed == last && o.pending == 0 && o.bi_valid <= 7 && o.pending_buf == old(o.pending_buf)
      ensures |out| + availOut == old(|out| + availOut) && strstart == old(strstart) && blockStart <= strstart
      ensures !worth ==> !last && used' == used && blocks == old(blocks) && input == old(input) && text == old(text)
      ensures !worth ==> blockStart == old(blockStart) && availOut == old(availOut) && o.bi_valid == old(o.bi_valid)
      ensures worth ==> Next(old(Now()), Now(), used' - used, minBlock, flush, last)
      ensures worth ==> (last ==> input == [] && blockStart == strstart) && (used' > 0 ==> blockStart == strstart)
      ensures worth ==> o.bi_valid == 0
      ensures flush == Finish && minBlock <= MAX_STORED && old(availOut) >= Room(old(Unsent())) ==>
        worth && old(Unsent()) - Unsent() == Piece(old(Unsent()))
    {
      hide Sound, Pieces;
      used' := used;
      last := false;
      var len;
      len, worth := DirectLength(flush, minBlock);
      if !worth { return; }
      last := flush == Finish && len == strstart - blockStart + |input|;
      used' := DirectBlock(len, last, used);
    }

    /** Blocks straight from input to output, as long as they are worth it. */
    method DirectBlocks(flush: Flush) returns (last: bool, ghost used: nat)
      requires Valid() && !closed && o.pending == 0 && o.bi_valid <= 7
      modifies this`out, this`availOut, this`blockStart, this`input, this`text, this`blocks, this`closed, o
      modifies o.pending_buf
      ensures Sound(used) && used <= |old(input)| && input == old(input)[used..]
      ensures text == old(text) + old(input)[..used]
      ensures closed == last && o.pending == 0 && o.bi_valid <= 7 && |out| + availOut == old(|out| + availOut)
      ensures o.pending_buf == old(o.pending_buf)
      ensures last ==> flush == Finish && input == [] && blockStart == strstart
      ensures |old(blocks)| <= |blocks| && blocks[..|old(blocks)|] == old(blocks)
      ensures Unsent() <= old(Unsent()) && (last ==> |blocks| > |old(blocks)|)
      ensures old(o.bi_valid) == 0 ==> o.bi_valid == 0
      ensures strstart == old(strstart) && (used > 0 ==> blockStart == strstart)
      ensures Worthy(blocks, |old(blocks)|, Least(), flush, Unsent(), closed)
      ensures flush == Finish && old(availOut) >= Room(old(Unsent())) ==>
        last && |blocks| == |old(blocks)| + Pieces(old(Unsent()))
    {
      hide Sound, Going, Next, Worthy, Pieces, Room;
      ghost var was := Now();
      StartBounds();
      GoingStart(was, Least(), flush);
      LeastIs();
      var minBlock := Min(o.pending_buf.Length - 5, wSize);
      last, used := false, 0;
      while !last
        invariant Sound(used) && Going(was, Now(), used, Least(), flush, last)
        invariant closed == last && o.pending == 0 && o.bi_valid <= 7 && |out| + availOut == old(|out| + availOut)
        invariant o.pending_buf == old(o.pending_buf) && blockStart <= strstart == old(strstart)
        invariant last ==> flush == Finish && input == [] && blockStart == strstart
        invariant used > 0 ==> blockStart == strstart
        invariant old(o.bi_valid) == 0 ==> o.bi_valid == 0
        decreases Unsent(), !last
      {
        ghost var now, used1 := Now(), used;
        var worth;
        GoingLeft(was, now, used, Least(), flush);
        worth, last, used := DirectNext(flush, minBlock, used);
        if !worth { break; }
        GoingOn(was, now, Now(), used1, used, Least(), minBlock, flush, last);
      }
      GoingDone(was, Now(), used, Least(), flush, last);
    }

    /** What the loop of deflate_stored changes. */
    ghost function Now(): Progress
      reads this`text, this`input, this`blocks, this`availOut, this`strstart, this`blockStart
    {
      Progress(text, input, blocks, availOut, Unsent())
    }

    /** deflate_stored: at every return the payloads of the blocks emitted, followed by the
        window from blockStart to strstart, are exactly the input consumed. */
    method StoreAll(flush: Flush) returns (state: BlockState)
      requires Valid() && !closed && o.pending == 0 && o.bi_valid <= 7
      modifies this`out, this`availOut, this`strstart, this`blockStart, this`insert, this`matches, this`input, this`text
      modifies this`blocks, this`closed, o, o.pending_buf, window
      ensures Valid() && text + input == old(text + input) && |out| + availOut == old(|out| + availOut)
      ensures |old(blocks)| <= |blocks| && blocks[..|old(blocks)|] == old(blocks)
      ensures closed <==> state == FinishDone || state == FinishStarted
      ensures closed ==> flush == Finish && input == [] && MeaningAll(blocks) == text
      ensures state == FinishDone ==> o.pending == 0
      ensures state == BlockDone ==> input == [] && MeaningAll(blocks) == text
      ensures Unsent() <= old(Unsent()) && (flush == NoFlush ==> Unsent() < old(Unsent()) || input == [])
      ensures flush != NoFlush && state == NeedMore ==> Unsent() < old(Unsent())
      ensures flush == Finish ==> |blocks| > |old(blocks)| && state != BlockDone
      ensures o.pending_buf == old(o.pending_buf) && (old(o.bi_valid) == 0 ==> o.bi_valid == 0)
      ensures Worthy(blocks, |old(blocks)|, Least(), flush, Unsent(), closed)
      ensures flush == Finish && old(availOut) >= Room(old(Unsent())) ==>
        state == FinishDone && |blocks| == |old(blocks)| + Pieces(old(Unsent()))
    {
      hide Sound, MeaningAll, Worthy;
      ghost var in0, all := input, text + input;
      var before := input;
      var last;
      ghost var used;
      last, used := DirectBlocks(flush);
      var copied := |before| - |input|;
      assert copied == used;
      assert text + input == all;
      assert text[|text| - copied..] == before[..copied];
      ghost var n1, least := Unsent(), Least();
      if copied > 0 { CatchUp(copied, before[..copied]); }
      assert Unsent() == n1 && Least() == least;
      StartBounds();
      if last {
        AllSent();
        return FinishDone;
      }
      if flush == SomeFlush && |input| == 0 && strstart == blockStart {
        AllSent();
        return BlockDone;
      }
      state := StoreTail(flush, |old(blocks)|);
    }

    /** The window takes in what it can, and a block from it goes to the pending buffer. */
    method StoreTail(flush: Flush, ghost k: nat) returns (state: BlockState)
      requires Valid() && !closed && o.pending == 0 && o.bi_valid <= 7 && k <= |blocks|
      requires Worthy(blocks, k, Least(), flush, Unsent(), false) && (flush == SomeFlush ==> Unsent() > 0)
      modifies this`out, this`availOut, this`strstart, this`blockStart, this`insert, this`matches, this`input, this`text
      modifies this`blocks, this`closed, o, o.pending_buf, window
      ensures Valid() && text + input == old(text + input) && |out| + availOut == old(|out| + availOut)
      ensures |old(blocks)| <= |blocks| && blocks[..|old(blocks)|] == old(blocks)
      ensures state == FinishStarted || state == NeedMore
      ensures closed <==> state == FinishStarted
      ensures closed ==> flush == Finish && input == [] && MeaningAll(blocks) == text
      ensures Unsent() <= old(Unsent()) && (flush == NoFlush ==> Unsent() < old(Unsent()) || input == [])
      ensures flush != NoFlush && state == NeedMore ==> Unsent() < old(Unsent())
      ensures flush == Finish ==> |blocks| > |old(blocks)|
      ensures o.pending_buf == old(o.pending_buf) && (old(o.bi_valid) == 0 ==> o.bi_valid == 0)
      ensures Worthy(blocks, k, Least(), flush, Unsent(), closed)
    {
      hide Sound, MeaningAll, Worthy;
      ghost var was, n0, least := blocks, Unsent(), Least();
      StartBounds();
      FillTail();
      assert n0 == Unsent() && Least() == least;
      StartBounds();
      state := StoreRest(flush);
      assert Least() == least;
      if |blocks| > |was| {
        WorthyMore(was, blocks, k, Least(), flush, n0, closed);
        assert Unsent() == n0 - |blocks[|was|].data|;
      } else {
        assert !closed && blocks == was;
      }
    }

    /** What was not worth a block of its own goes to the pending buffer, if it must or
        has become enough. */
    method StoreRest(flush: Flush) returns (state: BlockState)
      requires Valid() && !closed && o.pending == 0 && o.bi_valid <= 7
      modifies this`out, this`availOut, this`blockStart, this`blocks, this`closed, o, o.pending_buf
      ensures Valid() && text == old(text) && input == old(input) && |out| + availOut == old(|out| + availOut)
      ensures |old(blocks)| <= |blocks| && blocks[..|old(blocks)|] == old(blocks)
      ensures state == FinishStarted || state == NeedMore
      ensures closed <==> state == FinishStarted
      ensures closed ==> flush == Finish && input == [] && MeaningAll(blocks) == text
      ensures |blocks| <= |old(blocks)| + 1 && strstart == old(strstart) && o.pending_buf == old(o.pending_buf)
      ensures old(o.bi_valid) == 0 ==> o.bi_valid == 0
      ensures |blocks| == |old(blocks)| ==> blockStart == old(blockStart)
      ensures |blocks| > |old(blocks)| ==>
        var b := blocks[|old(blocks)|];
        && b.Stored? && |b.data| == blockStart - old(blockStart) <= old(strstart - blockStart)
        && (|b.data| >= Least() || (flush != NoFlush && |b.data| == old(Unsent())))
        && (|b.data| == 0 ==> closed) && (flush == Finish && |b.data| == old(Unsent()) ==> closed)
      ensures old(strstart - blockStart) >= wSize ==> |blocks| > |old(blocks)|
      ensures flush != NoFlush && input == [] && (flush == Finish || strstart > old(blockStart)) ==>
        |blocks| > |old(blocks)|
    {
      hide Sound, MeaningAll;
      StartBounds();
      LeastIs();
      var have := HeaderBytes(o.bi_valid);
      have := Min(o.pending_buf.Length - have, MAX_STORED);
      var minBlock := Min(have, wSize);
      var left := strstart - blockStart;
      var last := false;
      if left >= minBlock ||
         ((left > 0 || flush == Finish) && flush != NoFlush && |input| == 0 && left <= have) {
        var len := Min(left, have);
        last := flush == Finish && |input| == 0 && len == left;
        PendingBlock(len, last);
        if last { AllSent(); }
      }
      state := if last then FinishStarted else NeedMore;
    }

    /** The next call begins: room for so many bytes, of which what is pending takes some. */
    method Resume(room: nat)
      requires Valid() && o.bi_valid == 0
      modifies this`availOut, this`out, o, o.pending_buf
      ensures Valid() && o.bi_valid == 0 && o.pending_buf == old(o.pending_buf)
      ensures o.pending == old(if o.pending <= room then 0 else o.pending - room)
    {
      hide BytesToBits, ToBits, MapsOk, EmitAll, BlocksMade, MeaningAll, Recent;
      availOut := room;
      Flush();
    }

    /** Calls with Z_FINISH, each with whatever room there is for its output, what is
        pending going out first: they come to an end, the last block written, and the
        bytes are the stream of blocks that carry all of the input. */
    method FinishAll()
      requires Valid() && !closed && o.pending == 0 && o.bi_valid == 0
      modifies Repr()
      ensures Valid() && closed && MeaningAll(blocks) == old(text + input)
      ensures MapsOk(m) && BlocksMade(m, blocks)
      ensures BytesToBits(out) == EmitAll(m, blocks, true)
      ensures |blocks| > |old(blocks)| && blocks[..|old(blocks)|] == old(blocks)
      ensures forall k :: |old(blocks)| <= k < |blocks| ==> blocks[k].Stored?
    {
      hide Sound, MeaningAll, EmitAll, BytesToBits, Worthy;
      var state := NeedMore;
      while state == NeedMore || o.pending > 0
        invariant closed <==> state != NeedMore
        invariant Valid() && o.bi_valid == 0 && o.pending_buf == old(o.pending_buf)
        invariant text + input == old(text + input)
        invariant closed ==> input == [] && MeaningAll(blocks) == text && |blocks| > |old(blocks)|
        invariant |blocks| >= |old(blocks)| && blocks[..|old(blocks)|] == old(blocks)
        invariant forall k :: |old(blocks)| <= k < |blocks| ==> blocks[k].Stored?
        decreases if closed then 0 else 1, Unsent(), o.pending
      {
        StartBounds();
        var room: nat :| room > 0;
        Resume(room);
        if o.pending == 0 && state == NeedMore {
          ghost var was := blocks;
          state := StoreAll(Finish);
          StoredOnly(was, blocks, |old(blocks)|, Least(), Finish, Unsent(), closed);
        }
      }
      AllOut();
    }

    lemma AllOut()
      requires Valid() && o.pending == 0 && o.bi_valid == 0
      ensures MapsOk(m) && BlocksMade(m, blocks) && BytesToBits(out) == EmitAll(m, blocks, closed)
    {
      hide BytesToBits, MapsOk, EmitAll, BlocksMade, MeaningAll, Recent;
      NoBits(o);
      assert BytesToBits(out) + [] == BytesToBits(out);
    }

    lemma AllSent()
      requires Valid() && blockStart == strstart
      ensures MeaningAll(blocks) == text
    {
      hide MeaningAll;
      assert MeaningAll(blocks) + [] == MeaningAll(blocks);
    }
  }

  lemma StoredOnly(was: seq<Block>, bs: seq<Block>, k: nat, least: int, flush: Flush, unsent: int, closed: bool)
    requires k <= |was| <= |bs| && bs[..|was|] == was && (forall i :: k <= i < |was| ==> was[i].Stored?)
    requires Worthy(bs, |was|, least, flush, unsent, closed)
    ensures forall i :: k <= i < |bs| ==> bs[i].Stored?
  {
    forall i | k <= i < |was| ensures bs[i].Stored? { assert bs[i] == was[i]; }
  }

  lemma RecentOnly(w: seq<byte>, text: seq<byte>, tail: seq<byte>, n: nat)
    requires n <= |tail| <= |text| && tail == text[|text| - |tail|..] && n <= |w|
    requires forall i :: 0 <= i < n ==> w[i] == tail[|tail| - n..][i]
    ensures Recent(w, text, n)
  {
    assert w[..n] == tail[|tail| - n..];
  }

  lemma RecentSlid(w: seq<byte>, w': seq<byte>, text: seq<byte>, s: nat, ws: nat)
    requires ws <= s && Recent(w, text, s) && |w'| == |w| && forall i :: 0 <= i < s - ws ==> w'[i] == w[ws + i]
    ensures Recent(w', text, s - ws)
  {
    assert w'[..s - ws] == w[..s][ws..];
  }

  lemma RecentAdded(w: seq<byte>, w': seq<byte>, text: seq<byte>, s: nat, more: seq<byte>)
    requires Recent(w, text, s) && s + |more| <= |w| == |w'|
    requires (forall i :: 0 <= i < s ==> w'[i] == w[i]) && forall i :: 0 <= i < |more| ==> w'[s + i] == more[i]
    ensures Recent(w', text + more, s + |more|)
  {
    assert w'[..s + |more|] == w[..s] + more;
  }

  lemma EmptyStored(m: Maps, s: seq<bool>, out: seq<byte>, last: bool)
    requires MapsOk(m) && BlockMade(m, out, Stored([]))
    ensures var e := Emit(m, s, out, Stored([]), last); var h := Aligned(s + TypeBits(0, last));
      h <= e && |e| == |h| + 32
  {
    hide MapsOk, ToBits;
  }

  /** The stream with one more block, header and bytes apart. */
  lemma StoredWhole(m: Maps, bs: seq<Block>, pre: seq<bool>, s: seq<bool>, data: seq<byte>, last: bool)
    requires MapsOk(m) && BlocksMade(m, bs) && |data| <= MAX_STORED && |pre| % 8 == 0
    requires pre + s == EmitAll(m, bs, false)
    ensures BlocksMade(m, bs + [Stored(data)]) && MeaningAll(bs + [Stored(data)]) == MeaningAll(bs) + data
    ensures EmitAll(m, bs + [Stored(data)], last)
      == pre + (Aligned(s + TypeBits(0, last)) + (ToBits(|data|, 16) + ToBits(0xffff - |data|, 16))) + BytesToBits(data)
  {
    hide BytesToBits, ToBits, MapsOk, EmitAll, Emit, BlocksMade, BlockMade, MeaningAll, Aligned, TypeBits;
    StoredMade(m, MeaningAll(bs), data);
    EmitMore(m, bs, Stored(data), last);
    EmitShift(m, pre, s, MeaningAll(bs), Stored(data), last);
    StoredEmit(m, s, MeaningAll(bs), data, last);
    Glue(pre, Aligned(s + TypeBits(0, last)) + (ToBits(|data|, 16) + ToBits(0xffff - |data|, 16)), BytesToBits(data));
  }

  /** The header written and the bytes behind it are the stream with one more block. */
  lemma DirectStream(m: Maps, bs: seq<Block>, was: seq<byte>, s: seq<bool>, out: seq<byte>, a: seq<byte>, c: seq<byte>,
                     last: bool)
    requires MapsOk(m) && BlocksMade(m, bs) && |a + c| <= MAX_STORED
    requires BytesToBits(was) + s == EmitAll(m, bs, false)
    requires BytesToBits(out) == BytesToBits(was)
      + (Aligned(s + TypeBits(0, last)) + (ToBits(|a + c|, 16) + ToBits(0xffff - |a + c|, 16)))
    ensures var more := bs + [Stored(a + c)];
      && BlocksMade(m, more) && MeaningAll(more) == MeaningAll(bs) + (a + c)
      && BytesToBits(out + a + c) == EmitAll(m, more, last)
  {
    hide BytesToBits, ToBits, MapsOk, EmitAll, BlocksMade, MeaningAll, Aligned, TypeBits;
    BytesLength(was);
    StoredWhole(m, bs, BytesToBits(was), s, a + c, last);
    AppendBytes(out, a, c);
  }

  /** The same with the text and the window, of which left bytes go out first. */
  lemma ToldDirect(m: Maps, bs: seq<Block>, was: seq<byte>, s: seq<bool>, out: seq<byte>, w: seq<byte>, from: nat,
                   to: nat, text: seq<byte>, used: nat, left: nat, c: seq<byte>, last: bool)
    requires MapsOk(m) && BlocksMade(m, bs) && Told(m, bs, false, was, s, w, from, to, text, used)
    requires from + left <= to && (c != [] ==> from + left == to) && left + |c| <= MAX_STORED
    requires BytesToBits(out) == BytesToBits(was)
      + (Aligned(s + TypeBits(0, last)) + (ToBits(left + |c|, 16) + ToBits(0xffff - (left + |c|), 16)))
    ensures var a := w[from..from + left];
      && BlocksMade(m, bs + [Stored(a + c)])
      && Told(m, bs + [Stored(a + c)], last, out + a + c, [], w, from + left, to, text + c, used + |c|)
  {
    hide BytesToBits, ToBits, MapsOk, EmitAll, BlocksMade, MeaningAll, Aligned, TypeBits, Recent;
    var a := w[from..from + left];
    assert |a + c| == left + |c|;
    DirectStream(m, bs, was, s, out, a, c, last);
    TextDirect(MeaningAll(bs), w, from, to, left, text, c);
    RecentMore(w, text, used, to, c);
    assert BytesToBits(out + a + c) + [] == BytesToBits(out + a + c);
  }

  lemma BytesLength(b: seq<byte>)
    ensures |BytesToBits(b)| % 8 == 0
  {
  }

  lemma NoBits(o: Pending)
    requires o.Valid() && o.pending == 0 && o.bi_valid == 0
    ensures o.Stream() == []
  {
  }

  lemma AppendBytes(out: seq<byte>, a: seq<byte>, b: seq<byte>)
    ensures BytesToBits(out + a + b) == BytesToBits(out) + BytesToBits(a + b)
  {
    hide BytesToBits;
    assert out + a + b == out + (a + b);
    BytesToBitsConcat(out, a + b);
  }

  lemma TextDirect(sent: seq<byte>, w: seq<byte>, a: nat, b: nat, left: nat, text: seq<byte>, more: seq<byte>)
    requires a + left <= b <= |w| && sent + w[a..b] == text && (more != [] ==> a + left == b)
    ensures sent + (w[a..a + left] + more) + w[a + left..b] == text + more
  {
    if more == [] {
      assert w[a..a + left] + w[a + left..b] == w[a..b];
    }
  }

  lemma RecentMore(w: seq<byte>, text: seq<byte>, used: nat, strstart: nat, more: seq<byte>)
    requires used <= |text| && Recent(w, text[..|text| - used], strstart)
    ensures Recent(w, (text + more)[..|text + more| - (used + |more|)], strstart)
  {
    assert (text + more)[..|text| - used] == text[..|text| - used];
  }

  lemma Complement(len: nat)
    requires len <= MAX_STORED
    ensures (0xffff - len) % 256 == 255 - len % 256 && (0xffff - len) / 256 % 256 == 255 - len / 256 % 256
  {
  }

  lemma HeadBytes(bs: seq<byte>, p: nat, head: seq<bool>)
    requires p <= |bs| && |head| == 8 * p && head <= BytesToBits(bs)
    ensures BytesToBits(bs[..p]) == head
  {
    hide BytesToBits;
    assert bs[..p] + bs[p..] == bs;
    BytesToBitsConcat(bs[..p], bs[p..]);
    assert BytesToBits(bs)[..8 * p] == head;
  }

  /** The window up to strstart is the end of the text. */
  ghost predicate Recent(w: seq<byte>, text: seq<byte>, strstart: nat) {
    strstart <= |w| && strstart <= |text| && w[..strstart] == text[|text| - strstart..]
  }
}
