/** infback.c: the window is the output buffer, given away whenever it is full. */
module InflateBack {
  import opened BitStream
  import opened Format

  /** The window ends with the output at put; behind put are older bytes once it has been
      full. */
  ghost predicate Holds(w: seq<byte>, put: nat, wrapped: bool, out: seq<byte>) {
    put <= |w| && put <= |out| && w[..put] == out[|out| - put..]
    && if wrapped then |w| <= |out| && w[put..] == out[|out| - |w|..|out| - put] else put == |out|
  }

  /** The byte offset back is where the code looks for it. */
  lemma ByteBack(w: seq<byte>, put: nat, wrapped: bool, out: seq<byte>, offset: nat)
    requires Holds(w, put, wrapped, out) && 1 <= offset <= (if wrapped then |w| else put)
    ensures offset <= |out| && (offset > put ==> put + |w| - offset < |w|)
    ensures w[if offset <= put then put - offset else put + |w| - offset] == out[|out| - offset]
  {
    if offset <= put {
      assert w[..put][put - offset] == w[put - offset];
    } else {
      assert w[put..][|w| - offset] == w[put + |w| - offset];
    }
  }

  /** One more byte of output. */
  lemma ByteOut(w: seq<byte>, put: nat, wrapped: bool, out: seq<byte>, b: byte)
    requires Holds(w, put, wrapped, out) && put < |w|
    ensures Holds(w[put := b], put + 1, wrapped, out + [b])
  {
    var v, more := w[put := b], out + [b];
    assert v[..put + 1] == w[..put] + [b];
    assert more[|more| - (put + 1)..] == out[|out| - put..] + [b];
    if wrapped {
      assert v[put + 1..] == w[put..][1..];
      assert more[|more| - |w|..|more| - (put + 1)] == out[|out| - |w|..|out| - put][1..];
    }
  }

  /** What has been given away and what is in the window is the output. */
  ghost predicate Due(given: seq<byte>, w: seq<byte>, put: nat, out: seq<byte>) {
    put <= |w| && out == given + w[..put]
  }

  lemma DueMore(given: seq<byte>, w: seq<byte>, put: nat, out: seq<byte>, b: byte)
    requires Due(given, w, put, out) && put < |w|
    ensures Due(given, w[put := b], put + 1, out + [b])
  {
    assert w[put := b][..put + 1] == w[..put] + [b];
  }

  /** All that is known of the window. */
  ghost predicate Kept(given: seq<byte>, w: seq<byte>, put: nat, wrapped: bool, out: seq<byte>) {
    Holds(w, put, wrapped, out) && Due(given, w, put, out)
  }

  lemma KeptMore(given: seq<byte>, w: seq<byte>, put: nat, wrapped: bool, out: seq<byte>, b: byte)
    requires Kept(given, w, put, wrapped, out) && put < |w|
    ensures Kept(given, w[put := b], put + 1, wrapped, out + [b])
  {
    hide Holds, Due;
    DueMore(given, w, put, out, b);
    ByteOut(w, put, wrapped, out, b);
  }

  lemma DueWrapped(given: seq<byte>, w: seq<byte>, out: seq<byte>)
    requires Due(given, w, |w|, out)
    ensures Due(given + w, w, 0, out)
  {
    assert w[..|w|] == w;
  }

  /** Full, and starting over. */
  lemma Wrap(w: seq<byte>, wrapped: bool, out: seq<byte>)
    requires Holds(w, |w|, wrapped, out)
    ensures Holds(w, 0, true, out)
  {
    assert w[..|w|] == w && w[0..] == w;
    assert out[|out| - |w|..|out| - 0] == out[|out| - |w|..];
  }

  lemma {:induction false} CopyMore(out: seq<byte>, k: nat, offset: nat)
    requires 1 <= offset <= |out|
    ensures |CopyMatch(out, k, offset)| == |out| + k
    ensures var r := CopyMatch(out, k, offset); CopyMatch(out, k + 1, offset) == r + [r[|r| - offset]]
    decreases k
  {
    var b := out[|out| - offset];
    if k == 0 {
      assert CopyMatch(out + [b], 0, offset) == out + [b];
    } else {
      CopyMore(out + [b], k - 1, offset);
    }
  }

  class BackWindow {
    const window: array<byte>
    var put: nat
    var left: nat
    var whave: nat
    /** All output, and what of it has been given to the caller. */
    ghost var out: seq<byte>
    ghost var given: seq<byte>

    ghost predicate Valid()
      reads this, window
    {
      window.Length > 0 && put + left == window.Length && whave <= window.Length
      && Kept(given, window[..], put, whave == window.Length, out)
    }

    constructor (windowBits: nat)
      ensures Valid() && out == [] && given == [] && fresh(window)
    {
      var n := Size(windowBits);
      window := new byte[n](_ => 0);
      put, left, whave, out, given := 0, n, 0, [], [];
    }

    static function Size(windowBits: nat): (n: nat)
      ensures n > 0
    {
      if windowBits == 0 then 1 else 2 * Size(windowBits - 1)
    }

    /** ROOM: the window goes to the caller when it is full; he may refuse it. */
    method Room() returns (ok: bool)
      requires Valid()
      modifies this`put, this`left, this`whave, this`given
      ensures Valid() && left > 0 && (old(left) > 0 ==> ok)
      ensures old(left) > 0 ==> put == old(put) && whave == old(whave)
      ensures old(left) == 0 ==> put == 0 && whave == window.Length
    {
      hide Holds, Due;
      ok := true;
      if left == 0 {
        Wrap(window[..], whave == window.Length, out);
        DueWrapped(given, window[..], out);
        given := given + window[..];
        put := 0;
        left := window.Length;
        whave := left;
        ok := *;
      }
    }

    /** A literal */
    method PutLiteral(b: byte) returns (ok: bool)
      requires Valid()
      modifies this, window
      ensures Valid() && (ok ==> out == old(out) + [b]) && (!ok ==> out == old(out))
    {
      hide Holds, Due;
      ok := Room();
      if ok { PutByte(b); }
    }

    method PutByte(b: byte)
      requires Valid() && left > 0
      modifies this`put, this`left, this`out, window
      ensures Valid() && out == old(out) + [b] && put == old(put) + 1
    {
      hide Kept;
      ghost var wrapped := whave == window.Length;
      KeptMore(given, window[..], put, wrapped, out, b);
      StoreByte(b);
      out := out + [b];
    }

    method StoreByte(b: byte)
      requires put < window.Length && left > 0
      modifies this`put, this`left, window
      ensures put == old(put) + 1 && left == old(left) - 1
      ensures window[..] == old(window[..][put := b])
    {
      window[put] := b;
      put := put + 1;
      left := left - 1;
    }

    /** A match, which inflateBack copies inside the window in as few runs as there can be.
        The distance has been checked against what the window holds. */
    method PutMatch(length: nat, offset: nat) returns (ok: bool)
      requires Valid() && length >= 1 && 1 <= offset <= window.Length - (if whave < window.Length then left else 0)
      modifies this, window
      ensures Valid() && offset <= |old(out)|
      ensures ok ==> out == CopyMatch(old(out), length, offset)
      ensures !ok ==> exists k :: 0 <= k < length && out == CopyMatch(old(out), k, offset)
    {
      hide Holds, Due, CopyMatch;
      ghost var out0 := out;
      DistanceCheck(offset);
      var rest := length;
      NoCopy(out, offset);
      while rest != 0
        invariant Valid() && 0 <= rest <= length && out == CopyMatch(out0, length - rest, offset)
        invariant offset <= window.Length - (if whave < window.Length then left else 0)
        decreases rest
      {
        ok := Room();
        if !ok { return; }
        var copy := window.Length - offset;
        var from;
        if copy < left {
          from := put + copy;
          copy := left - copy;
        } else {
          from := put - offset;
          copy := left;
        }
        if copy > rest { copy := rest; }
        CopyRun(from, copy, offset, out0, length - rest);
        rest := rest - copy;
      }
      ok := true;
    }

    /** The check that precedes a copy passes exactly the distances that the output so far and
        the size of the window allow. */
    lemma DistanceCheck(offset: nat)
      requires Valid()
      ensures offset <= window.Length - (if whave < window.Length then left else 0) <==>
        offset <= |out| && offset <= window.Length
    {
    }

    /** One run: source and target move on together. */
    method CopyRun(from0: nat, copy0: nat, offset: nat, ghost out0: seq<byte>, ghost k: nat)
      requires Valid() && 1 <= offset <= |out0| && 1 <= copy0 <= left && out == CopyMatch(out0, k, offset)
      requires offset <= window.Length - (if whave < window.Length then left else 0)
      requires from0 == if offset <= put then put - offset else put + window.Length - offset
      requires offset > put ==> copy0 <= offset - put
      modifies this`put, this`left, this`out, window
      ensures Valid() && out == CopyMatch(out0, k + copy0, offset)
      ensures offset <= window.Length - (if whave < window.Length then left else 0)
    {
      hide Holds, Due, CopyMatch;
      var from, copy := from0, copy0;
      ghost var put0 := put;
      while copy != 0
        invariant Valid() && 0 <= copy <= left && put == put0 + (copy0 - copy) && from == from0 + (copy0 - copy)
        invariant out == CopyMatch(out0, k + (copy0 - copy), offset)
        invariant offset <= window.Length - (if whave < window.Length then left else 0)
        decreases copy
      {
        ByteBack(window[..], put, whave == window.Length, out, offset);
        CopyMore(out0, k + (copy0 - copy), offset);
        PutByte(window[from]);
        from := from + 1;
        copy := copy - 1;
      }
    }

    /** inf_leave: the rest of the window goes out too. */
    method Leave() returns (ok: bool)
      requires Valid()
      modifies this`given
      ensures given == out
    {
      ok := true;
      if left < window.Length {
        assert window[..put] == window[..][..put];
        given := given + window[..put];
        ok := *;
      } else {
        assert window[..][..put] == [];
      }
    }
  }

  lemma NoCopy(out: seq<byte>, offset: nat)
    requires 1 <= offset <= |out|
    ensures CopyMatch(out, 0, offset) == out
  {
  }
}
