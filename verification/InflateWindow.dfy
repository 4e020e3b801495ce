/** inflate.c: the circular window, as sequences. */
module InflateWindow {
  import opened BitStream
  import opened Format
  import opened InflateState

  lemma WindowBounds(w: seq<byte>, wnext: nat, whave: nat, hist: seq<byte>)
    requires Circular(w, wnext, whave, hist)
    ensures wnext <= whave <= |w| && wnext < |w| && whave == (if |hist| < |w| then |hist| else |w|)
  {
  }

  lemma HistoryHeld(wsize: nat, whave: nat, wnext: nat, w: seq<byte>, hist: seq<byte>)
    requires History(wsize, whave, wnext, w, hist)
    ensures whave == (if |hist| < WSIZE then |hist| else WSIZE)
    ensures whave != 0 ==> |w| == WSIZE && Circular(w, wnext, whave, hist)
  {
    hide Circular;
    if wsize != 0 { WindowBounds(w, wnext, whave, hist); }
  }

  lemma WindowStart(w: seq<byte>)
    requires |w| > 0
    ensures Circular(w, 0, 0, [])
  {
  }

  /** At least a window of new bytes. */
  lemma WindowFull(w: seq<byte>, hist: seq<byte>, data: seq<byte>)
    requires 0 < |w| <= |data| && w == data[|data| - |w|..]
    ensures Circular(w, 0, |w|, hist + data)
  {
  }

  /** w with d written at n. */
  function Written(w: seq<byte>, n: nat, d: seq<byte>): (r: seq<byte>)
    requires n + |d| <= |w|
    ensures |r| == |w| && r[n..n + |d|] == d
    ensures forall p :: 0 <= p < |w| ==> r[p] == if n <= p < n + |d| then d[p - n] else w[p]
  {
    w[..n] + d + w[n + |d|..]
  }

  /** New bytes that do not wrap. */
  lemma WindowOn(w: seq<byte>, wnext: nat, whave: nat, hist: seq<byte>, d: seq<byte>)
    requires Circular(w, wnext, whave, hist) && wnext + |d| <= |w|
    ensures var next := if wnext + |d| == |w| then 0 else wnext + |d|;
      Circular(Written(w, wnext, d), next, if whave < |w| then whave + |d| else whave, hist + d)
  {
    var h, r := hist + d, Written(w, wnext, d);
    var next := if wnext + |d| == |w| then 0 else wnext + |d|;
    forall p | 0 <= p < next
      ensures r[p] == h[|h| - next + p]
    {
      if p >= wnext { assert h[|h| - next + p] == d[p - wnext]; }
    }
    if whave == |w| || wnext + |d| == |w| {
      forall p | next <= p < |w|
        ensures r[p] == h[|h| - next - |w| + p]
      {
        if wnext <= p < wnext + |d| { assert h[|h| - |w| + p] == d[p - wnext]; }
      }
    }
  }

  /** New bytes that wrap, fewer than the window holds. */
  lemma WindowWraps(w: seq<byte>, wnext: nat, whave: nat, hist: seq<byte>, d: seq<byte>)
    requires Circular(w, wnext, whave, hist) && |d| < |w| < wnext + |d|
    ensures var k := |w| - wnext; Circular(Written(Written(w, wnext, d[..k]), 0, d[k..]), |d| - k, |w|, hist + d)
  {
    hide Circular, Written;
    WindowBounds(w, wnext, whave, hist);
    var k := |w| - wnext;
    WindowOn(w, wnext, whave, hist, d[..k]);
    WindowOn(Written(w, wnext, d[..k]), 0, |w|, hist + d[..k], d[k..]);
    assert hist + d[..k] + d[k..] == hist + d;
  }

  /** The window from the oldest byte on is the end of the history. */
  lemma WindowRead(w: seq<byte>, wnext: nat, whave: nat, hist: seq<byte>)
    requires Circular(w, wnext, whave, hist)
    ensures wnext <= whave && w[wnext..whave] + w[..wnext] == hist[|hist| - whave..]
  {
    var x, y := w[wnext..whave] + w[..wnext], hist[|hist| - whave..];
    forall i | 0 <= i < whave
      ensures x[i] == y[i]
    {
      if i < whave - wnext {
        assert x[i] == w[wnext + i] && y[i] == hist[|hist| - wnext - |w| + (wnext + i)];
      } else {
        assert x[i] == w[i - (whave - wnext)];
      }
    }
  }

  // ------------------------------------------- the window as an array of any size

  /** updatewindow: the first put bytes of buf come after the history, in a window that
      keeps as much of it as it can hold. */
  method WriteWindow(window: array<byte>, wnext: nat, whave: nat, buf: array<byte>, put: nat, ghost hist: seq<byte>)
    returns (wnext': nat, whave': nat)
    requires window != buf && put <= buf.Length && Circular(window[..], wnext, whave, hist)
    modifies window
    ensures Circular(window[..], wnext', whave', hist + buf[..put])
  {
    hide Circular, Written;
    WindowBounds(window[..], wnext, whave, hist);
    if put >= window.Length {
      CopyIn(window, 0, buf, put - window.Length, window.Length);
      assert window[..] == buf[..put][put - window.Length..];
      WindowFull(window[..], hist, buf[..put]);
      wnext', whave' := 0, window.Length;
    } else {
      wnext', whave' := AppendWindow(window, wnext, whave, buf, put, hist);
    }
  }

  /** Less than a window of new bytes. */
  method AppendWindow(window: array<byte>, wnext: nat, whave: nat, buf: array<byte>, put: nat, ghost hist: seq<byte>)
    returns (wnext': nat, whave': nat)
    requires window != buf && put <= buf.Length && put < window.Length && Circular(window[..], wnext, whave, hist)
    modifies window
    ensures Circular(window[..], wnext', whave', hist + buf[..put])
  {
    hide Circular, Written;
    WindowBounds(window[..], wnext, whave, hist);
    ghost var w, data := window[..], buf[..put];
    var copy, dist := put, window.Length - wnext;
    if dist > copy { dist := copy; }
    CopyIn(window, wnext, buf, put - copy, dist);
    assert buf[put - copy..put - copy + dist] == data[..dist];
    copy := copy - dist;
    if copy > 0 {
      CopyIn(window, 0, buf, put - copy, copy);
      assert buf[put - copy..put - copy + copy] == data[dist..];
      WindowWraps(w, wnext, whave, hist, data);
      wnext', whave' := copy, window.Length;
    } else {
      assert data[..dist] == data;
      WindowOn(w, wnext, whave, hist, data);
      wnext', whave' := wnext + dist, whave;
      if wnext' == window.Length { wnext' := 0; }
      if whave' < window.Length { whave' := whave' + dist; }
    }
  }

  method CopyIn(window: array<byte>, at: nat, buf: array<byte>, from: nat, n: nat)
    requires at + n <= window.Length && from + n <= buf.Length && window != buf
    modifies window
    ensures window[..] == Written(old(window[..]), at, buf[from..from + n])
    ensures n == window.Length ==> window[..] == buf[from..from + n]
  {
    forall i | 0 <= i < n { window[at + i] := buf[from + i]; }
  }

  /** inflateGetDictionary: the end of the history, as much of it as the window holds. */
  method ReadWindow(window: array<byte>, wnext: nat, whave: nat, ghost hist: seq<byte>, dictionary: array<byte>)
    returns (len: nat)
    requires Circular(window[..], wnext, whave, hist) && dictionary.Length >= whave && dictionary != window
    modifies dictionary
    ensures len == (if |hist| < window.Length then |hist| else window.Length)
    ensures dictionary[..len] == hist[|hist| - len..]
  {
    hide Circular;
    ghost var w := window[..];
    WindowBounds(w, wnext, whave, hist);
    WindowRead(w, wnext, whave, hist);
    CopyOut(dictionary, 0, window, wnext, whave - wnext, w);
    assert dictionary[..whave - wnext] == w[wnext..whave];
    CopyOut(dictionary, whave - wnext, window, 0, wnext, w);
    assert dictionary[..whave] == w[wnext..whave] + w[..wnext];
    len := whave;
  }

  method CopyOut(dictionary: array<byte>, at: nat, window: array<byte>, from: nat, n: nat, ghost w: seq<byte>)
    requires from + n <= window.Length && at + n <= dictionary.Length && dictionary != window && w == window[..]
    modifies dictionary
    ensures dictionary[..at + n] == old(dictionary[..at]) + w[from..from + n]
  {
    forall i | 0 <= i < n { dictionary[at + i] := window[from + i]; }
  }
}
