/** SFMT.c and SFMT.h: the generator and the filling of arrays at once, against the sequence of
128-bit numbers that the recursion defines. */
module Sfmt {
  import opened SfmtStep

  // ------------------------------------------------------------ the sequence

  /** What follows the last p.n numbers. */
  function Following(p: Params, t: seq<W128>): W128
    requires |t| >= p.n
  {
    Recur(p, t[|t| - p.n], t[|t| - p.n + p.pos1], t[|t| - 2], t[|t| - 1])
  }

  /** The first p.n numbers and m more. */
  function Grow(p: Params, s: seq<W128>, m: nat): (t: seq<W128>)
    requires |s| == p.n
    ensures |t| == p.n + m
  {
    if m == 0 then s else
      var t := Grow(p, s, m - 1);
      t + [Following(p, t)]
  }

  /** The sequence does not change where it has been. */
  lemma {:induction false} GrowPrefix(p: Params, s: seq<W128>, k: nat, m: nat)
    requires |s| == p.n && k <= m
    ensures Grow(p, s, m)[..p.n + k] == Grow(p, s, k)
    decreases m
  {
    hide Following;
    if k < m {
      GrowPrefix(p, s, k, m - 1);
      assert Grow(p, s, m)[..p.n + k] == Grow(p, s, m - 1)[..p.n + k];
    } else {
      assert Grow(p, s, m)[..p.n + k] == Grow(p, s, m);
    }
  }

  /** Going on from any p.n numbers in a row. */
  lemma {:induction false} GrowFrom(p: Params, s: seq<W128>, m: nat, k: nat)
    requires |s| == p.n
    ensures Grow(p, s, m + k)[m..] == Grow(p, Grow(p, s, m)[m..], k)
    decreases k
  {
    hide Following;
    if k > 0 {
      var t, u := Grow(p, s, m + k - 1), Grow(p, Grow(p, s, m)[m..], k - 1);
      GrowFrom(p, s, m, k - 1);
      assert m + (k - 1) == m + k - 1;
      assert t[m..] == u;
      FollowsLast(p, t, m);
      assert (t + [Following(p, t)])[m..] == t[m..] + [Following(p, t)];
    }
  }

  lemma FollowsLast(p: Params, t: seq<W128>, m: nat)
    requires m + p.n <= |t|
    ensures Following(p, t[m..]) == Following(p, t)
  {
    hide Recur;
  }

  /** State after the places below i have been overwritten. */
  ghost predicate Turning(p: Params, st: seq<W128>, s: seq<W128>, i: nat) {
    |st| == |s| == p.n && i <= p.n && st[..i] == Grow(p, s, i)[p.n..] && st[i..] == s[i..]
  }

  lemma StartAt(p: Params, s: seq<W128>, i: nat, k: nat)
    requires |s| == p.n && k < p.n
    ensures Grow(p, s, i)[k] == s[k]
  {
    GrowPrefix(p, s, 0, i);
    assert Grow(p, s, i)[k] == Grow(p, s, i)[..p.n][k];
  }

  lemma TurnAt(p: Params, st: seq<W128>, s: seq<W128>, i: nat, k: nat)
    requires Turning(p, st, s, i) && i <= k < p.n + i
    ensures |st| == |s| == p.n && i <= p.n && Grow(p, s, i)[k] == st[if k < p.n then k else k - p.n]
  {
    hide Grow;
    if k < p.n {
      StartAt(p, s, i, k);
      assert st[k] == st[i..][k - i] && s[k] == s[i..][k - i];
    } else {
      assert Grow(p, s, i)[k] == Grow(p, s, i)[p.n..][k - p.n] && st[k - p.n] == st[..i][k - p.n];
    }
  }

  /** Where the operands of step i are found during a turn. */
  lemma TurnPlaces(p: Params, st: seq<W128>, s: seq<W128>, i: nat)
    requires Turning(p, st, s, i) && i < p.n
    ensures var t := Grow(p, s, i);
      t[|t| - p.n] == st[i] && t[|t| - p.n + p.pos1] == st[if i < p.n - p.pos1 then i + p.pos1 else i + p.pos1 - p.n]
    ensures var t := Grow(p, s, i);
      t[|t| - 2] == st[if i < 2 then p.n - 2 + i else i - 2] && t[|t| - 1] == st[if i < 1 then p.n - 1 else i - 1]
  {
    hide Turning, Grow;
    TurnAt(p, st, s, i, i);
    TurnAt(p, st, s, i, i + p.pos1);
    TurnAt(p, st, s, i, p.n + i - 2);
    TurnAt(p, st, s, i, p.n + i - 1);
  }

  lemma TurnStep(p: Params, st: seq<W128>, s: seq<W128>, i: nat, st': seq<W128>)
    requires Turning(p, st, s, i) && i < p.n
    requires st' == st[i := Following(p, Grow(p, s, i))]
    ensures Turning(p, st', s, i + 1)
  {
    hide Following;
    assert st'[..i + 1] == st[..i] + [st'[i]];
    assert st'[i + 1..] == st[i + 1..] == st[i..][1..];
    assert s[i + 1..] == s[i..][1..];
    assert Grow(p, s, i + 1)[p.n..] == Grow(p, s, i)[p.n..] + [Following(p, Grow(p, s, i))];
  }

  /** The array up to i holds the terms after s. */
  ghost predicate Filled(p: Params, arr: seq<W128>, s: seq<W128>, i: nat) {
    |s| == p.n && i <= |arr| && arr[..i] == Grow(p, s, i)[p.n..]
  }

  lemma FillAt(p: Params, arr: seq<W128>, s: seq<W128>, i: nat, k: nat)
    requires Filled(p, arr, s, i) && k < p.n + i
    ensures |s| == p.n && i <= |arr| && Grow(p, s, i)[k] == if k < p.n then s[k] else arr[k - p.n]
  {
    hide Grow;
    if k < p.n {
      StartAt(p, s, i, k);
    } else {
      assert Grow(p, s, i)[k] == Grow(p, s, i)[p.n..][k - p.n] && arr[k - p.n] == arr[..i][k - p.n];
    }
  }

  lemma FillPlaces(p: Params, arr: seq<W128>, s: seq<W128>, i: nat)
    requires Filled(p, arr, s, i)
    ensures |s| == p.n && i <= |arr|
    ensures var t := Grow(p, s, i); t[|t| - p.n] == if i < p.n then s[i] else arr[i - p.n]
    ensures var t := Grow(p, s, i);
      t[|t| - p.n + p.pos1] == if i < p.n - p.pos1 then s[i + p.pos1] else arr[i + p.pos1 - p.n]
    ensures var t := Grow(p, s, i); t[|t| - 2] == if i < 2 then s[p.n - 2 + i] else arr[i - 2]
    ensures var t := Grow(p, s, i); t[|t| - 1] == if i < 1 then s[p.n - 1] else arr[i - 1]
  {
    hide Filled, Grow;
    FillAt(p, arr, s, i, i);
    FillAt(p, arr, s, i, i + p.pos1);
    FillAt(p, arr, s, i, p.n + i - 2);
    FillAt(p, arr, s, i, p.n + i - 1);
  }

  lemma FillStep(p: Params, arr: seq<W128>, s: seq<W128>, i: nat, arr': seq<W128>)
    requires Filled(p, arr, s, i) && i < |arr|
    requires arr' == arr[i := Following(p, Grow(p, s, i))]
    ensures Filled(p, arr', s, i + 1)
  {
    hide Following;
    assert arr'[..i + 1] == arr[..i] + [arr'[i]];
    assert Grow(p, s, i + 1)[p.n..] == Grow(p, s, i)[p.n..] + [Following(p, Grow(p, s, i))];
  }

  // ------------------------------------------------------------ the generator

  /** Number k of the sequence. */
  function Term(p: Params, s: seq<W128>, k: nat): W128
    requires |s| == p.n
  {
    Grow(p, s, k)[k]
  }

  lemma TermIs(p: Params, s: seq<W128>, m: nat, k: nat)
    requires |s| == p.n && k < p.n + m
    ensures Grow(p, s, m)[k] == Term(p, s, k)
  {
    hide Grow;
    if k <= m {
      GrowPrefix(p, s, k, m);
      assert Grow(p, s, m)[k] == Grow(p, s, m)[..p.n + k][k];
    } else {
      GrowPrefix(p, s, m, k);
      assert Grow(p, s, k)[k] == Grow(p, s, k)[..p.n + m][k];
    }
  }

  /** Word k of the sequence. */
  function Word(p: Params, s: seq<W128>, k: nat): bv32
    requires |s| == p.n
  {
    WordOf(Term(p, s, k / 4), k % 4)
  }

  function WordOf(w: W128, k: nat): bv32
    requires k < 4
  {
    if k == 0 then w.u0 else if k == 1 then w.u1 else if k == 2 then w.u2 else w.u3
  }

  /** The state st is p.n numbers of the sequence from s, after the first `turned` of them. */
  ghost predicate OnCourse(p: Params, st: seq<W128>, s: seq<W128>, turned: nat) {
    |s| == p.n && st == Grow(p, s, turned)[turned..]
  }

  lemma FollowingIs(p: Params, t: seq<W128>)
    requires |t| >= p.n
    ensures Following(p, t) == Recur(p, t[|t| - p.n], t[|t| - p.n + p.pos1], t[|t| - 2], t[|t| - 1])
  {
  }

  lemma TurnStarts(p: Params, s: seq<W128>)
    requires |s| == p.n
    ensures Turning(p, s, s, 0)
  {
  }

  lemma TurnEnds(p: Params, st: seq<W128>, s: seq<W128>)
    requires Turning(p, st, s, p.n)
    ensures st == Grow(p, s, p.n)[p.n..]
  {
    assert st == st[..p.n];
  }

  lemma FillStarts(p: Params, arr: seq<W128>, s: seq<W128>)
    requires |s| == p.n
    ensures Filled(p, arr, s, 0)
  {
  }

  lemma FillEnds(p: Params, arr: seq<W128>, s: seq<W128>, i: nat)
    requires Filled(p, arr, s, i)
    ensures i <= |arr| && arr[..i] == Grow(p, s, i)[p.n..]
  {
  }

  /** The state moves along the sequence. */
  lemma CourseTurn(p: Params, st: seq<W128>, s: seq<W128>, turned: nat, k: nat, st': seq<W128>)
    requires OnCourse(p, st, s, turned) && st' == Grow(p, st, k)[k..]
    ensures OnCourse(p, st', s, turned + k)
  {
    hide Grow;
    GrowFrom(p, s, turned, k);
    assert Grow(p, s, turned + k)[turned..][k..] == Grow(p, s, turned + k)[turned + k..];
  }

  lemma CourseStarts(p: Params, s: seq<W128>)
    requires |s| == p.n
    ensures OnCourse(p, s, s, 0)
  {
    assert Grow(p, s, 0)[0..] == s;
  }

  lemma CourseAt(p: Params, st: seq<W128>, s: seq<W128>, turned: nat, i: nat)
    requires OnCourse(p, st, s, turned) && i < p.n
    ensures |st| == |s| == p.n && st[i] == Term(p, s, turned + i)
  {
    hide Grow, Term;
    TermIs(p, s, turned, turned + i);
  }

  /** The array takes up where the state ends. */
  lemma CourseFill(p: Params, st: seq<W128>, s: seq<W128>, turned: nat, arr: seq<W128>, size: nat)
    requires OnCourse(p, st, s, turned) && |st| == p.n && arr == Grow(p, st, size)[p.n..]
    ensures |s| == p.n && |arr| == size && forall i :: 0 <= i < size ==> arr[i] == Term(p, s, turned + p.n + i)
  {
    hide Grow, Term;
    GrowFrom(p, s, turned, size);
    forall i | 0 <= i < size ensures arr[i] == Term(p, s, turned + p.n + i) {
      TermIs(p, s, turned + size, turned + p.n + i);
      assert Grow(p, st, size)[p.n + i] == Grow(p, s, turned + size)[turned..][p.n + i];
    }
  }

  lemma FillTail(p: Params, st: seq<W128>, arr: seq<W128>, size: nat)
    requires |st| == p.n <= size && arr == Grow(p, st, size)[p.n..]
    ensures arr[size - p.n..] == Grow(p, st, size)[size..]
  {
    hide Grow;
  }

  class Generator {
    const p: Params
    const state: array<W128>
    var idx: nat
    /** The first p.n numbers, and how many of the sequence are gone. */
    ghost var start: seq<W128>
    ghost var turned: nat

    ghost predicate Valid()
      reads this, state
    {
      state.Length == p.n && idx <= 4 * p.n && OnCourse(p, state[..], start, turned)
    }

    /** How many words of the sequence are gone. */
    ghost function Position(): nat
      reads this
    {
      4 * turned + idx
    }

    /** sfmt_gen_rand_all: the next p.n numbers over the last p.n, in place. */
    method GenRandAll()
      requires Valid()
      modifies this, state
      ensures Valid() && turned == old(turned) + p.n && start == old(start) && idx == old(idx)
    {
      hide Grow, Recur, Turning, OnCourse, Following;
      ghost var s := state[..];
      Turn(s);
      CourseTurn(p, s, start, turned, p.n, state[..]);
      turned := turned + p.n;
    }

    /** One number overwritten by the next of the sequence. */
    method TurnOne(i: nat, bi: nat, r1: nat, r2: nat, ghost s: seq<W128>)
      requires |s| == state.Length == p.n && Turning(p, state[..], s, i) && i < p.n
      requires bi == (if i < p.n - p.pos1 then i + p.pos1 else i + p.pos1 - p.n)
      requires r1 == (if i < 2 then p.n - 2 + i else i - 2) && r2 == (if i < 1 then p.n - 1 else i - 1)
      modifies state
      ensures Turning(p, state[..], s, i + 1)
    {
      hide Grow, Recur, Turning, Following;
      TurnPlaces(p, state[..], s, i);
      ghost var st := state[..];
      DoRecursion(p, state, i, state, i, state, bi, state, r1, state, r2);
      FollowingIs(p, Grow(p, s, i));
      assert state[..] == st[i := Following(p, Grow(p, s, i))];
      TurnStep(p, st, s, i, state[..]);
    }

    method Turn(ghost s: seq<W128>)
      requires state.Length == p.n && s == state[..]
      modifies state
      ensures |s| == p.n && state[..] == Grow(p, s, p.n)[p.n..]
    {
      hide Grow, Recur, Turning, Following;
      TurnStarts(p, s);
      var r1, r2 := p.n - 2, p.n - 1;
      var i := 0;
      while i < p.n - p.pos1
        invariant 0 <= i <= p.n - p.pos1 && Turning(p, state[..], s, i)
        invariant r1 == (if i < 2 then p.n - 2 + i else i - 2) && r2 == (if i < 1 then p.n - 1 else i - 1)
      {
        TurnOne(i, i + p.pos1, r1, r2, s);
        r1 := r2;
        r2 := i;
        i := i + 1;
      }
      while i < p.n
        invariant p.n - p.pos1 <= i <= p.n && Turning(p, state[..], s, i)
        invariant r1 == (if i < 2 then p.n - 2 + i else i - 2) && r2 == (if i < 1 then p.n - 1 else i - 1)
      {
        TurnOne(i, i + p.pos1 - p.n, r1, r2, s);
        r1 := r2;
        r2 := i;
        i := i + 1;
      }
      TurnEnds(p, state[..], s);
    }

    /** One term, from the state and the array as far as it has been filled. */
    method FillOne(arr: array<W128>, i: nat, ghost s: seq<W128>, a: array<W128>, ai: nat, b: array<W128>, bi: nat,
                   p1: array<W128>, r1: nat, p2: array<W128>, r2: nat)
      requires arr != state && state.Length == p.n && i < arr.Length && Filled(p, arr[..], s, i)
      requires i < p.n ==> state[..] == s
      requires if i < p.n then a == state && ai == i else a == arr && ai == i - p.n
      requires if i < p.n - p.pos1 then b == state && bi == i + p.pos1 else b == arr && bi == i + p.pos1 - p.n
      requires if i < 2 then p1 == state && r1 == p.n - 2 + i else p1 == arr && r1 == i - 2
      requires if i < 1 then p2 == state && r2 == p.n - 1 else p2 == arr && r2 == i - 1
      modifies arr
      ensures Filled(p, arr[..], s, i + 1)
      ensures forall k :: 0 <= k < arr.Length && k != i ==> arr[k] == old(arr[k])
    {
      hide Grow, Recur, Filled, Following;
      FillPlaces(p, arr[..], s, i);
      ghost var was, t := arr[..], Grow(p, s, i);
      assert a[ai] == t[|t| - p.n] && b[bi] == t[|t| - p.n + p.pos1];
      assert p1[r1] == t[|t| - 2] && p2[r2] == t[|t| - 1];
      DoRecursion(p, arr, i, a, ai, b, bi, p1, r1, p2, r2);
      FollowingIs(p, Grow(p, s, i));
      assert arr[..] == was[i := Following(p, Grow(p, s, i))];
      FillStep(p, was, s, i, arr[..]);
    }

    /** The terms that still need the state. */
    method FillFromState(arr: array<W128>, ghost s: seq<W128>)
      requires state.Length == p.n <= arr.Length && arr != state && s == state[..]
      modifies arr
      ensures Filled(p, arr[..], s, p.n)
      ensures forall k :: p.n <= k < arr.Length ==> arr[k] == old(arr[k])
    {
      hide Grow, Recur, Filled, Following;
      FillStarts(p, arr[..], s);
      var p1, r1, p2, r2 := state, p.n - 2, state, p.n - 1;
      var i := 0;
      while i < p.n - p.pos1
        invariant 0 <= i <= p.n - p.pos1 && Filled(p, arr[..], s, i)
        invariant forall k :: p.n <= k < arr.Length ==> arr[k] == old(arr[k])
        invariant if i < 2 then p1 == state && r1 == p.n - 2 + i else p1 == arr && r1 == i - 2
        invariant if i < 1 then p2 == state && r2 == p.n - 1 else p2 == arr && r2 == i - 1
        invariant state[..] == s
      {
        FillOne(arr, i, s, state, i, state, i + p.pos1, p1, r1, p2, r2);
        p1, r1, p2, r2 := p2, r2, arr, i;
        i := i + 1;
      }
      while i < p.n
        invariant p.n - p.pos1 <= i <= p.n && Filled(p, arr[..], s, i)
        invariant forall k :: p.n <= k < arr.Length ==> arr[k] == old(arr[k])
        invariant if i < 2 then p1 == state && r1 == p.n - 2 + i else p1 == arr && r1 == i - 2
        invariant if i < 1 then p2 == state && r2 == p.n - 1 else p2 == arr && r2 == i - 1
        invariant state[..] == s
      {
        FillOne(arr, i, s, state, i, arr, i + p.pos1 - p.n, p1, r1, p2, r2);
        p1, r1, p2, r2 := p2, r2, arr, i;
        i := i + 1;
      }
    }

    /** The terms that need only the array, as long as the state need not be written. */
    method FillMiddle(arr: array<W128>, ghost s: seq<W128>, size: nat) returns (i: nat)
      requires state.Length == p.n <= size <= arr.Length && arr != state && Filled(p, arr[..], s, p.n)
      modifies arr
      ensures i == (if size < 2 * p.n then p.n else size - p.n) && Filled(p, arr[..], s, i)
      ensures forall k :: size <= k < arr.Length ==> arr[k] == old(arr[k])
    {
      hide Grow, Recur, Filled, Following;
      i := p.n;
      while i < size - p.n
        invariant p.n <= i && (i <= size - p.n || i == p.n) && Filled(p, arr[..], s, i)
        invariant forall k :: size <= k < arr.Length ==> arr[k] == old(arr[k])
      {
        FillOne(arr, i, s, arr, i - p.n, arr, i + p.pos1 - p.n, arr, i - 2, arr, i - 1);
        i := i + 1;
      }
    }

    /** The terms that stay in the state, those that are in the array already. */
    method CopyBack(arr: array<W128>, size: nat) returns (j: nat)
      requires state.Length == p.n <= size <= arr.Length && arr != state
      modifies state
      ensures j == (if size < 2 * p.n then 2 * p.n - size else 0)
      ensures state[..j] == arr[size - p.n..size - p.n + j]
    {
      j := 0;
      while j < 2 * p.n - size
        invariant 0 <= j && (j <= 2 * p.n - size || j == 0)
        invariant state[..j] == arr[size - p.n..size - p.n + j]
      {
        state[j] := arr[j + size - p.n];
        j := j + 1;
      }
    }

    /** The last terms, into the array and the state. */
    method FillLast(arr: array<W128>, ghost s: seq<W128>, size: nat, from: nat, place: nat)
      requires state.Length == p.n <= size <= arr.Length && arr != state
      requires p.n <= from <= size && place == from - (size - p.n) && 0 <= place <= p.n
      requires Filled(p, arr[..], s, from) && state[..place] == arr[size - p.n..from]
      modifies arr, state
      ensures Filled(p, arr[..], s, size) && state[..] == arr[size - p.n..size]
      ensures forall k :: size <= k < arr.Length ==> arr[k] == old(arr[k])
    {
      hide Grow, Recur, Filled, Following;
      var i, j := from, place;
      while i < size
        invariant p.n <= i <= size && j == i - (size - p.n) && 0 <= j <= p.n
        invariant Filled(p, arr[..], s, i) && state[..j] == arr[size - p.n..i]
        invariant forall k :: size <= k < arr.Length ==> arr[k] == old(arr[k])
      {
        FillOne(arr, i, s, arr, i - p.n, arr, i + p.pos1 - p.n, arr, i - 2, arr, i - 1);
        state[j] := arr[i];
        i, j := i + 1, j + 1;
      }
    }

    /** gen_rand_array: size terms into the array, and the last p.n of them into the state. */
    method GenRandArray(arr: array<W128>, size: nat)
      requires state.Length == p.n && p.n <= size <= arr.Length && arr != state
      modifies state, arr
      ensures arr[..size] == Grow(p, old(state[..]), size)[p.n..]
      ensures state[..] == arr[size - p.n..size]
      ensures forall k :: size <= k < arr.Length ==> arr[k] == old(arr[k])
    {
      hide Grow, Recur, Filled, Following;
      ghost var s := state[..];
      FillFromState(arr, s);
      var i := FillMiddle(arr, s, size);
      var j := CopyBack(arr, size);
      FillLast(arr, s, size, i, j);
      FillEnds(p, arr[..], s, size);
    }

    /** A generator with whatever numbers it was seeded with, none of them given out. */
    constructor (params: Params, seed: seq<W128>)
      requires |seed| == params.n
      ensures Valid() && fresh(state) && start == seed && Position() == 4 * p.n
    {
      hide OnCourse;
      p := params;
      state := new W128[params.n];
      idx := 4 * params.n;
      start, turned := seed, 0;
      new;
      forall i | 0 <= i < p.n {
        state[i] := seed[i];
      }
      assert state[..] == seed;
      CourseStarts(p, seed);
    }

    /** When all words are gone, the next p.n numbers. */
    method Refill()
      requires Valid()
      modifies this, state
      ensures Valid() && start == old(start) && Position() == old(Position()) && idx < 4 * p.n
      ensures idx == old(idx) || idx == 0
    {
      hide OnCourse;
      if idx >= 4 * p.n {
        GenRandAll();
        idx := 0;
      }
    }

    /** sfmt_genrand_uint32: the next word of the sequence. */
    method GenRandUint32() returns (r: bv32)
      requires Valid()
      modifies this, state
      ensures Valid() && start == old(start)
      ensures r == Word(p, start, old(Position())) && Position() == old(Position()) + 1
    {
      hide OnCourse, WordOf, Term;
      Refill();
      CourseAt(p, state[..], start, turned, idx / 4);
      r := WordOf(state[idx / 4], idx % 4);
      WordPlace(turned, idx);
      idx := idx + 1;
    }

    /** sfmt_genrand_uint64: the next two words, the first of them low. */
    method GenRandUint64() returns (r: bv64)
      requires Valid() && idx % 2 == 0
      modifies this, state
      ensures Valid() && start == old(start) && idx % 2 == 0
      ensures r == Word64(Word(p, start, old(Position()) + 1), Word(p, start, old(Position())))
      ensures Position() == old(Position()) + 2
    {
      hide OnCourse, Term, Word64, Word, TwoAt;
      Refill();
      TwoWords(p, state[..], start, turned, idx);
      r := TwoAt(state[idx / 4], idx % 4);
      idx := idx + 2;
    }

    /** sfmt_fill_array32: the next size words, all at once. */
    method FillArray32(arr: array<W128>, size: nat)
      requires Valid() && arr != state
      requires idx == 4 * p.n && size % 4 == 0 && 4 * p.n <= size <= 4 * arr.Length
      modifies this, state, arr
      ensures Valid() && start == old(start) && idx == 4 * p.n
      ensures forall k :: 0 <= k < size ==> WordOf(arr[k / 4], k % 4) == Word(p, start, old(Position()) + k)
      ensures Position() == old(Position()) + size
      ensures forall k :: size / 4 <= k < arr.Length ==> arr[k] == old(arr[k])
    {
      hide OnCourse, WordOf, Term, Grow;
      ghost var st, at, n := state[..], turned, size / 4;
      GenRandArray(arr, size / 4);
      CourseFill(p, st, start, at, arr[..n], n);
      FillTail(p, st, arr[..n], n);
      assert state[..] == arr[..n][n - p.n..];
      CourseTurn(p, st, start, at, n, state[..]);
      turned := turned + size / 4;
      forall k | 0 <= k < size ensures WordOf(arr[k / 4], k % 4) == Word(p, start, 4 * at + 4 * p.n + k) {
        WordPlace(at + p.n + k / 4, k % 4);
        assert arr[k / 4] == arr[..n][k / 4];
      }
    }
  }

  /** Two words from an even place on are in the same number. */
  lemma EvenPlace(idx: nat, n: nat)
    requires idx % 2 == 0 && idx < 4 * n
    ensures idx / 4 < n && idx % 4 + 1 < 4 && (idx + 1) / 4 == idx / 4 && (idx + 1) % 4 == idx % 4 + 1
  {
  }

  function TwoAt(w: W128, k: nat): bv64
    requires k + 1 < 4
  {
    Word64(WordOf(w, k + 1), WordOf(w, k))
  }

  lemma TwoWords(p: Params, st: seq<W128>, s: seq<W128>, turned: nat, idx: nat)
    requires OnCourse(p, st, s, turned) && idx % 2 == 0 && idx < 4 * p.n
    ensures |st| == |s| == p.n && idx / 4 < p.n && idx % 4 + 1 < 4
    ensures TwoAt(st[idx / 4], idx % 4) == Word64(Word(p, s, 4 * turned + idx + 1), Word(p, s, 4 * turned + idx))
  {
    hide OnCourse, Word, WordOf, Term, Word64;
    EvenPlace(idx, p.n);
    CourseAt(p, st, s, turned, idx / 4);
    WordIs(p, s, turned, idx, st[idx / 4]);
    WordIs(p, s, turned, idx + 1, st[idx / 4]);
  }

  lemma WordIs(p: Params, s: seq<W128>, turned: nat, idx: nat, w: W128)
    requires |s| == p.n && w == Term(p, s, turned + idx / 4)
    ensures Word(p, s, 4 * turned + idx) == WordOf(w, idx % 4)
  {
    hide Term, WordOf;
    WordPlace(turned, idx);
  }

  lemma WordPlace(turned: nat, idx: nat)
    ensures (4 * turned + idx) / 4 == turned + idx / 4 && (4 * turned + idx) % 4 == idx % 4
  {
  }
}
