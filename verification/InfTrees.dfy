/** inftrees.c: decoding tables built from code lengths alone. */
module InfTrees {
  import opened Bits
  import opened Canonical
  import opened TableSpace

  /** A table entry: what to do, how many bits it consumes here, and a value. */
  datatype Code = Code(op: nat, bits: nat, val: nat)

  datatype CodeType = CODES | LENS | DISTS

  const ENOUGH_LENS := 852
  const ENOUGH_DISTS := 592

  /** Table space each kind of code may use; CODES tables are one 7-bit root. */
  function Enough(t: CodeType): nat {
    match t
    case CODES => 128
    case LENS => ENOUGH_LENS
    case DISTS => ENOUGH_DISTS
  }

  const LBASE: seq<nat> := [
    3, 4, 5, 6, 7, 8, 9, 10, 11, 13, 15, 17, 19, 23, 27, 31,
    35, 43, 51, 59, 67, 83, 99, 115, 131, 163, 195, 227, 258, 0, 0]
  const LEXT: seq<nat> := [
    16, 16, 16, 16, 16, 16, 16, 16, 17, 17, 17, 17, 18, 18, 18, 18,
    19, 19, 19, 19, 20, 20, 20, 20, 21, 21, 21, 21, 16, 203, 77]
  const DBASE: seq<nat> := [
    1, 2, 3, 4, 5, 7, 9, 13, 17, 25, 33, 49, 65, 97, 129, 193,
    257, 385, 513, 769, 1025, 1537, 2049, 3073, 4097, 6145,
    8193, 12289, 16385, 24577, 0, 0]
  const DEXT: seq<nat> := [
    16, 16, 16, 16, 17, 17, 18, 18, 19, 19, 20, 20, 21, 21, 22, 22,
    23, 23, 24, 24, 25, 25, 26, 26, 27, 27,
    28, 28, 29, 29, 64, 64]

  const END_OF_BLOCK := 96
  const INVALID_CODE := 64

  /** Symbols each kind of code may have. */
  function MaxSymbols(t: CodeType): nat {
    match t
    case CODES => 19
    case LENS => 288
    case DISTS => 32
  }

  /** What a symbol stands for: the op and val every entry for it carries. */
  datatype Sym = Sym(op: nat, val: nat)

  function SymOf(t: CodeType, s: nat): Sym
    requires s < MaxSymbols(t)
  {
    match t
    case CODES => Sym(0, s)
    case LENS =>
      if s < 256 then Sym(0, s)
      else if s == 256 then Sym(END_OF_BLOCK, 0)
      else Sym(LEXT[s - 257], LBASE[s - 257])
    case DISTS => Sym(DEXT[s], DBASE[s])
  }

  function Entry(x: Sym, bits: nat): Code {
    Code(x.op, bits, x.val)
  }

  ghost predicate IsSymbols(t: CodeType, syms: seq<Sym>) {
    |syms| == MaxSymbols(t) && forall s {:trigger SymOf(t, s)} :: 0 <= s < |syms| ==> syms[s] == SymOf(t, s)
  }

  /** No symbol is mistaken for a link to a sub-table. */
  ghost predicate NoLinks(syms: seq<Sym>) {
    forall s :: 0 <= s < |syms| ==> syms[s].op == 0 || syms[s].op >= 16
  }

  lemma Symbols(t: CodeType) returns (syms: seq<Sym>)
    ensures IsSymbols(t, syms) && NoLinks(syms)
  {
    assert forall i :: 0 <= i < |LEXT| ==> LEXT[i] >= 16;
    assert forall i :: 0 <= i < |DEXT| ==> DEXT[i] >= 16;
    syms := seq(MaxSymbols(t), s requires 0 <= s < MaxSymbols(t) => SymOf(t, s));
  }

  /** A root entry that points to a sub-table of 2^op entries. */
  predicate IsLink(e: Code) {
    0 < e.op < 16
  }

  /** Looking the window h up in the table yields e, e.bits being the bits of
      both levels together, and no access leaves the table. */
  ghost predicate Resolves(t: seq<Code>, root: nat, h: nat, e: Code) {
    Pow2(root) <= |t| &&
    var e0 := t[Low(h, root)];
    if IsLink(e0) then
      e0.bits == root && e0.val + Pow2(e0.op) <= |t| &&
      var e1 := t[e0.val + Low(Shr(h, root), e0.op)];
      e == Code(e1.op, root + e1.bits, e1.val)
    else e0 == e
  }

  ghost predicate Matched(lens: seq<nat>, h: nat) {
    exists s: nat :: Matches(lens, s, h)
  }

  /** Every window decodes to the symbol whose code it starts with, and to the
      invalid marker when there is none. */
  ghost predicate Decodes(t: seq<Code>, root: nat, ctype: CodeType, lens: seq<nat>)
    requires |lens| <= MaxSymbols(ctype)
  {
    && (forall s: nat, h: nat :: Matches(lens, s, h) ==> Resolves(t, root, h, Entry(SymOf(ctype, s), lens[s])))
    && (forall h: nat :: !Matched(lens, h) ==> Resolves(t, root, h, Code(INVALID_CODE, 1, 0)))
  }

  /** No symbol at all. */
  ghost predicate Empty(lens: seq<nat>) {
    forall i :: 0 <= i < |lens| ==> lens[i] == 0
  }

  /** The lengths inflate_table accepts. */
  ghost predicate Acceptable(ctype: CodeType, lens: seq<nat>) {
    Empty(lens) ||
    (NotOversubscribed(lens) &&
     (Complete(lens) || (ctype != CODES && forall i :: 0 <= i < |lens| ==> lens[i] <= 1)))
  }

  // ------------------------------------------------- the backwards increment

  /** Carry from the top bit of an n-bit code downwards. */
  function BackInc(n: nat, huff: nat): nat {
    if n == 0 then 0
    else if Shr(huff, n - 1) % 2 == 1 then BackInc(n - 1, huff)
    else Low(huff, n - 1) + Pow2(n - 1)
  }

  /** Incrementing backwards is incrementing the reversed code. */
  lemma {:induction false} BackIncReverses(n: nat, huff: nat)
    ensures BackInc(n, huff) < Pow2(n)
    ensures Rev(n, huff) + 1 < Pow2(n) ==> Rev(n, BackInc(n, huff)) == Rev(n, huff) + 1
    ensures Rev(n, huff) + 1 == Pow2(n) ==> BackInc(n, huff) == 0
  {
    hide Rev, Shr, Low, Pow2;
    if n > 0 {
      PowStep(n);
      RevLast(n, huff);
      RevLow(n - 1, huff);
      LowFits(huff, n - 1);
      if Shr(huff, n - 1) % 2 == 1 {
        BackIncReverses(n - 1, huff);
        BelowTop(n, BackInc(n - 1, huff));
      } else {
        SetTopBit(n, huff);
      }
    } else {
      PowZero();
      RevNone(huff);
    }
  }

  lemma RevNone(x: nat)
    ensures Rev(0, x) == 0
  {
  }

  /** A code whose top bit is not set. */
  lemma BelowTop(n: nat, b: nat)
    requires n > 0 && b < Pow2(n - 1)
    ensures Rev(n, b) == 2 * Rev(n - 1, b)
  {
    hide Rev, Low;
    RevLast(n, b);
    LowIdentity(b, n - 1);
    SplitUnique(b, n - 1, 0, b);
  }

  lemma SetTopBit(n: nat, huff: nat)
    requires n > 0
    ensures Rev(n, Low(huff, n - 1) + Pow2(n - 1)) == 2 * Rev(n - 1, Low(huff, n - 1)) + 1
  {
    var b := Low(huff, n - 1) + Pow2(n - 1);
    SplitUnique(b, n - 1, 1, Low(huff, n - 1));
    RevLast(n, b);
  }

  /** The loop that increments huff in place. */
  method IncrementBackwards(huff: nat, len: nat) returns (huff': nat)
    requires 1 <= len
    ensures huff' == BackInc(len, huff)
  {
    var incr := Pow2(len - 1);
    ghost var j: nat := len;
    while incr != 0 && (huff / incr) % 2 == 1
      invariant j <= len
      invariant incr == if j == 0 then 0 else Pow2(j - 1)
      invariant BackInc(len, huff) == BackInc(j, huff)
      decreases incr
    {
      ShrDiv(huff, j - 1);
      incr := incr / 2;
      j := j - 1;
    }
    if incr != 0 {
      ShrDiv(huff, j - 1);
      huff' := huff % incr + incr;
    } else {
      huff' := 0;
    }
  }

  // -------------------------------------------------- counting and sorting

  /** Where the symbols of length n start in the sorted list. */
  function Off(lens: seq<nat>, n: nat): nat {
    if n <= 1 then 0 else Off(lens, n - 1) + Count(lens, n - 1)
  }

  lemma {:induction false} OffSnoc(lens: seq<nat>, n: nat)
    requires |lens| > 0
    ensures var v := lens[|lens| - 1];
            Off(lens, n) == Off(lens[..|lens| - 1], n) + (if 1 <= v < n then 1 else 0)
  {
    if n > 1 {
      OffSnoc(lens, n - 1);
    }
  }

  lemma {:induction false} OffBound(lens: seq<nat>, n: nat)
    ensures Off(lens, n) <= |lens|
    decreases |lens|
  {
    if |lens| == 0 {
      OffEmpty(n);
    } else {
      OffBound(lens[..|lens| - 1], n);
      OffSnoc(lens, n);
    }
  }

  lemma {:induction false} OffEmpty(n: nat)
    ensures Off([], n) == 0
  {
    if n > 1 {
      OffEmpty(n - 1);
    }
  }

  lemma {:induction false} OffMono(lens: seq<nat>, a: nat, b: nat)
    requires 1 <= a < b
    ensures Off(lens, a) + Count(lens, a) <= Off(lens, b)
    decreases b
  {
    if a < b - 1 {
      OffMono(lens, a, b - 1);
    }
  }

  /** Place of symbol s when sorted by length, symbols in order within one length. */
  function Place(lens: seq<nat>, s: nat): nat
    requires s < |lens|
  {
    Off(lens, lens[s]) + Count(lens[..s], lens[s])
  }

  lemma PlaceInjective(lens: seq<nat>, s: nat, t: nat)
    requires s < |lens| && t < |lens| && lens[s] != 0 && lens[t] != 0 && s != t
    ensures Place(lens, s) != Place(lens, t)
  {
    RankBound(lens, s);
    RankBound(lens, t);
    if lens[s] < lens[t] {
      OffMono(lens, lens[s], lens[t]);
    } else if lens[t] < lens[s] {
      OffMono(lens, lens[t], lens[s]);
    } else if s < t {
      CountMono(lens, s, t, lens[s]);
    } else {
      CountMono(lens, t, s, lens[s]);
    }
  }

  lemma PlaceBound(lens: seq<nat>, s: nat)
    requires s < |lens| && lens[s] != 0
    ensures Place(lens, s) < |lens|
  {
    RankBound(lens, s);
    OffBound(lens, lens[s] + 1);
  }

  ghost predicate Sorted(work: seq<nat>, lens: seq<nat>, n: nat)
    requires n <= |lens|
  {
    forall i {:trigger Place(lens, i)} :: 0 <= i < n && lens[i] != 0 ==>
      Place(lens, i) < |work| && work[Place(lens, i)] == i
  }

  lemma SortedStep(work: seq<nat>, lens: seq<nat>, n: nat)
    requires n < |lens| <= |work| && lens[n] != 0 && Sorted(work, lens, n)
    ensures Place(lens, n) < |work|
    ensures Sorted(work[Place(lens, n) := n], lens, n + 1)
  {
    PlaceBound(lens, n);
    forall i | 0 <= i < n && lens[i] != 0
      ensures Place(lens, i) != Place(lens, n)
    {
      PlaceInjective(lens, i, n);
    }
  }

  method CountLengths(lens: seq<nat>, count: array<nat>)
    requires ValidLengths(lens) && count.Length == MAXBITS + 1
    modifies count
    ensures forall l :: 0 <= l <= MAXBITS ==> count[l] == Count(lens, l)
  {
    for l := 0 to MAXBITS + 1
      invariant forall i :: 0 <= i < l ==> count[i] == 0
    {
      count[l] := 0;
    }
    for sym := 0 to |lens|
      invariant forall l :: 0 <= l <= MAXBITS ==> count[l] == Count(lens[..sym], l)
    {
      forall l | 0 <= l <= MAXBITS
        ensures Count(lens[..sym + 1], l) == Count(lens[..sym], l) + (if lens[sym] == l then 1 else 0)
      {
        CountSnoc(lens, sym, l);
      }
      count[lens[sym]] := count[lens[sym]] + 1;
    }
    assert lens[..|lens|] == lens;
  }

  method SortSymbols(lens: seq<nat>, count: array<nat>, work: array<nat>)
    requires ValidLengths(lens) && count.Length == MAXBITS + 1 && work.Length >= |lens|
    requires forall l :: 0 <= l <= MAXBITS ==> count[l] == Count(lens, l)
    requires work != count
    modifies work
    ensures Sorted(work[..], lens, |lens|)
  {
    hide Sorted, NextFree, Count, Off, ValidLengths;
    var offs := new nat[MAXBITS + 1];
    OffStarts(lens);
    offs[1] := 0;
    for len := 1 to MAXBITS
      invariant forall l :: 1 <= l <= len ==> offs[l] == Off(lens, l)
    {
      OffNext(lens, len);
      offs[len + 1] := offs[len] + count[len];
    }
    NothingSorted(work[..], offs[..], lens);
    for sym := 0 to |lens|
      invariant NextFree(offs[..], lens, sym)
      invariant Sorted(work[..], lens, sym)
    {
      PlaceSymbol(lens, sym, offs, work);
    }
  }

  lemma OffStarts(lens: seq<nat>)
    ensures Off(lens, 1) == 0
  {
  }

  lemma OffNext(lens: seq<nat>, len: nat)
    requires len >= 1
    ensures Off(lens, len + 1) == Off(lens, len) + Count(lens, len)
  {
  }

  lemma NothingSorted(work: seq<nat>, offs: seq<nat>, lens: seq<nat>)
    requires |offs| == MAXBITS + 1 && |lens| <= |work| && forall l :: 1 <= l <= MAXBITS ==> offs[l] == Off(lens, l)
    ensures NextFree(offs, lens, 0) && Sorted(work, lens, 0)
  {
  }

  /** offs[l] is where the next symbol of length l goes. */
  ghost predicate NextFree(offs: seq<nat>, lens: seq<nat>, n: nat)
    requires n <= |lens|
  {
    |offs| == MAXBITS + 1 &&
    forall l {:trigger Off(lens, l)} :: 1 <= l <= MAXBITS ==> offs[l] == Off(lens, l) + Count(lens[..n], l)
  }

  method PlaceSymbol(lens: seq<nat>, sym: nat, offs: array<nat>, work: array<nat>)
    requires ValidLengths(lens) && sym < |lens| <= work.Length && offs != work
    requires NextFree(offs[..], lens, sym)
    requires Sorted(work[..], lens, sym)
    modifies offs, work
    ensures NextFree(offs[..], lens, sym + 1)
    ensures Sorted(work[..], lens, sym + 1)
  {
    forall l | 1 <= l <= MAXBITS
      ensures Count(lens[..sym + 1], l) == Count(lens[..sym], l) + (if lens[sym] == l then 1 else 0)
    {
      CountSnoc(lens, sym, l);
    }
    ghost var was, next := work[..], offs[..];
    if lens[sym] != 0 {
      assert Off(lens, lens[sym]) >= 0;
      SortedStep(was, lens, sym);
      work[offs[lens[sym]]] := sym;
      offs[lens[sym]] := offs[lens[sym]] + 1;
      assert work[..] == was[Place(lens, sym) := sym];
      assert offs[..] == next[lens[sym] := next[lens[sym]] + 1];
    }
  }

  /** The longest code length in use, 0 if none. */
  method LongestLength(count: array<nat>) returns (max: nat)
    requires count.Length == MAXBITS + 1
    ensures max <= MAXBITS && (max > 0 ==> count[max] != 0)
    ensures forall l :: max < l <= MAXBITS ==> count[l] == 0
  {
    max := MAXBITS;
    while max >= 1
      invariant max <= MAXBITS
      invariant forall l :: max < l <= MAXBITS ==> count[l] == 0
    {
      if count[max] != 0 { break; }
      max := max - 1;
    }
  }

  method ShortestLength(count: array<nat>, max: nat) returns (min: nat)
    requires count.Length == MAXBITS + 1 && 1 <= max <= MAXBITS && count[max] != 0
    ensures 1 <= min <= max && count[min] != 0
    ensures forall l :: 1 <= l < min ==> count[l] == 0
  {
    min := 1;
    while min < max
      invariant 1 <= min <= max
      invariant forall l :: 1 <= l < min ==> count[l] == 0
    {
      if count[min] != 0 { break; }
      min := min + 1;
    }
  }

  lemma UsedOverflows(lens: seq<nat>, n: nat)
    requires n <= MAXBITS && Used(lens, n) > Pow2(n)
    ensures !NotOversubscribed(lens)
  {
    if NotOversubscribed(lens) {
      UsedFits(lens, n);
    }
  }

  /** Prefix codes still available: negative if over-subscribed, else the exact remainder. */
  method CodesLeft(lens: seq<nat>, count: array<nat>) returns (left: int)
    requires count.Length == MAXBITS + 1
    requires forall l :: 0 <= l <= MAXBITS ==> count[l] == Count(lens, l)
    ensures left < 0 <==> !NotOversubscribed(lens)
    ensures left >= 0 ==> left == Pow2(MAXBITS) - Used(lens, MAXBITS)
  {
    left := 1;
    var len := 1;
    while len <= MAXBITS
      invariant 1 <= len <= MAXBITS + 1
      invariant 0 <= left == Pow2(len - 1) - Used(lens, len - 1)
    {
      left := left * 2;
      left := left - count[len];
      if left < 0 {
        UsedOverflows(lens, len);
        return;
      }
      len := len + 1;
    }
  }

  // ------------------------------------------------ what a filled table says

  /** s comes before the code of length len and rank r. */
  ghost predicate Done(lens: seq<nat>, s: nat, len: nat, r: nat) {
    s < |lens| && lens[s] != 0 && (lens[s] < len || (lens[s] == len && Count(lens[..s], len) < r))
  }

  /** The indices below 2^n whose low l bits are hd. */
  ghost function Hits(n: nat, l: nat, hd: nat): set<nat> {
    set k: nat | k < Pow2(n) && Low(k, l) == hd
  }

  /** The table at base holds e at all the indices in ks. */
  ghost predicate Filled(t: seq<Code>, base: nat, ks: set<nat>, e: Code) {
    forall k :: k in ks ==> base + k < |t| && t[base + k] == e
  }

  /** All root entries of a short code are in place. */
  ghost predicate InRoot(t: seq<Code>, root: nat, syms: seq<Sym>, lens: seq<nat>, s: nat)
    requires |lens| <= |syms|
  {
    s < |lens| && lens[s] <= root && Pow2(root) <= |t| &&
    Filled(t, 0, Hits(root, lens[s], Word(lens, s)), Entry(syms[s], lens[s]))
  }

  /** Long code s has a sub-table ending by limit, and its entries are in place there. */
  ghost predicate InSub(t: seq<Code>, root: nat, syms: seq<Sym>, lens: seq<nat>, s: nat, limit: nat)
    requires |lens| <= |syms|
  {
    s < |lens| && lens[s] > root && Pow2(root) <= |t| &&
    SubAt(t, root, lens[s] - root, Shr(Word(lens, s), root), syms[s], limit, t[Low(Word(lens, s), root)])
  }

  ghost predicate SubAt(t: seq<Code>, root: nat, l: nat, hd: nat, x: Sym, limit: nat, e: Code) {
    IsLink(e) && e.bits == root && Pow2(root) <= e.val && e.val + Pow2(e.op) <= limit <= |t| && l <= e.op &&
    Filled(t, e.val, Hits(e.op, l, hd), Entry(x, l))
  }

  lemma RootResolves(t: seq<Code>, root: nat, syms: seq<Sym>, lens: seq<nat>, s: nat, h: nat)
    requires |lens| <= |syms| && NoLinks(syms)
    requires InRoot(t, root, syms, lens, s) && Matches(lens, s, h)
    ensures Resolves(t, root, h, Entry(syms[s], lens[s]))
  {
    LowLow(h, lens[s], root);
    assert Low(h, root) in Hits(root, lens[s], Word(lens, s));
  }

  lemma SubResolves(t: seq<Code>, root: nat, syms: seq<Sym>, lens: seq<nat>, s: nat, h: nat)
    requires |lens| <= |syms|
    requires InSub(t, root, syms, lens, s, |t|) && Matches(lens, s, h)
    ensures Resolves(t, root, h, Entry(syms[s], lens[s]))
  {
    var l, e := lens[s] - root, t[Low(Word(lens, s), root)];
    assert Low(h, root) == Low(Word(lens, s), root) by { LowLow(h, root, lens[s]); }
    var k := Low(Shr(h, root), e.op);
    assert Low(k, l) == Shr(Word(lens, s), root) by {
      LowLow(Shr(h, root), l, e.op);
      ShrLow(h, root, l);
      assert root + l == lens[s];
    }
    assert k in Hits(e.op, l, Shr(Word(lens, s), root));
  }

  // ------------------------------------------------------- replicated writes

  /** u is t with e written at the indices ks of the table at next. */
  ghost predicate Replicated(t: seq<Code>, u: seq<Code>, next: nat, ks: set<nat>, e: Code) {
    && |t| == |u|
    && (forall k :: k in ks ==> next + k < |u| && u[next + k] == e)
    && (forall j :: 0 <= j < |t| && (j < next || j - next !in ks) ==> u[j] == t[j])
  }

  lemma ReplicatedMore(was: seq<Code>, now: seq<Code>, next: nat, ks: set<nat>, k: nat, e: Code)
    requires Replicated(was, now, next, ks, e) && next + k < |now|
    ensures Replicated(was, now[next + k := e], next, ks + {k}, e)
  {
  }

  lemma ReplicatedWithin(was: seq<Code>, now: seq<Code>, start: nat, used: nat, next: nat, ks: set<nat>, e: Code)
    requires Replicated(was, now, start + next, ks, e) && start + used <= |was|
    requires forall k :: k in ks ==> next + k < used
    ensures |now| == |was| && Replicated(was[start..start + used], now[start..start + used], next, ks, e)
    ensures now[..start] == was[..start] && now[start + used..] == was[start + used..]
  {
  }

  /** The replication loop: e at every index of a table of 2^n entries that ends in hd. */
  method Replicate(table: array<Code>, start: nat, next: nat, n: nat, l: nat, hd: nat, here: Code, ghost used: nat)
    requires l <= n && hd < Pow2(l)
    requires next + Pow2(n) <= used && start + used <= table.Length
    modifies table
    ensures Replicated(old(table[start..start + used]), table[start..start + used], next, Hits(n, l, hd), here)
    ensures table[..start] == old(table[..start])
    ensures table[start + used..] == old(table[start + used..])
  {
    hide Low, Pow2, Replicated, HitsFrom, Hits;
    var incr := Pow2(l);
    var fill := Pow2(n);
    ghost var m: nat := Pow2(n - l);
    Pow2Sum(n - l, l);
    assert n - l + l == n;
    ghost var was := table[..];
    NoneReplicated(was, start + next, n, l, hd, here);
    while fill != 0
      invariant fill == m * incr && fill <= Pow2(n)
      invariant Replicated(was, table[..], start + next, HitsFrom(n, l, hd, fill), here)
      decreases m
    {
      assert fill - incr == (m - 1) * incr && fill >= incr by { MulBound(m, incr); }
      HitsStep(n, l, hd, fill, fill - incr, m - 1);
      ghost var before := table[..];
      fill := fill - incr;
      table[start + next + hd + fill] := here;
      assert table[..] == before[start + next + (hd + fill) := here];
      ReplicatedMore(was, before, start + next, HitsFrom(n, l, hd, fill + incr), hd + fill, here);
      m := m - 1;
    }
    AllHits(n, l, hd);
    ReplicatedWithin(was, table[..], start, used, next, Hits(n, l, hd), here);
    assert table[start..start + used] == table[..][start..start + used];
  }

  lemma NoneReplicated(t: seq<Code>, next: nat, n: nat, l: nat, hd: nat, e: Code)
    ensures Replicated(t, t, next, HitsFrom(n, l, hd, Pow2(n)), e)
  {
  }

  lemma AllHits(n: nat, l: nat, hd: nat)
    ensures HitsFrom(n, l, hd, 0) == Hits(n, l, hd)
    ensures forall k :: k in Hits(n, l, hd) ==> k < Pow2(n)
  {
    hide Pow2;
  }

  ghost function HitsFrom(n: nat, l: nat, hd: nat, fill: nat): set<nat> {
    set k: nat | k in Hits(n, l, hd) && k >= fill
  }

  lemma HitsStep(n: nat, l: nat, hd: nat, fill: nat, f: nat, m: nat)
    requires hd < Pow2(l) && fill <= Pow2(n)
    requires fill == f + Pow2(l) && f == m * Pow2(l)
    ensures HitsFrom(n, l, hd, f) == HitsFrom(n, l, hd, fill) + {hd + f}
  {
    forall k: nat | k < Pow2(n)
      ensures k in HitsFrom(n, l, hd, f) <==> k in HitsFrom(n, l, hd, fill) || k == hd + f
    {
      if f <= k < fill {
        SplitUnique(k, l, m, k - f);
      }
    }
  }

  lemma KeepsApart(t: seq<Code>, u: seq<Code>, next: nat, ks: set<nat>, e: Code, base: nat, n: nat, ks': set<nat>,
                   e': Code)
    requires Replicated(t, u, next, ks, e) && Filled(t, base, ks', e')
    requires base + n <= next && forall k :: k in ks' ==> k < n
    ensures Filled(u, base, ks', e')
  {
  }

  lemma KeepsTogether(t: seq<Code>, u: seq<Code>, next: nat, ks: set<nat>, e: Code, ks': set<nat>, e': Code)
    requires Replicated(t, u, next, ks, e) && Filled(t, next, ks', e')
    requires ks !! ks'
    ensures Filled(u, next, ks', e')
  {
  }

  /** Codes of different symbols never share a table index. */
  lemma RootDistinct(lens: seq<nat>, root: nat, s: nat, o: nat)
    requires ValidLengths(lens) && NotOversubscribed(lens)
    requires s < |lens| && o < |lens| && o != s && lens[s] != 0 && lens[o] != 0
    ensures Hits(root, lens[s], Word(lens, s)) !! Hits(root, lens[o], Word(lens, o))
  {
    forall k | k in Hits(root, lens[s], Word(lens, s))
      ensures k !in Hits(root, lens[o], Word(lens, o))
    {
      if Matches(lens, o, k) {
        PrefixFree(lens, s, o, k);
      }
    }
  }

  /** A window made of a root index and a sub-table index. */
  lemma MakeWindow(k: nat, root: nat, low: nat) returns (h: nat)
    requires low < Pow2(root)
    ensures Shr(h, root) == k && Low(h, root) == low
  {
    h := k * Pow2(root) + low;
    SplitUnique(h, root, k, low);
  }

  lemma JoinWindow(lens: seq<nat>, s: nat, root: nat, h: nat)
    requires s < |lens| && lens[s] > root
    requires Low(h, root) == Low(Word(lens, s), root)
    requires Low(Shr(h, root), lens[s] - root) == Shr(Word(lens, s), root)
    ensures Matches(lens, s, h)
  {
    LowSplit(h, root, lens[s] - root);
    assert root + (lens[s] - root) == lens[s];
    Split(Word(lens, s), root);
  }

  lemma SubDistinct(lens: seq<nat>, root: nat, n: nat, s: nat, o: nat)
    requires ValidLengths(lens) && NotOversubscribed(lens)
    requires s < |lens| && o < |lens| && o != s && lens[s] > root && lens[o] > root
    requires Low(Word(lens, s), root) == Low(Word(lens, o), root)
    ensures Hits(n, lens[s] - root, Shr(Word(lens, s), root)) !! Hits(n, lens[o] - root, Shr(Word(lens, o), root))
  {
    var ks, ks' := Hits(n, lens[s] - root, Shr(Word(lens, s), root)), Hits(n, lens[o] - root, Shr(Word(lens, o), root));
    forall k | k in ks
      ensures k !in ks'
    {
      if Low(k, lens[o] - root) == Shr(Word(lens, o), root) {
        var h := MakeWindow(k, root, Low(Word(lens, s), root));
        JoinWindow(lens, s, root, h);
        JoinWindow(lens, o, root, h);
        PrefixFree(lens, s, o, h);
      }
    }
  }

  /** Writing the entries of a short code disturbs no other. */
  lemma WriteRootKeeps(t: seq<Code>, u: seq<Code>, root: nat, syms: seq<Sym>, lens: seq<nat>, s: nat, o: nat, e: Code)
    requires |lens| <= |syms| && ValidLengths(lens) && NotOversubscribed(lens)
    requires s < |lens| && 1 <= lens[s]
    requires Replicated(t, u, 0, Hits(root, lens[s], Word(lens, s)), e)
    requires o != s && o < |lens| && lens[o] != 0 && InRoot(t, root, syms, lens, o)
    ensures InRoot(u, root, syms, lens, o)
  {
    RootDistinct(lens, root, s, o);
    KeepsTogether(t, u, 0, Hits(root, lens[s], Word(lens, s)), e,
                  Hits(root, lens[o], Word(lens, o)), Entry(syms[o], lens[o]));
  }

  lemma WriteSubKeepsRoot(t: seq<Code>, u: seq<Code>, root: nat, syms: seq<Sym>, lens: seq<nat>, next: nat,
                          ks: set<nat>, e: Code, o: nat)
    requires |lens| <= |syms| && Pow2(root) <= next
    requires Replicated(t, u, next, ks, e)
    requires InRoot(t, root, syms, lens, o)
    ensures InRoot(u, root, syms, lens, o)
  {
    KeepsApart(t, u, next, ks, e, 0, Pow2(root), Hits(root, lens[o], Word(lens, o)), Entry(syms[o], lens[o]));
  }

  lemma WriteSubKeepsOlder(t: seq<Code>, u: seq<Code>, root: nat, syms: seq<Sym>, lens: seq<nat>, next: nat,
                           ks: set<nat>, e: Code, o: nat)
    requires |lens| <= |syms| && Pow2(root) <= next
    requires Replicated(t, u, next, ks, e)
    requires InSub(t, root, syms, lens, o, next)
    ensures InSub(u, root, syms, lens, o, next)
  {
    var x := t[Low(Word(lens, o), root)];
    assert u[Low(Word(lens, o), root)] == x;
    KeepsApart(t, u, next, ks, e, x.val, Pow2(x.op), Hits(x.op, lens[o] - root, Shr(Word(lens, o), root)),
               Entry(syms[o], lens[o] - root));
  }

  lemma WriteSubKeepsSame(t: seq<Code>, u: seq<Code>, root: nat, syms: seq<Sym>, lens: seq<nat>, s: nat, next: nat,
                          curr: nat, e: Code, o: nat)
    requires |lens| <= |syms| && ValidLengths(lens) && NotOversubscribed(lens)
    requires Pow2(root) <= next
    requires s < |lens| && root < lens[s]
    requires Replicated(t, u, next, Hits(curr, lens[s] - root, Shr(Word(lens, s), root)), e)
    requires o != s && o < |lens| && InSub(t, root, syms, lens, o, |t|)
    requires Low(Word(lens, o), root) == Low(Word(lens, s), root)
    requires var x := t[Low(Word(lens, s), root)]; x.op == curr && x.val == next
    ensures InSub(u, root, syms, lens, o, |u|)
  {
    SubDistinct(lens, root, curr, s, o);
    assert u[Low(Word(lens, o), root)] == t[Low(Word(lens, o), root)];
    KeepsTogether(t, u, next, Hits(curr, lens[s] - root, Shr(Word(lens, s), root)), e,
                  Hits(curr, lens[o] - root, Shr(Word(lens, o), root)), Entry(syms[o], lens[o] - root));
  }

  /** u extends t and differs from it at index low only. */
  ghost predicate Linked(t: seq<Code>, u: seq<Code>, low: nat, e: Code) {
    low < |t| <= |u| && u[low] == e && forall j :: 0 <= j < |t| && j != low ==> u[j] == t[j]
  }

  /** Pointing a root entry to a new sub-table disturbs no code placed before. */
  lemma LinkKeepsRoot(t: seq<Code>, u: seq<Code>, root: nat, syms: seq<Sym>, lens: seq<nat>, s: nat, o: nat, e: Code)
    requires |lens| <= |syms| && NotOversubscribed(lens) && ValidLengths(lens)
    requires s < |lens| && root < lens[s]
    requires Linked(t, u, Low(Word(lens, s), root), e)
    requires o < |lens| && lens[o] != 0 && InRoot(t, root, syms, lens, o)
    ensures InRoot(u, root, syms, lens, o)
  {
    var w := Word(lens, s);
    if Low(Low(w, root), lens[o]) == Word(lens, o) {
      LowLow(w, lens[o], root);
      LowIdentity(w, lens[s]);
      PrefixFree(lens, s, o, w);
    }
  }

  lemma LinkKeepsSub(t: seq<Code>, u: seq<Code>, root: nat, syms: seq<Sym>, lens: seq<nat>, o: nat, low: nat, e: Code,
                     limit: nat)
    requires |lens| <= |syms|
    requires low < Pow2(root) && Linked(t, u, low, e)
    requires InSub(t, root, syms, lens, o, limit) && Low(Word(lens, o), root) != low
    ensures InSub(u, root, syms, lens, o, limit)
  {
    var x := t[Low(Word(lens, o), root)];
    assert u[Low(Word(lens, o), root)] == x;
    LinkKeepsFilled(t, u, low, e, x.val, Hits(x.op, lens[o] - root, Shr(Word(lens, o), root)),
      Entry(syms[o], lens[o] - root));
  }

  lemma LinkKeepsFilled(t: seq<Code>, u: seq<Code>, low: nat, e: Code, base: nat, ks: set<nat>, e': Code)
    requires Linked(t, u, low, e) && Filled(t, base, ks, e') && low < base
    ensures Filled(u, base, ks, e')
  {
  }

  // ------------------------------------------------------------ the main loop

  /** Where the code of s branches off the root table. */
  lemma WordLow(lens: seq<nat>, s: nat, root: nat)
    requires s < |lens| && root <= lens[s]
    ensures Low(Word(lens, s), root) == Rev(root, Shr(CodeOf(lens, s), lens[s] - root))
  {
    RevLowEnd(lens[s], CodeOf(lens, s), root);
  }

  /** Every code before (len, r) is in place; the sub-table for low is the last one. */
  ghost predicate AllPlaced(t: seq<Code>, root: nat, syms: seq<Sym>, lens: seq<nat>, len: nat, r: nat, next: nat,
                            curr: nat, low: int)
    requires |lens| <= |syms|
  {
    forall s: nat {:trigger Done(lens, s, len, r)} :: Done(lens, s, len, r) ==>
      PlacedOne(t, root, syms, lens, s, next, curr, low)
  }

  ghost predicate PlacedOne(t: seq<Code>, root: nat, syms: seq<Sym>, lens: seq<nat>, s: nat, next: nat, curr: nat,
                            low: int)
    requires s < |lens| <= |syms|
  {
    if lens[s] <= root then InRoot(t, root, syms, lens, s)
    else if Low(Word(lens, s), root) != low then InSub(t, root, syms, lens, s, next)
    else InSub(t, root, syms, lens, s, |t|) && t[Low(Word(lens, s), root)] == Code(curr, root, next)
  }

  /** Codes placed so far branch off the root no later than block b. */
  ghost predicate BlocksUpTo(root: nat, lens: seq<nat>, len: nat, r: nat, b: nat) {
    forall s: nat {:trigger Done(lens, s, len, r)} :: Done(lens, s, len, r) && lens[s] > root ==>
      Shr(CodeOf(lens, s), lens[s] - root) <= b
  }

  lemma RankUnique(lens: seq<nat>, s: nat, o: nat)
    requires s < |lens| && o < |lens| && lens[s] == lens[o]
    requires Count(lens[..s], lens[s]) == Count(lens[..o], lens[o])
    ensures s == o
  {
    if s < o {
      CountMono(lens, s, o, lens[s]);
    } else if o < s {
      CountMono(lens, o, s, lens[s]);
    }
  }

  /** s is the code of length len and rank r. */
  ghost predicate IsNth(lens: seq<nat>, s: nat, len: nat, r: nat) {
    s < |lens| && len != 0 && lens[s] == len && Count(lens[..s], len) == r
  }

  lemma DoneStep(lens: seq<nat>, s: nat, len: nat, r: nat, o: nat)
    requires IsNth(lens, s, len, r)
    ensures Done(lens, o, len, r + 1) <==> Done(lens, o, len, r) || o == s
    ensures !Done(lens, s, len, r)
  {
    if o < |lens| && lens[o] == len && Count(lens[..o], len) == r {
      RankUnique(lens, s, o);
    }
  }

  lemma PlaceRoot(t: seq<Code>, u: seq<Code>, root: nat, syms: seq<Sym>, lens: seq<nat>, s: nat, len: nat, r: nat,
                  curr: nat, low: int)
    requires |lens| <= |syms| && ValidLengths(lens) && NotOversubscribed(lens)
    requires IsNth(lens, s, len, r) && len <= root && Pow2(root) <= |t|
    requires AllPlaced(t, root, syms, lens, len, r, 0, curr, low)
    requires Replicated(t, u, 0, Hits(root, len, Word(lens, s)), Entry(syms[s], len))
    ensures AllPlaced(u, root, syms, lens, len, r + 1, 0, curr, low)
  {
    forall o: nat {:trigger Done(lens, o, len, r + 1)} | Done(lens, o, len, r + 1)
      ensures PlacedOne(u, root, syms, lens, o, 0, curr, low)
    {
      DoneStep(lens, s, len, r, o);
      if o != s {
        WriteRootKeeps(t, u, root, syms, lens, s, o, Entry(syms[s], len));
      }
    }
  }

  lemma PlaceSubNew(t: seq<Code>, u: seq<Code>, root: nat, syms: seq<Sym>, lens: seq<nat>, s: nat, next: nat,
                    curr: nat, low: nat)
    requires |lens| <= |syms| && s < |lens| && root < lens[s] <= root + curr && 1 <= curr < 16
    requires Pow2(root) <= next && next + Pow2(curr) == |t|
    requires Low(Word(lens, s), root) == low && t[low] == Code(curr, root, next)
    requires Replicated(t, u, next, Hits(curr, lens[s] - root, Shr(Word(lens, s), root)),
      Entry(syms[s], lens[s] - root))
    ensures u[low] == t[low]
    ensures PlacedOne(u, root, syms, lens, s, next, curr, low)
  {
    assert u[low] == t[low];
    assert Filled(u, next, Hits(curr, lens[s] - root, Shr(Word(lens, s), root)), Entry(syms[s], lens[s] - root));
  }

  lemma PlaceSubOld(t: seq<Code>, u: seq<Code>, root: nat, syms: seq<Sym>, lens: seq<nat>, s: nat, next: nat,
                    curr: nat, low: nat, e: Code, o: nat)
    requires |lens| <= |syms| && ValidLengths(lens) && NotOversubscribed(lens)
    requires s < |lens| && root < lens[s] && Pow2(root) <= next && next <= |t|
    requires Low(Word(lens, s), root) == low && t[low] == Code(curr, root, next)
    requires o != s && o < |lens| && lens[o] != 0 && PlacedOne(t, root, syms, lens, o, next, curr, low)
    requires Replicated(t, u, next, Hits(curr, lens[s] - root, Shr(Word(lens, s), root)), e)
    ensures PlacedOne(u, root, syms, lens, o, next, curr, low)
  {
    var ks := Hits(curr, lens[s] - root, Shr(Word(lens, s), root));
    if lens[o] <= root {
      WriteSubKeepsRoot(t, u, root, syms, lens, next, ks, e, o);
    } else if Low(Word(lens, o), root) != low {
      WriteSubKeepsOlder(t, u, root, syms, lens, next, ks, e, o);
    } else {
      WriteSubKeepsSame(t, u, root, syms, lens, s, next, curr, e, o);
      assert u[low] == t[low];
    }
  }

  lemma PlaceSub(t: seq<Code>, u: seq<Code>, root: nat, syms: seq<Sym>, lens: seq<nat>, s: nat, len: nat, r: nat,
                 next: nat, curr: nat, low: nat)
    requires |lens| <= |syms| && ValidLengths(lens) && NotOversubscribed(lens)
    requires IsNth(lens, s, len, r) && root < len <= root + curr && 1 <= curr < 16
    requires Pow2(root) <= next && next + Pow2(curr) == |t|
    requires Low(Word(lens, s), root) == low && t[low] == Code(curr, root, next)
    requires AllPlaced(t, root, syms, lens, len, r, next, curr, low)
    requires Replicated(t, u, next, Hits(curr, len - root, Shr(Word(lens, s), root)), Entry(syms[s], len - root))
    ensures u[low] == t[low]
    ensures AllPlaced(u, root, syms, lens, len, r + 1, next, curr, low)
  {
    hide Low, Shr, Pow2, Word, Count, SubAt, Filled, Hits;
    PlaceSubNew(t, u, root, syms, lens, s, next, curr, low);
    forall o: nat {:trigger Done(lens, o, len, r + 1)} | Done(lens, o, len, r + 1)
      ensures PlacedOne(u, root, syms, lens, o, next, curr, low)
    {
      DoneStep(lens, s, len, r, o);
      if o != s {
        PlaceSubOld(t, u, root, syms, lens, s, next, curr, low, Entry(syms[s], len - root), o);
      }
    }
  }

  /** A new sub-table for the block of s, which no code placed so far is in. */
  lemma PlaceLink(t: seq<Code>, u: seq<Code>, root: nat, syms: seq<Sym>, lens: seq<nat>, s: nat, len: nat, r: nat,
                  next: nat, curr: nat, low: int, low': nat, e: Code, curr': nat, b: nat)
    requires |lens| <= |syms| && ValidLengths(lens) && NotOversubscribed(lens)
    requires s < |lens| && lens[s] == len && root < len && Low(Word(lens, s), root) == low'
    requires Linked(t, u, low', e)
    requires next <= |t|
    requires AllPlaced(t, root, syms, lens, len, r, next, curr, low)
    requires BlocksUpTo(root, lens, len, r, b) && b < Shr(CodeOf(lens, s), len - root)
    ensures AllPlaced(u, root, syms, lens, len, r, |t|, curr', low')
  {
    forall o: nat {:trigger Done(lens, o, len, r)} | Done(lens, o, len, r)
      ensures PlacedOne(u, root, syms, lens, o, |t|, curr', low')
    {
      if lens[o] <= root {
        LinkKeepsRoot(t, u, root, syms, lens, s, o, e);
      } else {
        BlockApart(lens, s, o, root);
        LinkKeepsSub(t, u, root, syms, lens, o, low', e, |t|);
      }
    }
  }

  lemma BlockFits(lens: seq<nat>, s: nat, root: nat)
    requires NotOversubscribed(lens)
    requires s < |lens| && root < lens[s] <= MAXBITS
    ensures Shr(CodeOf(lens, s), lens[s] - root) < Pow2(root)
  {
    CodeFits(lens, s);
    Pow2Sum(root, lens[s] - root);
    assert root + (lens[s] - root) == lens[s];
    ShrLess(CodeOf(lens, s), lens[s] - root, Pow2(root));
  }

  lemma BlockApart(lens: seq<nat>, s: nat, o: nat, root: nat)
    requires NotOversubscribed(lens) && ValidLengths(lens)
    requires s < |lens| && o < |lens| && root < lens[s] && root < lens[o]
    requires Shr(CodeOf(lens, s), lens[s] - root) != Shr(CodeOf(lens, o), lens[o] - root)
    ensures Low(Word(lens, s), root) != Low(Word(lens, o), root)
  {
    WordLow(lens, s, root);
    WordLow(lens, o, root);
    BlockFits(lens, s, root);
    BlockFits(lens, o, root);
    if Low(Word(lens, s), root) == Low(Word(lens, o), root) {
      RevInjective(root, Shr(CodeOf(lens, s), lens[s] - root), Shr(CodeOf(lens, o), lens[o] - root));
    }
  }

  // ------------------------------------------------ from one code to the next

  lemma {:induction false} OffJump(lens: seq<nat>, a: nat, b: nat)
    requires 1 <= a <= b && forall l :: a <= l < b ==> Count(lens, l) == 0
    ensures Off(lens, b) == Off(lens, a)
    decreases b
  {
    if a < b {
      OffJump(lens, a, b - 1);
    }
  }

  /** The next length in use. */
  lemma NextLength(lens: seq<nat>, len: nat, max: nat) returns (len': nat)
    requires 1 <= len < max && Count(lens, max) != 0
    ensures len < len' <= max && Count(lens, len') != 0
    ensures forall l :: len < l < len' ==> Count(lens, l) == 0
    ensures Off(lens, len') == Off(lens, len) + Count(lens, len)
    ensures FirstCode(lens, len') == Used(lens, len) * Pow2(len' - len)
  {
    len' := len + 1;
    while Count(lens, len') == 0
      invariant len < len' <= max
      invariant forall l :: len < l < len' ==> Count(lens, l) == 0
      decreases max - len'
    {
      len' := len' + 1;
    }
    OffJump(lens, len + 1, len');
    UsedJump(lens, len, len' - 1);
    FirstCodeUsed(lens, len');
    assert len' - len - 1 == len' - 1 - len;
    TimesDouble(Used(lens, len), Pow2(len' - 1 - len));
  }

  lemma NthCode(lens: seq<nat>, s: nat, len: nat, r: nat)
    requires IsNth(lens, s, len, r)
    ensures CodeOf(lens, s) == FirstCode(lens, len) + r
    ensures Word(lens, s) == Rev(len, FirstCode(lens, len) + r)
    ensures r < Count(lens, len)
  {
    RankBound(lens, s);
  }

  /** The code after the last one of its length, which is not all ones. */
  lemma JumpCode(lens: seq<nat>, len: nat, len': nat)
    requires NotOversubscribed(lens) && 1 <= len < len' <= MAXBITS && Count(lens, len') != 0
    requires FirstCode(lens, len') == Used(lens, len) * Pow2(len' - len)
    ensures Used(lens, len) < Pow2(len)
    ensures Rev(len', FirstCode(lens, len')) == Rev(len, Used(lens, len))
  {
    UsedFits(lens, len);
    UsedFits(lens, len');
    FirstCodeUsed(lens, len');
    Pow2Sum(len, len' - len);
    assert len + (len' - len) == len';
    if Used(lens, len) >= Pow2(len) {
      MulMono(Pow2(len), Used(lens, len), Pow2(len' - len));
    }
    SwapZeros(len, len', Used(lens, len));
  }

  lemma SwapZeros(len: nat, len': nat, u: nat)
    requires len <= len' && u < Pow2(len)
    ensures Rev(len', u * Pow2(len' - len)) == Rev(len, u)
  {
    RevShift(len', len, u);
  }

  lemma DoneJump(lens: seq<nat>, len: nat, len': nat, o: nat)
    requires 1 <= len < len' && forall l :: len < l < len' ==> Count(lens, l) == 0
    ensures Done(lens, o, len', 0) <==> Done(lens, o, len, Count(lens, len))
  {
    if o < |lens| && lens[o] != 0 {
      RankBound(lens, o);
    }
  }

  /** The block of the next code: the same one, or a new one entered at its start. */
  lemma NextBlock(c: nat, len: nat, len': nat, root: nat)
    requires root < len' && len <= len'
    ensures var c' := (c + 1) * Pow2(len' - len);
            NewOrSameBlock(c, len, c', len', root, Shr(c', len' - root))
  {
    var c' := (c + 1) * Pow2(len' - len);
    if root < len {
      var l := len - root;
      Split(c, l);
      Pow2Sum(l, len' - len);
      assert l + (len' - len) == len' - root;
      SplitUnique(c', len' - len, c + 1, 0);
      ShrShr(c', len' - len, l);
      assert Shr(c', len' - root) == Shr(c + 1, l);
      if Low(c, l) + 1 < Pow2(l) {
        SplitUnique(c + 1, l, Shr(c, l), Low(c, l) + 1);
      } else {
        Carry(Shr(c, l), Pow2(l));
        SplitUnique(c + 1, l, Shr(c, l) + 1, 0);
        MulAssoc(Shr(c, l) + 1, Pow2(l), Pow2(len' - len));
      }
    } else {
      Pow2Sum(root - len, len' - root);
      assert root - len + (len' - root) == len' - len;
      var b := (c + 1) * Pow2(root - len);
      MulAssoc(c + 1, Pow2(root - len), Pow2(len' - root));
      SplitUnique(c', len' - root, b, 0);
      MulMono(1, c + 1, Pow2(root - len));
    }
  }

  lemma Carry(q: nat, p: nat)
    ensures q * p + p == (q + 1) * p
  {
  }

  // ----------------------------------------------------------- sub-table size

  /** A sub-table of 2^curr entries holds every code of block b. */
  ghost predicate Sized(lens: seq<nat>, root: nat, curr: nat, b: nat, max: nat) {
    root + curr == max || Used(lens, root + curr) >= (b + 1) * Pow2(curr)
  }

  lemma SizedFits(lens: seq<nat>, root: nat, curr: nat, b: nat, max: nat, len: nat, r: nat)
    requires Sized(lens, root, curr, b, max) && root < len <= max
    requires Shr(FirstCode(lens, len) + r, len - root) == b
    ensures len <= root + curr
  {
    if len > root + curr {
      var p := Pow2(len - 1 - (root + curr));
      UsedGrows(lens, root + curr, len - 1);
      FirstCodeUsed(lens, len);
      Pow2Sum(curr, len - 1 - (root + curr));
      assert curr + (len - 1 - (root + curr)) == len - root - 1;
      MulMono((b + 1) * Pow2(curr), Used(lens, root + curr), p);
      MulAssoc(b + 1, Pow2(curr), p);
      TimesDouble(b + 1, Pow2(len - root - 1));
      ShrLess(FirstCode(lens, len) + r, len - root, b + 1);
    }
  }

  /** What the counts are when the codes before (len, r) have been entered. */
  ghost predicate CountsLeft(count: seq<nat>, lens: seq<nat>, len: nat, r: nat, max: nat) {
    |count| == MAXBITS + 1 && max <= MAXBITS &&
    forall l {:trigger Count(lens, l)} :: len <= l <= max ==> count[l] == Count(lens, l) - (if l == len then r else 0)
  }

  /** Look ahead in the counts for the size of the sub-table that starts at (len, r). */
  method SubTableBits(ghost lens: seq<nat>, count: array<nat>, len: nat, root: nat, max: nat, ghost r: nat,
                      ghost b: nat)
    returns (curr: nat)
    requires root < len <= max <= MAXBITS && count.Length == MAXBITS + 1
    requires r <= Count(lens, len) && CountsLeft(count[..], lens, len, r, max)
    requires FirstCode(lens, len) + r == b * Pow2(len - root)
    ensures len - root <= curr && root + curr <= max
    ensures Sized(lens, root, curr, b, max) && curr == SubBits(lens, root, max, b, 1)
  {
    curr := len - root;
    var left: int := Pow2(curr);
    FirstCodeUsed(lens, len);
    Carry(b, Pow2(curr));
    SubBitsFrom(lens, root, max, b, 1, curr);
    while curr + root < max
      invariant SubBits(lens, root, max, b, 1) == SubBits(lens, root, max, b, curr)
      invariant len - root <= curr && root + curr <= max
      invariant left == (b + 1) * Pow2(curr) - 2 * Used(lens, root + curr - 1) - (if root + curr == len then r else 0)
    {
      assert Count(lens, curr + root) >= 0;
      left := left - count[curr + root];
      assert left == (b + 1) * Pow2(curr) - Used(lens, root + curr);
      if left <= 0 { break; }
      TimesDouble(b + 1, Pow2(curr));
      curr := curr + 1;
      left := left * 2;
    }
  }

  // -------------------------------------------------------- the whole builder

  /** Between two codes: everything before (len, r) placed, tables laid out. */
  ghost predicate LoopInv(t: seq<Code>, root: nat, syms: seq<Sym>, lens: seq<nat>, max: nat, len: nat, r: nat,
                          next: nat, curr: nat, low: int, b: nat)
    requires |lens| <= |syms|
  {
    && 1 <= root <= max <= MAXBITS && 1 <= len <= max && r < Count(lens, len)
    && AllPlaced(t, root, syms, lens, len, r, next, curr, low)
    && if len <= root then next == 0 && curr == root && low == -1 && |t| == Pow2(root) && b == 0
       else InSubTables(t, root, lens, max, len, r, next, curr, low, b)
  }

  ghost predicate InSubTables(t: seq<Code>, root: nat, lens: seq<nat>, max: nat, len: nat, r: nat, next: nat,
                              curr: nat, low: int, b: nat)
    requires root < len
  {
    && b == Shr(FirstCode(lens, len) + r, len - root) && low == Rev(root, b)
    && Pow2(root) <= next && next + Pow2(curr) == |t|
    && t[low] == Code(curr, root, next)
    && 1 <= curr && root + curr <= max && Sized(lens, root, curr, b, max)
    && BlocksUpTo(root, lens, len, r, b)
  }

  /** inflate_table's choice of op and val for a symbol. */
  method MakeEntry(ctype: CodeType, sym: nat, bits: nat) returns (here: Code)
    requires sym < MaxSymbols(ctype)
    ensures here == Entry(SymOf(ctype, sym), bits)
  {
    var base, extra, match0;
    match ctype {
      case CODES => base, extra, match0 := [], [], 20;
      case LENS => base, extra, match0 := LBASE, LEXT, 257;
      case DISTS => base, extra, match0 := DBASE, DEXT, 0;
    }
    if sym + 1 < match0 {
      here := Code(0, bits, sym);
    } else if sym >= match0 {
      here := Code(extra[sym - match0], bits, base[sym - match0]);
    } else {
      here := Code(END_OF_BLOCK, bits, 0);
    }
  }

  /** The code (len, r) enters the root table. */
  method EnterShort(table: array<Code>, start: nat, ghost used: nat, root: nat, ghost syms: seq<Sym>,
                    ghost lens: seq<nat>, ghost s: nat, len: nat, ghost r: nat, huff: nat, here: Code)
    requires |lens| <= |syms| && ValidLengths(lens) && NotOversubscribed(lens)
    requires start + used <= table.Length && used == Pow2(root) && len <= root
    requires AllPlaced(table[start..start + used], root, syms, lens, len, r, 0, root, -1)
    requires IsNth(lens, s, len, r) && huff == Word(lens, s) && here == Entry(syms[s], len)
    modifies table
    ensures table[..start] == old(table[..start])
    ensures table[start + used..] == old(table[start + used..])
    ensures AllPlaced(table[start..start + used], root, syms, lens, len, r + 1, 0, root, -1)
  {
    ghost var t := table[start..start + used];
    Replicate(table, start, 0, root, len, huff, here, used);
    PlaceRoot(t, table[start..start + used], root, syms, lens, s, len, r, root, -1);
  }

  /** The code (len, r) enters the current sub-table. */
  method EnterLong(table: array<Code>, start: nat, ghost used: nat, root: nat, ghost syms: seq<Sym>,
                   ghost lens: seq<nat>, ghost s: nat, len: nat, ghost r: nat, huff: nat, next: nat, curr: nat,
                   ghost low: nat, here: Code)
    requires |lens| <= |syms| && ValidLengths(lens) && NotOversubscribed(lens)
    requires start + used <= table.Length && 1 <= curr < 16 && root < len <= root + curr
    requires Pow2(root) <= next && next + Pow2(curr) == used
    requires IsNth(lens, s, len, r) && huff == Word(lens, s) && here == Entry(syms[s], len - root)
    requires Low(huff, root) == low && table[start..start + used][low] == Code(curr, root, next)
    requires AllPlaced(table[start..start + used], root, syms, lens, len, r, next, curr, low)
    modifies table
    ensures table[..start] == old(table[..start])
    ensures table[start + used..] == old(table[start + used..])
    ensures AllPlaced(table[start..start + used], root, syms, lens, len, r + 1, next, curr, low)
    ensures table[start..start + used][low] == Code(curr, root, next)
  {
    ghost var t := table[start..start + used];
    WordHigh(lens, s, root);
    Replicate(table, start, next, curr, len - root, Shr(huff, root), here, used);
    PlaceSub(t, table[start..start + used], root, syms, lens, s, len, r, next, curr, low);
  }

  lemma BlocksStep(root: nat, lens: seq<nat>, s: nat, len: nat, r: nat, b: nat)
    requires IsNth(lens, s, len, r) && root < len
    requires BlocksUpTo(root, lens, len, r, b) && Shr(CodeOf(lens, s), len - root) <= b
    ensures BlocksUpTo(root, lens, len, r + 1, b)
  {
    forall o: nat {:trigger Done(lens, o, len, r + 1)} | Done(lens, o, len, r + 1) && lens[o] > root
      ensures Shr(CodeOf(lens, o), lens[o] - root) <= b
    {
      DoneStep(lens, s, len, r, o);
    }
  }

  lemma WordHigh(lens: seq<nat>, s: nat, root: nat)
    requires s < |lens| && root < lens[s]
    ensures Shr(Word(lens, s), root) < Pow2(lens[s] - root)
  {
    Pow2Sum(lens[s] - root, root);
    assert lens[s] - root + root == lens[s];
    ShrLess(Word(lens, s), root, Pow2(lens[s] - root));
  }

  /** The sorted list yields the codes in order. */
  lemma WorkAt(work: seq<nat>, lens: seq<nat>, len: nat, r: nat)
    requires Sorted(work, lens, |lens|) && len != 0 && r < Count(lens, len)
    ensures Off(lens, len) + r < |work|
    ensures IsNth(lens, work[Off(lens, len) + r], len, r)
  {
    var s := SelectExists(lens, len, r);
    assert Place(lens, s) == Off(lens, len) + r;
  }

  /** The code after (len, r) when there is one. */
  lemma NextCode(lens: seq<nat>, len: nat, r: nat, max: nat) returns (len': nat, r': nat)
    requires NotOversubscribed(lens) && 1 <= len <= max <= MAXBITS && Count(lens, max) != 0
    requires r < Count(lens, len) && !(len == max && r + 1 == Count(lens, len))
    ensures if r + 1 < Count(lens, len) then len' == len && r' == r + 1 else len < len' <= max && r' == 0
    ensures r' < Count(lens, len') && forall l :: len < l < len' ==> Count(lens, l) == 0
    ensures Off(lens, len') + r' == Off(lens, len) + r + 1
    ensures var c := FirstCode(lens, len) + r;
            c + 1 < Pow2(len) &&
            FirstCode(lens, len') + r' == (c + 1) * Pow2(len' - len) &&
            Rev(len', FirstCode(lens, len') + r') == Rev(len, c + 1)
    ensures forall o: nat {:trigger Done(lens, o, len', r')} :: Done(lens, o, len', r') ==> Done(lens, o, len, r + 1)
  {
    hide Low, Shr, Rev, Used, Count, FirstCode, Off, Pow2;
    FirstCodeUsed(lens, len);
    UsedFits(lens, len);
    PowZero();
    if r + 1 < Count(lens, len) {
      len', r' := len, r + 1;
    } else {
      len' := NextLength(lens, len, max);
      r' := 0;
      JumpCode(lens, len, len');
      forall o: nat {:trigger Done(lens, o, len', 0)} | Done(lens, o, len', 0)
        ensures Done(lens, o, len, r + 1)
      {
        DoneJump(lens, len, len', o);
      }
    }
  }

  /** Point the root entry of the code (len, r) to a sub-table laid out after the used entries. */
  method LinkSubTable(table: array<Code>, start: nat, ghost used: nat, ghost used': nat, root: nat, ghost max: nat,
                      ghost len: nat, low: nat, next: nat, curr: nat, ghost next0: nat, ghost curr0: nat,
                      ghost low0: int, ghost syms: seq<Sym>, ghost lens: seq<nat>, ghost s: nat, ghost r: nat,
                      ghost b0: nat, ghost b: nat)
    requires |lens| <= |syms| && ValidLengths(lens) && NotOversubscribed(lens)
    requires 1 <= root < len <= max <= MAXBITS && IsNth(lens, s, len, r) && r < Count(lens, len)
    requires low == Low(Word(lens, s), root) && Pow2(root) <= used == next && next0 <= used
    requires used' == used + Pow2(curr) && start + used' <= table.Length
    requires 1 <= curr && root + curr <= max && Sized(lens, root, curr, b, max)
    requires AllPlaced(table[start..start + used], root, syms, lens, len, r, next0, curr0, low0)
    requires b == Shr(FirstCode(lens, len) + r, len - root)
    requires BlocksUpTo(root, lens, len, r, b0) && b0 < b
    modifies table
    ensures table[..start] == old(table[..start])
    ensures table[start + used..] == old(table[start + used..])
    ensures LoopInv(table[start..start + used'], root, syms, lens, max, len, r, next, curr, low, b)
  {
    hide Low, Shr, Word, Count, FirstCode, CodeOf, Sized, AllPlaced, BlocksUpTo, NotOversubscribed, ValidLengths;
    ghost var t := table[start..start + used];
    var e := Code(curr, root, next);
    table[start + low] := e;
    ghost var u := table[start..start + used'];
    assert Linked(t, u, low, e);
    NthCode(lens, s, len, r);
    PlaceLink(t, u, root, syms, lens, s, len, r, next0, curr0, low0, low, e, curr, b0);
    WordLow(lens, s, root);
    BlocksWeaken(root, lens, len, r, b0, b);
  }

  /** Size, check, and link the sub-table that the code (len, r) opens. */
  method OpenSubTable(ctype: CodeType, ghost lens: seq<nat>, count: array<nat>, table: array<Code>, start: nat,
                      used: nat, root: nat, max: nat, len: nat, huff: nat, next: nat, curr: nat, ghost low: int,
                      ghost syms: seq<Sym>, ghost s: nat, ghost r: nat, ghost b: nat, ghost b': nat)
    returns (ok: bool, used': nat, next': nat, curr': nat, low': nat)
    requires |lens| <= |syms| && ValidLengths(lens) && NotOversubscribed(lens) && ctype != CODES
    requires used <= Enough(ctype) && start + Enough(ctype) <= table.Length
    requires 1 <= root < len <= max <= MAXBITS && count.Length == MAXBITS + 1
    requires r < Count(lens, len) && IsNth(lens, s, len, r) && huff == Word(lens, s)
    requires CountsLeft(count[..], lens, len, r, max)
    requires Pow2(root) <= used && next + Pow2(curr) == used
    requires FirstCode(lens, len) + r == b' * Pow2(len - root) && b' == Shr(FirstCode(lens, len) + r, len - root)
    requires AllPlaced(table[start..start + used], root, syms, lens, len, r, next, curr, low)
    requires BlocksUpTo(root, lens, len, r, b) && b < b'
    modifies table
    ensures table[..start] == old(table[..start])
    ensures table[start + used..] == old(table[start + used..])
    ensures ok <==> used + Pow2(SubBits(lens, root, max, b', 1)) <= Enough(ctype)
    ensures ok ==> used' == used + Pow2(SubBits(lens, root, max, b', 1)) && low' == Low(huff, root)
    ensures ok ==> LoopInv(table[start..start + used'], root, syms, lens, max, len, r, next', curr', low', b')
  {
    next' := next + Pow2(curr);
    curr' := SubTableBits(lens, count, len, root, max, r, b');
    used' := used + Pow2(curr');
    low' := Low(huff, root);
    ok := !((ctype == LENS && used' > ENOUGH_LENS) || (ctype == DISTS && used' > ENOUGH_DISTS));
    if ok {
      LinkSubTable(table, start, used, used', root, max, len, low', next', curr', next, curr, low, syms, lens, s, r, b,
        b');
    }
  }

  lemma BlocksWeaken(root: nat, lens: seq<nat>, len: nat, r: nat, b: nat, b': nat)
    requires BlocksUpTo(root, lens, len, r, b) && b <= b'
    ensures BlocksUpTo(root, lens, len, r, b')
  {
  }

  lemma NoLongYet(root: nat, lens: seq<nat>, len: nat, r: nat, b: nat)
    requires len <= root
    ensures BlocksUpTo(root, lens, len, r, b)
  {
  }

  /** The sorted list gives the code (len, r), whose reversed value is huff. */
  lemma NthInWork(work: seq<nat>, lens: seq<nat>, len: nat, r: nat) returns (s: nat)
    requires Sorted(work, lens, |lens|) && len != 0 && r < Count(lens, len)
    ensures Off(lens, len) + r < |lens| && Off(lens, len) + r < |work| && work[Off(lens, len) + r] == s
    ensures IsNth(lens, s, len, r) && Word(lens, s) == Rev(len, FirstCode(lens, len) + r)
    ensures CodeOf(lens, s) == FirstCode(lens, len) + r
  {
    WorkAt(work, lens, len, r);
    s := work[Off(lens, len) + r];
    NthCode(lens, s, len, r);
    PlaceBound(lens, s);
  }

  /** First half of the loop body: replicate the entry of the code (len, r). */
  method EnterCode(table: array<Code>, start: nat, ghost used: nat, root: nat, ghost syms: seq<Sym>,
                   ghost lens: seq<nat>, ghost max: nat, ghost s: nat, len: nat, drop: nat, huff: nat, next: nat,
                   curr: nat, ghost low: int, ghost r: nat, ghost b: nat, here: Code)
    requires |lens| <= |syms| && ValidLengths(lens) && NotOversubscribed(lens)
    requires start + used <= table.Length
    requires LoopInv(table[start..start + used], root, syms, lens, max, len, r, next, curr, low, b)
    requires IsNth(lens, s, len, r) && huff == Word(lens, s)
    requires CodeOf(lens, s) == FirstCode(lens, len) + r
    requires drop == (if len <= root then 0 else root) && here == Entry(syms[s], len - drop)
    modifies table
    ensures table[..start] == old(table[..start])
    ensures table[start + used..] == old(table[start + used..])
    ensures AllPlaced(table[start..start + used], root, syms, lens, len, r + 1, next, curr, low)
    ensures BlocksUpTo(root, lens, len, r + 1, b)
    ensures len > root ==> table[start..start + used][low] == Code(curr, root, next)
  {
    if drop == 0 {
      EnterShort(table, start, used, root, syms, lens, s, len, r, huff, here);
      NoLongYet(root, lens, len, r + 1, b);
    } else {
      SizedFits(lens, root, curr, b, max, len, r);
      WordLow(lens, s, root);
      EnterLong(table, start, used, root, syms, lens, s, len, r, huff, next, curr, low, here);
      BlocksStep(root, lens, s, len, r, b);
    }
  }

  /** Once the last code is entered, every symbol in use is in the tables. */
  lemma AllDone(t: seq<Code>, root: nat, syms: seq<Sym>, lens: seq<nat>, max: nat, next: nat, curr: nat, low: int)
    requires |lens| <= |syms| && NoLinks(syms)
    requires AllPlaced(t, root, syms, lens, max, Count(lens, max), next, curr, low) && next <= |t|
    requires forall i :: 0 <= i < |lens| ==> lens[i] <= max
    ensures ResolvesAll(t, root, syms, lens)
  {
    forall s: nat, h: nat | Matches(lens, s, h)
      ensures Resolves(t, root, h, Entry(syms[s], lens[s]))
    {
      RankBound(lens, s);
      assert Done(lens, s, max, Count(lens, max));
      assert PlacedOne(t, root, syms, lens, s, next, curr, low);
      if lens[s] <= root {
        RootResolves(t, root, syms, lens, s, h);
      } else {
        SubResolves(t, root, syms, lens, s, h);
      }
    }
  }

  lemma StartLoop(lens: seq<nat>, min: nat)
    requires 1 <= min && forall l :: 1 <= l < min ==> Count(lens, l) == 0
    ensures FirstCode(lens, min) == 0 && Off(lens, min) == 0
    ensures Rev(min, 0) == 0
    ensures forall s: nat {:trigger Done(lens, s, min, 0)} :: !Done(lens, s, min, 0)
  {
    FirstCodeUsed(lens, min);
    UsedJump(lens, 0, min - 1);
    OffJump(lens, 1, min);
    LowZero(min);
    forall s: nat {:trigger Done(lens, s, min, 0)}
      ensures !Done(lens, s, min, 0)
    {
      if s < |lens| && 0 < lens[s] < min {
        RankBound(lens, s);
      }
    }
  }

  lemma PlacedJump(t: seq<Code>, root: nat, syms: seq<Sym>, lens: seq<nat>, len: nat, r: nat, len': nat, r': nat,
                   next: nat, curr: nat, low: int, b: nat)
    requires |lens| <= |syms|
    requires AllPlaced(t, root, syms, lens, len, r, next, curr, low) && BlocksUpTo(root, lens, len, r, b)
    requires forall o: nat {:trigger Done(lens, o, len', r')} :: Done(lens, o, len', r') ==> Done(lens, o, len, r)
    ensures AllPlaced(t, root, syms, lens, len', r', next, curr, low) && BlocksUpTo(root, lens, len', r', b)
  {
    forall o: nat {:trigger Done(lens, o, len', r')} | Done(lens, o, len', r')
      ensures PlacedOne(t, root, syms, lens, o, next, curr, low)
    {
      assert Done(lens, o, len, r);
    }
    forall o: nat {:trigger Done(lens, o, len', r')} | Done(lens, o, len', r') && lens[o] > root
      ensures Shr(CodeOf(lens, o), lens[o] - root) <= b
    {
      assert Done(lens, o, len, r);
    }
  }

  /** The masked code tells whether the next code is still in the current block. */
  lemma LowTellsBlock(lens: seq<nat>, s: nat, root: nat, b: nat)
    requires NotOversubscribed(lens) && s < |lens| && root < lens[s] <= MAXBITS && b < Pow2(root)
    ensures Low(Word(lens, s), root) == Rev(root, b) <==> Shr(CodeOf(lens, s), lens[s] - root) == b
  {
    WordLow(lens, s, root);
    BlockFits(lens, s, root);
    if Low(Word(lens, s), root) == Rev(root, b) {
      RevInjective(root, Shr(CodeOf(lens, s), lens[s] - root), b);
    }
  }

  /** The code after (len, r): its symbol and its reversed value. */
  lemma NextEntry(lens: seq<nat>, work: seq<nat>, len: nat, r: nat, max: nat)
    returns (len': nat, r': nat, s: nat)
    requires ValidLengths(lens) && NotOversubscribed(lens) && Sorted(work, lens, |lens|)
    requires 1 <= len <= max <= MAXBITS && Count(lens, max) != 0
    requires r < Count(lens, len) && !(len == max && r + 1 == Count(lens, len))
    ensures if r + 1 < Count(lens, len) then len' == len && r' == r + 1 else len < len' <= max && r' == 0
    ensures r' < Count(lens, len') && forall l :: len < l < len' ==> Count(lens, l) == 0
    ensures Off(lens, len) + r + 1 == Off(lens, len') + r' < |work| && work[Off(lens, len') + r'] == s
    ensures s < |lens| && lens[s] == len' && len' <= max
    ensures IsNth(lens, s, len', r') && CodeOf(lens, s) == FirstCode(lens, len') + r'
    ensures CodeOf(lens, s) == (FirstCode(lens, len) + r + 1) * Pow2(len' - len)
    ensures BackInc(len, Rev(len, FirstCode(lens, len) + r)) == Rev(len', FirstCode(lens, len') + r') == Word(lens, s)
    ensures forall o: nat {:trigger Done(lens, o, len', r')} :: Done(lens, o, len', r') ==> Done(lens, o, len, r + 1)
  {
    hide Low, Shr, Rev, BackInc, Used, Count, FirstCode, CodeOf, Word, Off, NotOversubscribed, ValidLengths, Sorted;
    len', r' := NextCode(lens, len, r, max);
    RevNext(len, FirstCode(lens, len) + r);
    s := NthInWork(work, lens, len', r');
  }

  /** c' is in block b', either that of c or a new one that it opens. */
  ghost predicate NewOrSameBlock(c: nat, len: nat, c': nat, len': nat, root: nat, b': nat)
    requires root < len'
  {
    b' == Shr(c', len' - root) &&
    ((root < len && b' == Shr(c, len - root)) ||
     (c' == b' * Pow2(len' - root) && b' > (if root < len then Shr(c, len - root) else 0)))
  }

  /** The tables as the code before left them. */
  ghost predicate Between(t: seq<Code>, root: nat, lens: seq<nat>, max: nat, next: nat, curr: nat, drop: nat,
                          low: int, b: nat) {
    1 <= root <= max <= MAXBITS &&
    if drop == 0 then next == 0 && curr == root && low == -1 && |t| == Pow2(root) && b == 0
    else
      && drop == root && b < Pow2(root) && low == Rev(root, b)
      && Pow2(root) <= next && next + Pow2(curr) == |t|
      && t[low] == Code(curr, root, next)
      && 1 <= curr && root + curr <= max && Sized(lens, root, curr, b, max)
  }

  lemma SameTables(t: seq<Code>, root: nat, syms: seq<Sym>, lens: seq<nat>, max: nat, len: nat, r: nat, next: nat,
                   curr: nat, drop: nat, low: int, b: nat)
    requires |lens| <= |syms| && 1 <= len <= max && r < Count(lens, len)
    requires Between(t, root, lens, max, next, curr, drop, low, b)
    requires drop == if len <= root then 0 else root
    requires root < len ==> b == Shr(FirstCode(lens, len) + r, len - root)
    requires AllPlaced(t, root, syms, lens, len, r, next, curr, low) && BlocksUpTo(root, lens, len, r, b)
    ensures LoopInv(t, root, syms, lens, max, len, r, next, curr, low, b)
  {
  }

  /** Open the sub-table of the code (len, r) of symbol s unless it is the current one. */
  method EnterBlock(ctype: CodeType, ghost lens: seq<nat>, count: array<nat>, table: array<Code>, start: nat,
                    used: nat, root: nat, max: nat, len: nat, huff: nat, next: nat, curr: nat, drop: nat, low: int,
                    ghost syms: seq<Sym>, ghost s: nat, ghost r: nat, ghost b: nat, ghost b1: nat)
    returns (ok: bool, used': nat, next': nat, curr': nat, drop': nat, low': int, ghost b': nat)
    requires |lens| <= |syms| && ValidLengths(lens) && NotOversubscribed(lens) && (ctype == CODES ==> root == max)
    requires used <= Enough(ctype) && start + Enough(ctype) <= table.Length
    requires count.Length == MAXBITS + 1 && CountsLeft(count[..], lens, len, r, max)
    requires 1 <= len <= max && r < Count(lens, len)
    requires IsNth(lens, s, len, r) && CodeOf(lens, s) == FirstCode(lens, len) + r && huff == Word(lens, s)
    requires Between(table[start..start + used], root, lens, max, next, curr, drop, low, b)
    requires AllPlaced(table[start..start + used], root, syms, lens, len, r, next, curr, low)
    requires BlocksUpTo(root, lens, len, r, b) && (drop != 0 ==> drop == root < len)
    requires root < len ==> b1 == Shr(CodeOf(lens, s), len - root)
    requires root < len ==> (drop != 0 && b1 == b) || (CodeOf(lens, s) == b1 * Pow2(len - root) && b1 > b)
    requires used == Pow2(root) + SubSpace(lens, root, max, if drop == 0 then 0 else b + 1)
    requires drop == 0 ==> b == 0 && AllShort(root, lens, len, r)
    modifies table
    ensures table[..start] == old(table[..start])
    ensures table[start + used..] == old(table[start + used..])
    ensures !ok ==> ctype != CODES && Pow2(root) + SubSpace(lens, root, max, Pow2(root)) > Enough(ctype)
    ensures ok ==> used <= used' <= Enough(ctype)
    ensures ok ==> used' == Pow2(root) + SubSpace(lens, root, max, if len <= root then 0 else b' + 1)
    ensures ok ==> LoopInv(table[start..start + used'], root, syms, lens, max, len, r, next', curr', low', b')
    ensures ok ==> drop' == if len <= root then 0 else root
  {
    hide AllPlaced, BlocksUpTo, Sized, LoopInv, CountsLeft, NotOversubscribed, Low, Shr, Rev, Word, CodeOf, FirstCode;
    hide Count;
    hide SubSpace, SubBits, Pow2, AllShort, Done;
    if len > root && drop != 0 {
      LowTellsBlock(lens, s, root, b);
    }
    if len > root && Low(huff, root) != low {
      SpaceStep(lens, s, root, max, len, r, drop, b, b1);
      ok, used', next', curr', low' := OpenSubTable(ctype, lens, count, table, start, used, root, max, len, huff,
        next, curr, low, syms, s, r, b, b1);
      drop', b' := root, b1;
      return;
    } else {
      SameTables(table[start..start + used], root, syms, lens, max, len, r, next, curr, drop, low, b);
      return true, used, next, curr, drop, low, b;
    }
  }

  /** Codes from (len, r) on are in the block of (len, r) or later ones. */
  lemma LaterBlocks(lens: seq<nat>, s: nat, root: nat, len: nat, r: nat, o: nat)
    requires ValidLengths(lens) && NotOversubscribed(lens) && IsNth(lens, s, len, r) && root < len
    requires o < |lens| && lens[o] > root && !Done(lens, o, len, r)
    ensures Shr(CodeOf(lens, s), len - root) <= Shr(CodeOf(lens, o), lens[o] - root)
  {
    hide Count, Pow2, Shr, CodeOf, NotOversubscribed;
    if o != s {
      if lens[o] == len && o < s {
        CountMono(lens, o, s, len);
      }
      IntervalsOrdered(lens, s, o);
      ScaleShr(CodeOf(lens, s), CodeOf(lens, o), len - root, lens[o] - len);
      assert lens[o] - len + (len - root) == lens[o] - root;
    }
  }

  lemma ScaleShr(c: nat, d: nat, a: nat, e: nat)
    requires (c + 1) * Pow2(e) <= d
    ensures Shr(c, a) <= Shr(d, e + a)
  {
    ShrShr(d, e, a);
    ShrLess(d, e, c + 1);
    ShrMono(c, Shr(d, e), a);
  }

  ghost predicate AllShort(root: nat, lens: seq<nat>, len: nat, r: nat) {
    forall o: nat {:trigger Done(lens, o, len, r)} :: Done(lens, o, len, r) ==> lens[o] <= root
  }

  /** The blocks skipped on the way to a new one have no sub-table. */
  lemma SpaceStep(lens: seq<nat>, s: nat, root: nat, max: nat, len: nat, r: nat, drop: nat, b: nat, b1: nat)
    requires ValidLengths(lens) && NotOversubscribed(lens) && IsNth(lens, s, len, r) && root < len
    requires b1 == Shr(CodeOf(lens, s), len - root) && BlocksUpTo(root, lens, len, r, b)
    requires drop == 0 ==> b == 0 && AllShort(root, lens, len, r)
    requires drop != 0 ==> b < b1
    ensures b1 < Pow2(root)
    ensures var a := SubSpace(lens, root, max, if drop == 0 then 0 else b + 1);
            a + Pow2(SubBits(lens, root, max, b1, 1)) ==
              SubSpace(lens, root, max, b1 + 1) <= SubSpace(lens, root, max, Pow2(root))
  {
    hide Shr, CodeOf, Pow2, Count;
    var a := if drop == 0 then 0 else b + 1;
    BlockFits(lens, s, root);
    forall x: nat | a <= x < b1
      ensures !HasLong(lens, root, x)
    {
      forall o: nat {:trigger CodeOf(lens, o)} | o < |lens| && lens[o] > root
        ensures Shr(CodeOf(lens, o), lens[o] - root) != x
      {
        if !Done(lens, o, len, r) {
          LaterBlocks(lens, s, root, len, r, o);
        }
      }
    }
    SubSpaceSkip(lens, root, max, a, b1);
    assert HasLong(lens, root, b1) by { assert CodeOf(lens, s) >= 0; }
    SubSpaceMono(lens, root, max, b1 + 1, Pow2(root));
  }

  lemma BlockOfCode(lens: seq<nat>, len: nat, r: nat, root: nat)
    requires NotOversubscribed(lens) && root < len <= MAXBITS && r < Count(lens, len)
    ensures Shr(FirstCode(lens, len) + r, len - root) < Pow2(root)
  {
    var s := SelectExists(lens, len, r);
    BlockFits(lens, s, root);
  }

  lemma RevNext(len: nat, c: nat)
    requires c + 1 < Pow2(len)
    ensures BackInc(len, Rev(len, c)) == Rev(len, c + 1)
  {
    BackIncReverses(len, Rev(len, c));
    RevRev(len, c);
    LowIdentity(c, len);
    RevRev(len, BackInc(len, Rev(len, c)));
    LowIdentity(BackInc(len, Rev(len, c)), len);
  }

  lemma BetweenOf(t: seq<Code>, root: nat, syms: seq<Sym>, lens: seq<nat>, max: nat, len: nat, r: nat, next: nat,
                  curr: nat, drop: nat, low: int, b: nat)
    requires |lens| <= |syms| && NotOversubscribed(lens)
    requires LoopInv(t, root, syms, lens, max, len, r, next, curr, low, b)
    requires drop == if len <= root then 0 else root
    ensures r < Count(lens, len) && 1 <= len <= max <= MAXBITS && (drop != 0 ==> 0 <= low && b < Pow2(root))
    ensures Between(t, root, lens, max, next, curr, drop, low, b)
    ensures if root < len then b == Shr(FirstCode(lens, len) + r, len - root) else b == 0
  {
    if len > root {
      BlockOfCode(lens, len, r, root);
    }
  }

  lemma BetweenKept(t: seq<Code>, u: seq<Code>, root: nat, lens: seq<nat>, max: nat, next: nat, curr: nat, drop: nat,
                    low: int, b: nat)
    requires Between(t, root, lens, max, next, curr, drop, low, b)
    requires |u| == |t| && (drop != 0 && 0 <= low < |u| ==> u[low] == Code(curr, root, next))
    ensures Between(u, root, lens, max, next, curr, drop, low, b)
  {
  }

  /** First half of the loop body: the code at hand into the table. */
  method PlaceNext(ctype: CodeType, ghost lens: seq<nat>, count: array<nat>, work: array<nat>, table: array<Code>,
                   start: nat, ghost used: nat, root: nat, ghost max: nat, len: nat, huff0: nat, sym: nat, next: nat,
                   curr: nat, drop: nat, ghost low: int, ghost syms: seq<Sym>, ghost r: nat, ghost b: nat)
    returns (huff: nat)
    requires |lens| <= |syms| && IsSymbols(ctype, syms) && ValidLengths(lens) && NotOversubscribed(lens)
    requires count.Length == MAXBITS + 1 && count != work && Sorted(work[..], lens, |lens|)
    requires start + used <= table.Length && CountsLeft(count[..], lens, len, r, max)
    requires LoopInv(table[start..start + used], root, syms, lens, max, len, r, next, curr, low, b)
    requires huff0 == Rev(len, FirstCode(lens, len) + r) && sym == Off(lens, len) + r
    requires drop == if len <= root then 0 else root
    modifies table, count
    ensures table[..start] == old(table[..start]) && table[start + used..] == old(table[start + used..])
    ensures r < Count(lens, len) && 1 <= len <= max <= MAXBITS && (drop != 0 ==> 0 <= low && b < Pow2(root))
    ensures sym < |lens| && CountsLeft(count[..], lens, len, r + 1, max) && count[len] == Count(lens, len) - (r + 1)
    ensures AllPlaced(table[start..start + used], root, syms, lens, len, r + 1, next, curr, low)
    ensures BlocksUpTo(root, lens, len, r + 1, b)
    ensures Between(table[start..start + used], root, lens, max, next, curr, drop, low, b)
    ensures if root < len then b == Shr(FirstCode(lens, len) + r, len - root) else b == 0
    ensures huff == BackInc(len, Rev(len, FirstCode(lens, len) + r))
  {
    hide AllPlaced, BlocksUpTo, Sized, NotOversubscribed, Between, CountsLeft, Sorted, IsNth, Done, LoopInv;
    hide Low, Shr, Rev, BackInc, Word, CodeOf, FirstCode, Count, Off, Used, SymOf, Pow2, ValidLengths;
    ghost var t, was := table[start..start + used], count[..];
    BetweenOf(t, root, syms, lens, max, len, r, next, curr, drop, low, b);
    ghost var s0 := NthInWork(work[..], lens, len, r);
    var s := work[sym];
    var here := MakeEntry(ctype, s, len - drop);
    EnterCode(table, start, used, root, syms, lens, max, s, len, drop, huff0, next, curr, low, r, b, here);
    huff := IncrementBackwards(huff0, len);
    CountsStep(was, lens, len, r, max);
    count[len] := count[len] - 1;
    assert count[..] == was[len := was[len] - 1];
    BetweenKept(t, table[start..start + used], root, lens, max, next, curr, drop, low, b);
  }

  /** Second half of the loop body: on to the next code, opening its sub-table if
      it is the first code of a block. */
  method Advance(ctype: CodeType, lens: seq<nat>, count: array<nat>, work: array<nat>, table: array<Code>, start: nat,
                 used: nat, root: nat, max: nat, len: nat, huff: nat, sym: nat, next: nat, curr: nat, drop: nat,
                 low: int, ghost syms: seq<Sym>, ghost r: nat, ghost b: nat)
    returns (ok: bool, used': nat, len': nat, next': nat, curr': nat, drop': nat, low': int, ghost r': nat,
      ghost b': nat)
    requires |lens| <= |syms| && ValidLengths(lens) && NotOversubscribed(lens)
    requires count.Length == MAXBITS + 1 && count != work && Sorted(work[..], lens, |lens|)
    requires used <= Enough(ctype) && start + Enough(ctype) <= table.Length
    requires 1 <= root <= max <= MAXBITS && 1 <= len <= max && Count(lens, max) != 0 && (ctype == CODES ==> root == max)
    requires r < Count(lens, len) && !(len == max && r + 1 == Count(lens, len))
    requires huff == BackInc(len, Rev(len, FirstCode(lens, len) + r)) && sym == Off(lens, len) + r + 1
    requires CountsLeft(count[..], lens, len, r + 1, max)
    requires AllPlaced(table[start..start + used], root, syms, lens, len, r + 1, next, curr, low)
    requires BlocksUpTo(root, lens, len, r + 1, b)
    requires drop == if len <= root then 0 else root
    requires Between(table[start..start + used], root, lens, max, next, curr, drop, low, b)
    requires if root < len then b == Shr(FirstCode(lens, len) + r, len - root) else b == 0
    requires used == Pow2(root) + SubSpace(lens, root, max, if drop == 0 then 0 else b + 1)
    modifies table
    ensures table[..start] == old(table[..start])
    ensures table[start + used..] == old(table[start + used..])
    ensures !ok ==> ctype != CODES && Pow2(root) + SubSpace(lens, root, max, Pow2(root)) > Enough(ctype)
    ensures ok ==> used <= used' <= Enough(ctype)
    ensures ok ==> used' == Pow2(root) + SubSpace(lens, root, max, if len' <= root then 0 else b' + 1)
    ensures ok ==> LoopInv(table[start..start + used'], root, syms, lens, max, len', r', next', curr', low', b')
    ensures ok ==> huff == Rev(len', FirstCode(lens, len') + r') && sym == Off(lens, len') + r'
    ensures ok ==> drop' == if len' <= root then 0 else root
    ensures ok ==> CountsLeft(count[..], lens, len', r', max)
  {
    hide AllPlaced, BlocksUpTo, Sized, LoopInv, NotOversubscribed, Between, CountsLeft, Sorted, IsNth, Done;
    hide SubSpace, SubBits, AllShort;
    hide Low, Shr, Rev, BackInc, Word, CodeOf, FirstCode, Count, Off, Used, Pow2;
    ghost var len1, r1, s := NextEntry(lens, work[..], len, r, max);
    CountsNext(count[..], lens, len, r, len1, r1, max);
    len' := len;
    if count[len] == 0 {
      len' := lens[work[sym]];
    }
    r' := r1;
    PlacedJump(table[start..start + used], root, syms, lens, len, r + 1, len', r', next, curr, low, b);
    ShortSoFar(root, lens, len, r + 1, len', r');
    ghost var b1: nat := 0;
    if len' > root {
      b1 := Shr(CodeOf(lens, s), len' - root);
      NextBlock(FirstCode(lens, len) + r, len, len', root);
    }
    ok, used', next', curr', drop', low', b' :=
      EnterBlock(ctype, lens, count, table, start, used, root, max, len', huff, next, curr, drop, low, syms,
                 s, r', b, b1);
  }

  lemma ShortSoFar(root: nat, lens: seq<nat>, len: nat, r: nat, len': nat, r': nat)
    requires forall o: nat {:trigger Done(lens, o, len', r')} :: Done(lens, o, len', r') ==> Done(lens, o, len, r)
    ensures len <= root ==> AllShort(root, lens, len', r')
  {
  }

  lemma CountsNext(count: seq<nat>, lens: seq<nat>, len: nat, r: nat, len': nat, r': nat, max: nat)
    requires len <= max && r < Count(lens, len) && CountsLeft(count, lens, len, r + 1, max)
    requires if r + 1 < Count(lens, len) then len' == len && r' == r + 1 else len < len' <= max && r' == 0
    ensures len < |count| && (count[len] == 0 <==> r + 1 == Count(lens, len))
    ensures CountsLeft(count, lens, len', r', max)
  {
  }

  /** Build the tables for codes of min to max bits. */
  method FillTables(ctype: CodeType, lens: seq<nat>, count: array<nat>, work: array<nat>, table: array<Code>,
                    start: nat, root: nat, min: nat, max: nat, ghost syms: seq<Sym>)
    returns (ok: bool, used: nat, huff: nat, next: nat, drop: nat)
    requires |lens| <= |syms| && IsSymbols(ctype, syms) && NoLinks(syms)
    requires ValidLengths(lens) && NotOversubscribed(lens)
    requires count.Length == MAXBITS + 1 && count != work
    requires Sorted(work[..], lens, |lens|) && CountsLeft(count[..], lens, min, 0, max)
    requires 1 <= min <= root <= max <= MAXBITS && Count(lens, min) != 0 && Count(lens, max) != 0
    requires forall l :: 1 <= l < min ==> Count(lens, l) == 0
    requires forall i :: 0 <= i < |lens| ==> lens[i] <= max
    requires ctype == CODES ==> root == max && Pow2(root) <= Enough(CODES)
    requires start + Enough(ctype) <= table.Length
    modifies table, count
    ensures table[..start] == old(table[..start])
    ensures table[start + Enough(ctype)..] == old(table[start + Enough(ctype)..])
    ensures !ok ==> ctype != CODES
    ensures ok <==> Pow2(root) + SubSpace(lens, root, max, Pow2(root)) <= Enough(ctype)
    ensures ok ==> used == Pow2(root) + SubSpace(lens, root, max, Pow2(root))
    ensures ok ==> Pow2(root) <= used <= Enough(ctype) && table[start + used..] == old(table[start + used..])
    ensures ok ==> ResolvesAll(table[start..start + used], root, syms, lens)
    ensures ok ==> huff == BackInc(max, Rev(max, Used(lens, max) - 1))
    ensures ok ==> RootFilled(table[start..start + used], root, syms, lens)
    ensures ok && max == root ==> next == 0 && drop == 0
  {
    hide AllPlaced, BlocksUpTo, Sized, NotOversubscribed, Between, CountsLeft, Sorted, IsNth, Done, LoopInv;
    hide ResolvesAll, RootFilled, Outside, Enough;
    hide Low, Shr, Rev, BackInc, Word, CodeOf, FirstCode, Count, Off, Used, SymOf, Pow2, ValidLengths, SubSpace;
    hide SubBits;
    huff, next, drop, used := 0, 0, 0, Pow2(root);
    var sym: nat, len: nat, curr: nat := 0, min, root;
    var low: int := -1;
    ghost var r: nat, b: nat := 0, 0;
    ghost var tab0, work0 := table[..], work[..];
    EnoughIs(ctype);
    if (ctype == LENS && used > ENOUGH_LENS) || (ctype == DISTS && used > ENOUGH_DISTS) {
      ok := false;
      SubSpaceMono(lens, root, max, 0, Pow2(root));
      NoSpaceYet(lens, root, max);
      return;
    }
    ok := true;
    NoSpaceYet(lens, root, max);
    StartLoop(lens, min);
    FirstTables(table[start..start + used], root, syms, lens, min, max);
    OutsideStart(tab0, start, used);
    while true
      invariant used <= Enough(ctype)
      invariant used == Pow2(root) + SubSpace(lens, root, max, if drop == 0 then 0 else b + 1)
      invariant LoopInv(table[start..start + used], root, syms, lens, max, len, r, next, curr, low, b)
      invariant huff == Rev(len, FirstCode(lens, len) + r) && sym == Off(lens, len) + r
      invariant drop == if len <= root then 0 else root
      invariant CountsLeft(count[..], lens, len, r, max)
      invariant Outside(tab0, table[..], start, used)
      invariant work[..] == work0
      decreases |lens| - sym
    {
      ghost var used0, tab1 := used, table[..];
      huff := PlaceNext(ctype, lens, count, work, table, start, used, root, max, len, huff, sym, next, curr, drop, low,
        syms, r, b);
      sym := sym + 1;
      OutsideOn(tab0, tab1, table[..], start, used, used);
      ghost var tab2 := table[..];
      if count[len] == 0 && len == max { break; }
      ok, used, len, next, curr, drop, low, r, b :=
        Advance(ctype, lens, count, work, table, start, used, root, max, len, huff, sym, next, curr, drop, low, syms,
                r, b);
      OutsideOn(tab0, tab2, table[..], start, used0, if ok then used else used0);
      if !ok {
        OutsideEnds(tab0, table[..], start, used0, Enough(ctype));
        return;
      }
    }
    OutsideEnds(tab0, table[..], start, used, Enough(ctype));
    NoMoreTables(lens, root, max, drop, b);
    AllInPlace(table[start..start + used], root, syms, lens, max, next, curr, drop, low, b);
    FirstCodeUsed(lens, max);
  }

  lemma EnoughIs(ctype: CodeType)
    ensures ctype == LENS ==> Enough(ctype) == ENOUGH_LENS
    ensures ctype == DISTS ==> Enough(ctype) == ENOUGH_DISTS
  {
  }

  /** Only the used entries from start on have been written. */
  ghost predicate Outside(was: seq<Code>, now: seq<Code>, start: nat, used: nat) {
    |was| == |now| && start + used <= |was| && now[..start] == was[..start]
    && now[start + used..] == was[start + used..]
  }

  lemma OutsideStart(was: seq<Code>, start: nat, used: nat)
    requires start + used <= |was|
    ensures Outside(was, was, start, used)
  {
  }

  lemma OutsideOn(was: seq<Code>, mid: seq<Code>, now: seq<Code>, start: nat, used: nat, more: nat)
    requires Outside(was, mid, start, used) && |now| == |mid| && used <= more && start + more <= |was|
    requires now[..start] == mid[..start] && now[start + used..] == mid[start + used..]
    ensures Outside(was, now, start, more)
  {
    assert now[start + more..] == now[start + used..][more - used..];
    assert was[start + more..] == was[start + used..][more - used..];
  }

  lemma OutsideEnds(was: seq<Code>, now: seq<Code>, start: nat, used: nat, enough: nat)
    requires Outside(was, now, start, used) && used <= enough && start + enough <= |was|
    ensures now[..start] == was[..start] && now[start + used..] == was[start + used..]
    ensures now[start + enough..] == was[start + enough..]
  {
    OutsideOn(was, was, now, start, used, enough);
  }

  lemma NoSpaceYet(lens: seq<nat>, root: nat, max: nat)
    ensures SubSpace(lens, root, max, 0) == 0
  {
  }

  /** After the last code no block has a sub-table to come. */
  lemma NoMoreTables(lens: seq<nat>, root: nat, max: nat, drop: nat, b: nat)
    requires 1 <= root <= max && (forall i :: 0 <= i < |lens| ==> lens[i] <= max)
    requires drop == (if max <= root then 0 else root) && (drop != 0 ==> b < Pow2(root))
    requires BlocksUpTo(root, lens, max, Count(lens, max), b)
    ensures SubSpace(lens, root, max, Pow2(root)) == SubSpace(lens, root, max, if drop == 0 then 0 else b + 1)
  {
    hide Shr, CodeOf, Pow2;
    var a := if drop == 0 then 0 else b + 1;
    forall x: nat | a <= x < Pow2(root)
      ensures !HasLong(lens, root, x)
    {
      forall o: nat {:trigger CodeOf(lens, o)} | o < |lens| && lens[o] > root
        ensures Shr(CodeOf(lens, o), lens[o] - root) != x
      {
        RankBound(lens, o);
        assert Done(lens, o, max, Count(lens, max));
      }
    }
    SubSpaceSkip(lens, root, max, a, Pow2(root));
  }

  lemma CountsStep(count: seq<nat>, lens: seq<nat>, len: nat, r: nat, max: nat)
    requires len <= max && r < Count(lens, len) && CountsLeft(count, lens, len, r, max)
    ensures |count| == MAXBITS + 1 && len < |count| && count[len] == Count(lens, len) - r
    ensures CountsLeft(count[len := count[len] - 1], lens, len, r + 1, max)
  {
  }

  ghost predicate ResolvesAll(t: seq<Code>, root: nat, syms: seq<Sym>, lens: seq<nat>)
    requires |lens| <= |syms|
  {
    forall s: nat, h: nat :: Matches(lens, s, h) ==> Resolves(t, root, h, Entry(syms[s], lens[s]))
  }

  ghost predicate RootFilled(t: seq<Code>, root: nat, syms: seq<Sym>, lens: seq<nat>)
    requires |lens| <= |syms|
  {
    forall s: nat {:trigger InRoot(t, root, syms, lens, s)} :: s < |lens| && 0 < lens[s] <= root ==>
      InRoot(t, root, syms, lens, s)
  }

  lemma FirstTables(t: seq<Code>, root: nat, syms: seq<Sym>, lens: seq<nat>, min: nat, max: nat)
    requires |lens| <= |syms| && 1 <= min <= root <= max <= MAXBITS && Count(lens, min) != 0 && |t| == Pow2(root)
    requires forall s: nat {:trigger Done(lens, s, min, 0)} :: !Done(lens, s, min, 0)
    ensures LoopInv(t, root, syms, lens, max, min, 0, 0, root, -1, 0)
  {
  }

  lemma AllInPlace(t: seq<Code>, root: nat, syms: seq<Sym>, lens: seq<nat>, max: nat, next: nat, curr: nat, drop: nat,
                   low: int, b: nat)
    requires |lens| <= |syms| && NoLinks(syms)
    requires Between(t, root, lens, max, next, curr, drop, low, b)
    requires AllPlaced(t, root, syms, lens, max, Count(lens, max), next, curr, low)
    requires forall i :: 0 <= i < |lens| ==> lens[i] <= max
    ensures ResolvesAll(t, root, syms, lens) && RootFilled(t, root, syms, lens)
    ensures (drop == 0 ==> next == 0) && Pow2(root) <= |t|
  {
    AllDone(t, root, syms, lens, max, next, curr, low);
    forall s: nat | s < |lens| && 0 < lens[s] <= root
      ensures InRoot(t, root, syms, lens, s)
    {
      RankBound(lens, s);
      assert Done(lens, s, max, Count(lens, max));
    }
  }

  /** The length counts when only lengths up to max occur. */
  lemma CountsBound(lens: seq<nat>, max: nat)
    requires ValidLengths(lens) && max <= MAXBITS
    requires forall l :: max < l <= MAXBITS ==> Count(lens, l) == 0
    ensures forall i :: 0 <= i < |lens| ==> lens[i] <= max
    ensures Used(lens, MAXBITS) == Used(lens, max) * Pow2(MAXBITS - max)
  {
    forall i | 0 <= i < |lens|
      ensures lens[i] <= max
    {
      RankBound(lens, i);
    }
    UsedJump(lens, max, MAXBITS);
  }

  /** The last increment of a complete code carries out of the top. */
  lemma LastIncrement(lens: seq<nat>, max: nat)
    requires 1 <= max <= MAXBITS && Count(lens, max) != 0 && NotOversubscribed(lens)
    requires Used(lens, MAXBITS) == Used(lens, max) * Pow2(MAXBITS - max)
    ensures Complete(lens) ==> BackInc(max, Rev(max, Used(lens, max) - 1)) == 0
    ensures !Complete(lens) && max == 1 ==> Used(lens, 1) == 1 && BackInc(max, Rev(max, Used(lens, max) - 1)) == 1
  {
    hide Low, Shr, BackInc, Rev, Count, Pow2;
    Pow2Values();
    var u := Used(lens, max);
    UsedFits(lens, max);
    Pow2Sum(max, MAXBITS - max);
    assert max + (MAXBITS - max) == MAXBITS;
    if Complete(lens) {
      MulCancel(Pow2(max), u, Pow2(MAXBITS - max));
      AllOnes(max);
    } else if max == 1 {
      OneBit();
      assert Used(lens, 0) == 0;
    }
  }

  lemma AllOnes(n: nat)
    ensures BackInc(n, Rev(n, Pow2(n) - 1)) == 0
  {
    hide Low, Shr, BackInc, Rev, Pow2;
    BackIncReverses(n, Rev(n, Pow2(n) - 1));
    RevRev(n, Pow2(n) - 1);
    LowIdentity(Pow2(n) - 1, n);
  }

  lemma OneBit()
    ensures BackInc(1, Rev(1, 0)) == 1
  {
    assert Pow2(0) == 1 && Pow2(1) == 2;
    RevNext(1, 0);
    assert Rev(1, 1) == 1;
  }

  /** With a single one-bit code the other half of the table is marked invalid. */
  lemma MarkInvalid(t: seq<Code>, u: seq<Code>, ctype: CodeType, syms: seq<Sym>, lens: seq<nat>)
    requires |lens| <= |syms| && IsSymbols(ctype, syms) && NoLinks(syms) && ValidLengths(lens)
    requires RootFilled(t, 1, syms, lens) && |t| >= 2 && u == t[1 := Code(INVALID_CODE, 1, 0)]
    requires NotOversubscribed(lens) && Used(lens, 1) == 1 && forall i :: 0 <= i < |lens| ==> lens[i] <= 1
    ensures Decodes(u, 1, ctype, lens)
  {
    assert Pow2(0) == 1 && Pow2(1) == 2;
    var s0 := OneCode(lens);
    forall s: nat, h: nat | Matches(lens, s, h)
      ensures Resolves(u, 1, h, Entry(SymOf(ctype, s), lens[s]))
    {
      assert InRoot(t, 1, syms, lens, s);
      assert InRoot(u, 1, syms, lens, s);
      RootResolves(u, 1, syms, lens, s, h);
    }
    forall h: nat | !Matched(lens, h)
      ensures Resolves(u, 1, h, Code(INVALID_CODE, 1, 0))
    {
      assert !Matches(lens, s0, h);
      assert Low(h, 1) == 1;
    }
  }

  lemma OneCode(lens: seq<nat>) returns (s: nat)
    requires Used(lens, 1) == 1 && NotOversubscribed(lens) && forall i :: 0 <= i < |lens| ==> lens[i] <= 1
    ensures s < |lens| && lens[s] == 1 && Word(lens, s) == 0
    ensures forall o: nat, h: nat :: Matches(lens, o, h) ==> o == s && Low(h, 1) == 0
    ensures forall h: nat :: Low(h, 1) == 0 ==> Matches(lens, s, h)
  {
    assert Used(lens, 0) == 0 && Count(lens, 1) == 1;
    s := SelectExists(lens, 1, 0);
    FirstCodeUsed(lens, 1);
    assert Rev(1, 0) == 0;
    forall o: nat, h: nat | Matches(lens, o, h)
      ensures o == s && Low(h, 1) == 0
    {
      RankBound(lens, o);
      RankUnique(lens, o, s);
    }
  }

  lemma MarkAll(t: seq<Code>, ctype: CodeType, lens: seq<nat>)
    requires |lens| <= MaxSymbols(ctype) && Empty(lens)
    requires t == [Code(INVALID_CODE, 1, 0), Code(INVALID_CODE, 1, 0)]
    ensures Decodes(t, 1, ctype, lens)
  {
    assert Pow2(0) == 1 && Pow2(1) == 2;
  }

  lemma CompleteDecodes(t: seq<Code>, root: nat, ctype: CodeType, syms: seq<Sym>, lens: seq<nat>)
    requires |lens| <= |syms| && IsSymbols(ctype, syms) && ValidLengths(lens) && Complete(lens)
    requires ResolvesAll(t, root, syms, lens)
    ensures Decodes(t, root, ctype, lens)
  {
    forall s: nat, h: nat | Matches(lens, s, h)
      ensures Resolves(t, root, h, Entry(SymOf(ctype, s), lens[s]))
    {
      assert syms[s] == SymOf(ctype, s);
    }
    forall h: nat
      ensures Matched(lens, h)
    {
      var s := CompleteCovers(lens, h);
    }
  }

  lemma NoneInUse(lens: seq<nat>)
    requires ValidLengths(lens) && forall l :: 0 < l <= MAXBITS ==> Count(lens, l) == 0
    ensures Empty(lens)
  {
    CountsBound(lens, 0);
  }

  lemma SomeInUse(lens: seq<nat>, max: nat, bits: nat)
    requires 1 <= max <= MAXBITS && Count(lens, max) != 0
    requires forall i :: 0 <= i < |lens| ==> lens[i] <= max
    ensures !Empty(lens) && (max == 1 <==> forall i :: 0 <= i < |lens| ==> lens[i] <= 1)
    ensures (forall i :: 0 <= i < |lens| ==> lens[i] <= bits) ==> max <= bits
  {
    var s := SelectExists(lens, max, 0);
  }

  /** The tables for the code do not fit in the space set aside for its kind. */
  ghost predicate TooBig(ctype: CodeType, lens: seq<nat>, bits: nat) {
    !Empty(lens) && SpaceNeeded(lens, bits) > Enough(ctype)
  }

  /** One level only: no root entry is a link. */
  ghost predicate Direct(t: seq<Code>, root: nat) {
    Pow2(root) <= |t| && forall k :: 0 <= k < Pow2(root) ==> !IsLink(t[k])
  }

  lemma DirectCodes(t: seq<Code>, root: nat, ctype: CodeType, syms: seq<Sym>, lens: seq<nat>)
    requires |lens| <= |syms| && IsSymbols(ctype, syms) && NoLinks(syms) && ValidLengths(lens) && Complete(lens)
    requires RootFilled(t, root, syms, lens) && Pow2(root) <= |t| && forall i :: 0 <= i < |lens| ==> lens[i] <= root
    ensures Direct(t, root)
  {
    hide Complete, Word, IsSymbols, ValidLengths;
    forall k | 0 <= k < Pow2(root) ensures !IsLink(t[k]) {
      var s := CompleteCovers(lens, k);
      assert InRoot(t, root, syms, lens, s);
      assert k in Hits(root, lens[s], Word(lens, s));
    }
  }

  lemma DirectEmpty(t: seq<Code>)
    requires t == [Code(INVALID_CODE, 1, 0), Code(INVALID_CODE, 1, 0)]
    ensures Direct(t, 1)
  {
    Pow2Values();
  }

  lemma Extremes(lens: seq<nat>, max: nat, min: nat)
    requires 1 <= min <= max && Count(lens, max) != 0 && Count(lens, min) != 0
    requires forall i :: 0 <= i < |lens| ==> lens[i] <= max
    requires forall l :: 1 <= l < min ==> Count(lens, l) == 0
    ensures MaxLen(lens) == max && MinLen(lens) == min
  {
    var s := SelectExists(lens, max, 0);
    var t := SelectExists(lens, min, 0);
    var m := MinLen(lens);
    var i :| 0 <= i < |lens| && lens[i] == m;
    RankBound(lens, i);
  }

  /** No symbols: two entries that force an error. */
  method NoSymbols(ctype: CodeType, ghost lens: seq<nat>, table: array<Code>, start: nat)
    requires Empty(lens) && |lens| <= MaxSymbols(ctype) && start + Enough(ctype) <= table.Length
    modifies table
    ensures Pow2(1) <= 2 && Decodes(table[start..start + 2], 1, ctype, lens) && Direct(table[start..start + 2], 1)
    ensures table[..start] == old(table[..start]) && table[start + 2..] == old(table[start + 2..])
    ensures table[start + Enough(ctype)..] == old(table[start + Enough(ctype)..])
  {
    hide Decodes, Direct;
    table[start], table[start + 1] := Code(INVALID_CODE, 1, 0), Code(INVALID_CODE, 1, 0);
    Pow2Values();
    MarkAll(table[start..start + 2], ctype, lens);
    DirectEmpty(table[start..start + 2]);
  }

  /** inflate_table: 0 and tables that decode every window, -1 exactly for lengths
      that are not acceptable, 1 if the tables would exceed the space set aside. */
  method InflateTable(ctype: CodeType, lens: seq<nat>, table: array<Code>, start: nat, bits: nat, work: array<nat>)
    returns (ret: int, used: nat, root: nat)
    requires |lens| <= MaxSymbols(ctype) && ValidLengths(lens) && work.Length >= |lens|
    requires 1 <= bits <= MAXBITS && start + Enough(ctype) <= table.Length
    requires ctype == CODES ==> bits == 7 && forall i :: 0 <= i < |lens| ==> lens[i] <= 7
    modifies table, work
    ensures ret == -1 || ret == 0 || (ret == 1 && ctype != CODES)
    ensures ret == -1 <==> !Acceptable(ctype, lens)
    ensures ret == 1 <==> Acceptable(ctype, lens) && TooBig(ctype, lens, bits)
    ensures ret == 0 && !Empty(lens) ==> root == RootOf(lens, bits) && used == SpaceNeeded(lens, bits)
    ensures ret == 0 ==> 1 <= root <= MAXBITS && Pow2(root) <= used <= Enough(ctype)
    ensures ret == 0 ==> Decodes(table[start..start + used], root, ctype, lens)
    ensures ret == 0 && ctype == CODES ==> Direct(table[start..start + used], root)
    ensures ret == 0 ==> table[start + used..] == old(table[start + used..])
    ensures table[..start] == old(table[..start])
    ensures table[start + Enough(ctype)..] == old(table[start + Enough(ctype)..])
  {
    hide Low, Shr, Rev, BackInc, Word, CodeOf, FirstCode, Count, Off, Used, SymOf, Pow2, Decodes, ResolvesAll;
    hide RootFilled, Direct;
    hide ValidLengths, Sorted, NoLinks, IsSymbols, Empty, MaxLen, MinLen, SubSpace;
    used := 0;
    root := bits;
    var count := new nat[MAXBITS + 1];
    CountLengths(lens, count);
    var max := LongestLength(count);
    if root > max { root := max; }
    forall l | max < l <= MAXBITS
      ensures Count(lens, l) == 0
    {
      assert count[l] == 0;
    }
    CountsBound(lens, max);
    if max == 0 {
      NoneInUse(lens);
      NoSymbols(ctype, lens, table, start);
      root, used, ret := 1, 2, 0;
      return;
    }
    SomeInUse(lens, max, bits);
    var min := ShortestLength(count, max);
    if root < min { root := min; }
    Extremes(lens, max, min);
    var left := CodesLeft(lens, count);
    if left < 0 || (left > 0 && (ctype == CODES || max != 1)) {
      ret := -1;
      return;
    }
    SortSymbols(lens, count, work);
    Pow2Values();
    Pow2Mono(root, if root <= 7 then 7 else root);
    ret, used := EnterAll(ctype, lens, count, work, table, start, root, min, max);
  }

  /** All codes into the table, and the marker where a single code leaves a gap. */
  method EnterAll(ctype: CodeType, lens: seq<nat>, count: array<nat>, work: array<nat>, table: array<Code>, start: nat,
                  root: nat, min: nat, max: nat)
    returns (ret: int, used: nat)
    requires |lens| <= MaxSymbols(ctype) && ValidLengths(lens) && NotOversubscribed(lens)
    requires Complete(lens) || (ctype != CODES && max == 1)
    requires count.Length == MAXBITS + 1 && count != work
    requires Sorted(work[..], lens, |lens|) && CountsLeft(count[..], lens, min, 0, max)
    requires 1 <= min <= root <= max <= MAXBITS && Count(lens, min) != 0 && Count(lens, max) != 0
    requires forall l :: 1 <= l < min ==> Count(lens, l) == 0
    requires forall i :: 0 <= i < |lens| ==> lens[i] <= max
    requires Used(lens, MAXBITS) == Used(lens, max) * Pow2(MAXBITS - max)
    requires ctype == CODES ==> root == max && Pow2(root) <= Enough(CODES)
    requires start + Enough(ctype) <= table.Length
    modifies table, count
    ensures ret == 0 || (ret == 1 && ctype != CODES)
    ensures ret == 0 <==> Pow2(root) + SubSpace(lens, root, max, Pow2(root)) <= Enough(ctype)
    ensures ret == 0 ==> used == Pow2(root) + SubSpace(lens, root, max, Pow2(root)) && Pow2(root) <= used
    ensures ret == 0 ==> Decodes(table[start..start + used], root, ctype, lens)
    ensures ret == 0 && ctype == CODES ==> Direct(table[start..start + used], root)
    ensures ret == 0 ==> table[start + used..] == old(table[start + used..])
    ensures table[..start] == old(table[..start])
    ensures table[start + Enough(ctype)..] == old(table[start + Enough(ctype)..])
  {
    hide Low, Shr, Rev, BackInc, Word, CodeOf, FirstCode, Count, Off, Used, SymOf, Pow2, Decodes, ResolvesAll;
    hide RootFilled, Direct, Complete, NotOversubscribed, CountsLeft;
    hide ValidLengths, Sorted, NoLinks, IsSymbols, SubSpace, Enough;
    ghost var syms := Symbols(ctype);
    var ok, huff, next, drop;
    ok, used, huff, next, drop := FillTables(ctype, lens, count, work, table, start, root, min, max, syms);
    if !ok { return 1, used; }
    LastIncrement(lens, max);
    Pow2Values();
    ghost var t := table[start..start + used];
    if huff != 0 {
      table[start + next + huff] := Code(INVALID_CODE, max - drop, 0);
      MarkInvalid(t, table[start..start + used], ctype, syms, lens);
    } else {
      CompleteDecodes(t, root, ctype, syms, lens);
      if ctype == CODES { DirectCodes(t, root, ctype, syms, lens); }
    }
    ret := 0;
  }
}
