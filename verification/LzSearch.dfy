/** deflate.c: what the searches for matches come to.  Each search is recorded at its
position in the data, with the strings it could have found; the tokens follow from the
records by lazy evaluation. */
module LzSearch {
  import opened BitStream
  import opened Format
  import opened RollingHash
  import opened HashChains
  import opened LzWindow
  import opened LzTokens

  /** The tuning parameters: no search once a match of lazy bytes is held, none after one
      of nice bytes is found, at most chain strings of the same hash compared, a quarter of
      that if good bytes are held; a greedy one holds nothing back. */
  datatype Search = Search(h: Hash, maxDist: int, lazy: nat, nice: nat, good: nat, chain: nat,
                           filtered: bool, tooFar: nat, greedy: bool)

  /** A search: the length held from the byte before, the length found and its distance,
      and the length kept; the strings inserted by then, the oldest of them that counts,
      and the end of the data by then. */
  datatype Find = Find(held: nat, raw: nat, dist: nat, kept: nat, oldest: int, seen: set<int>, end: int)

  /** The strings in seen from `from` on that have the hash of the string at p. */
  ghost function Twins(h: Hash, data: seq<byte>, seen: set<int>, from: int, p: int): set<int> {
    set q | q in seen && from <= q < p && HashAt(h, data, q) == HashAt(h, data, p)
  }

  ghost function Limit(z: Search, held: nat): nat {
    if held >= z.good then z.chain / 4 else z.chain
  }

  /** A match found that is not worth keeping. */
  ghost predicate Poor(z: Search, raw: nat, dist: nat) {
    raw <= 5 && (z.filtered || (raw == MIN_MATCH && dist > z.tooFar))
  }

  /** A search takes place. */
  ghost predicate Tried(z: Search, p: int, f: Find) {
    f.held < z.lazy && p + MIN_MATCH <= f.end
  }

  /** Nothing longer than what was found or is held, unless that is nice enough. */
  ghost predicate Longest(z: Search, data: seq<byte>, p: nat, f: Find) {
    forall d: nat, n: nat ::
      (1 <= d <= p - f.oldest && p - d in f.seen && MIN_MATCH <= n <= MAX_MATCH && p + n <= f.end
       && MatchAt(data, p, d, n)) ==> n <= f.raw || n <= f.held || f.raw >= z.nice
  }

  /** All strings in reach count, but for the one at the very start of the data, or else
      as many as may be compared. */
  ghost predicate FarBack(z: Search, data: seq<byte>, p: nat, f: Find) {
    f.oldest <= 1 || f.oldest + z.maxDist <= p + 1 || |Twins(z.h, data, f.seen, f.oldest, p)| == Limit(z, f.held)
  }

  ghost predicate FindOk(z: Search, data: seq<byte>, p: int, f: Find) {
    && 0 <= p <= f.end <= |data|
    && (f.kept >= MIN_MATCH && f.kept > f.held ==>
        f.dist <= z.maxDist && p + f.kept <= f.end && MatchAt(data, p, f.dist, f.kept))
    && f.kept == (if !Tried(z, p, f) || Poor(z, f.raw, f.dist) then MIN_MATCH - 1 else f.raw)
    && (Tried(z, p, f) ==> Longest(z, data, p, f) && FarBack(z, data, p, f))
  }

  ghost predicate FindsOk(z: Search, data: seq<byte>, finds: map<int, Find>) {
    forall p :: p in finds ==> FindOk(z, data, p, finds[p])
  }

  /** What is held is what was kept at the byte before. */
  ghost predicate Linked(finds: map<int, Find>) {
    forall p :: p in finds ==>
      finds[p].held == if p - 1 in finds then finds[p - 1].kept else MIN_MATCH - 1
  }

  /** Nothing longer is held from the byte before. */
  ghost predicate Fresh(f: Find) {
    f.held < MIN_MATCH || f.kept > f.held
  }

  /** A byte goes out by itself only if no match is kept there, or a longer one is kept at
      the next byte; a match goes out as found unless a longer one is kept there.  The
      greedy way looks no further. */
  ghost predicate Chosen(z: Search, t: Token, p: int, finds: map<int, Find>) {
    p in finds && Fresh(finds[p]) &&
    match t
    case Lit(_) =>
      finds[p].kept < MIN_MATCH || (!z.greedy && p + 1 in finds && finds[p + 1].kept > finds[p].kept)
    case Match(len, dist) =>
      finds[p].kept == len && finds[p].dist == dist && (z.greedy || (p + 1 in finds && finds[p + 1].kept <= len))
  }

  function Width(t: Token): nat {
    match t case Lit(_) => 1 case Match(len, _) => len
  }

  /** How many bytes the tokens stand for. */
  function Span(ts: seq<Token>): nat {
    if |ts| == 0 then 0 else Span(ts[..|ts| - 1]) + Width(ts[|ts| - 1])
  }

  ghost predicate AllChosen(z: Search, ts: seq<Token>, finds: map<int, Find>) {
    forall k :: 0 <= k < |ts| ==> Chosen(z, ts[k], Span(ts[..k]), finds)
  }

  /** The tokens of all blocks. */
  function TokensOf(blocks: seq<LzBlock>): seq<Token> {
    if |blocks| == 0 then [] else TokensOf(blocks[..|blocks| - 1]) + blocks[|blocks| - 1].ts
  }

  lemma TokensOfMore(blocks: seq<LzBlock>, b: LzBlock)
    ensures TokensOf(blocks + [b]) == TokensOf(blocks) + b.ts
  {
    assert (blocks + [b])[..|blocks|] == blocks;
  }

  /** Lazy evaluation up to position pos: the tokens ts come from the searches made, and
      the byte before pos may be held back with the match of len bytes kept there. */
  ghost predicate Account(z: Search, data: seq<byte>, ts: seq<Token>, finds: map<int, Find>, pos: int,
                          held: bool, len: nat, dist: nat) {
    && FindsOk(z, data, finds) && Linked(finds) && AllChosen(z, ts, finds)
    && Span(ts) == pos - (if held then 1 else 0)
    && (forall p :: p in finds ==> p < pos)
    && (held ==> pos - 1 in finds && Fresh(finds[pos - 1]))
    && len == (if pos - 1 in finds then finds[pos - 1].kept else MIN_MATCH - 1)
    && (!held ==> len == MIN_MATCH - 1)
    && (len >= MIN_MATCH ==> finds[pos - 1].dist == dist)
  }

  lemma NoAccount(z: Search, data: seq<byte>, dist: nat)
    ensures Account(z, data, [], map[], 0, false, MIN_MATCH - 1, dist)
  {
  }

  lemma AccountFacts(z: Search, data: seq<byte>, ts: seq<Token>, finds: map<int, Find>, pos: int,
                     held: bool, len: nat, dist: nat)
    requires Account(z, data, ts, finds, pos, held, len, dist)
    ensures Span(ts) == pos - (if held then 1 else 0) && forall p :: p in finds ==> p < pos
  {
    hide FindsOk, Linked, AllChosen;
  }

  // --------------------------------------------------------- steps of the account

  /** The account with a search at pos added. */
  ghost predicate Searching(z: Search, data: seq<byte>, ts: seq<Token>, finds: map<int, Find>, pos: int,
                            held: bool, len: nat, dist: nat, f: Find) {
    Account(z, data, ts, finds, pos, held, len, dist) && FindOk(z, data, pos, f) && f.held == len
  }

  lemma FindsMore(z: Search, data: seq<byte>, ts: seq<Token>, finds: map<int, Find>, pos: int,
                  held: bool, len: nat, dist: nat, f: Find)
    requires Searching(z, data, ts, finds, pos, held, len, dist, f)
    ensures var more := finds[pos := f]; FindsOk(z, data, more) && Linked(more) && AllChosen(z, ts, more)
  {
    hide FindOk;
    var more := finds[pos := f];
    forall k | 0 <= k < |ts| ensures Chosen(z, ts[k], Span(ts[..k]), more) {
      assert Chosen(z, ts[k], Span(ts[..k]), finds);
    }
  }

  lemma ChosenSnoc(z: Search, ts: seq<Token>, t: Token, finds: map<int, Find>)
    requires AllChosen(z, ts, finds) && Chosen(z, t, Span(ts), finds)
    ensures AllChosen(z, ts + [t], finds) && Span(ts + [t]) == Span(ts) + Width(t)
  {
    hide Chosen;
    var us := ts + [t];
    assert us[..|ts|] == ts;
    forall k | 0 <= k < |us| ensures Chosen(z, us[k], Span(us[..k]), finds) {
      if k < |ts| { assert us[..k] == ts[..k]; }
    }
  }

  /** Nothing held: the byte at pos is held back. */
  lemma AccountHold(z: Search, data: seq<byte>, ts: seq<Token>, finds: map<int, Find>, pos: int,
                    len: nat, dist: nat, f: Find)
    requires !z.greedy && Searching(z, data, ts, finds, pos, false, len, dist, f)
    ensures Account(z, data, ts, finds[pos := f], pos + 1, true, f.kept, f.dist)
  {
    hide FindOk, FindsOk, Linked, AllChosen;
    FindsMore(z, data, ts, finds, pos, false, len, dist, f);
  }

  /** The byte held back goes out as a literal: no match was kept there, or a longer one is
      kept now. */
  lemma AccountLit(z: Search, data: seq<byte>, ts: seq<Token>, finds: map<int, Find>, pos: int,
                   len: nat, dist: nat, f: Find, c: nat)
    requires !z.greedy && Searching(z, data, ts, finds, pos, true, len, dist, f) && (len < MIN_MATCH || f.kept > len)
    ensures Account(z, data, ts + [Lit(c)], finds[pos := f], pos + 1, true, f.kept, f.dist)
  {
    hide FindOk, FindsOk, Linked, AllChosen;
    FindsMore(z, data, ts, finds, pos, true, len, dist, f);
    ChosenSnoc(z, ts, Lit(c), finds[pos := f]);
  }

  /** The match held back is not beaten and goes out. */
  lemma AccountMatch(z: Search, data: seq<byte>, ts: seq<Token>, finds: map<int, Find>, pos: int,
                     len: nat, dist: nat, f: Find, any: nat)
    requires !z.greedy && Searching(z, data, ts, finds, pos, true, len, dist, f) && len >= MIN_MATCH && f.kept <= len
    ensures Account(z, data, ts + [Match(len, dist)], finds[pos := f], pos - 1 + len, false, MIN_MATCH - 1, any)
  {
    hide FindOk, FindsOk, Linked, AllChosen;
    FindsMore(z, data, ts, finds, pos, true, len, dist, f);
    ChosenSnoc(z, ts, Match(len, dist), finds[pos := f]);
  }

  /** The greedy way: a token for what was found. */
  lemma AccountTake(z: Search, data: seq<byte>, ts: seq<Token>, finds: map<int, Find>, pos: int, dist: nat, f: Find,
                    t: Token, any: nat)
    requires z.greedy && Searching(z, data, ts, finds, pos, false, MIN_MATCH - 1, dist, f)
    requires if f.kept >= MIN_MATCH then t == Match(f.kept, f.dist) else t.Lit? && f.kept == MIN_MATCH - 1
    ensures Account(z, data, ts + [t], finds[pos := f], pos + Width(t), false, MIN_MATCH - 1, any)
  {
    hide FindOk, FindsOk, Linked, AllChosen;
    FindsMore(z, data, ts, finds, pos, false, MIN_MATCH - 1, dist, f);
    ChosenSnoc(z, ts, t, finds[pos := f]);
  }

  /** The end of the data: the byte held back goes out. */
  lemma AccountEnd(z: Search, data: seq<byte>, ts: seq<Token>, finds: map<int, Find>, pos: int,
                   len: nat, dist: nat, c: nat, any: nat)
    requires Account(z, data, ts, finds, pos, true, len, dist) && len < MIN_MATCH && len == MIN_MATCH - 1
    ensures Account(z, data, ts + [Lit(c)], finds, pos, false, MIN_MATCH - 1, any)
  {
    hide FindsOk, Linked, AllChosen;
    ChosenSnoc(z, ts, Lit(c), finds);
  }

  // ------------------------------------------------------------------ more data

  lemma FindStays(z: Search, data: seq<byte>, more: seq<byte>, p: int, f: Find)
    requires FindOk(z, data, p, f) && data <= more
    ensures FindOk(z, more, p, f)
  {
    hide Poor, Limit;
    if f.kept >= MIN_MATCH && f.kept > f.held { MatchStays(data, more, f.end, p, f.dist, f.kept); }
    if Tried(z, p, f) {
      forall d: nat, n: nat
        | 1 <= d <= p - f.oldest && p - d in f.seen && MIN_MATCH <= n <= MAX_MATCH && p + n <= f.end
          && MatchAt(more, p, d, n)
        ensures n <= f.raw || n <= f.held || f.raw >= z.nice
      {
        MatchStays(data, more, f.end, p, d, n);
      }
      TwinsStay(z.h, data, more, f.seen, f.oldest, p);
    }
  }

  lemma MatchStays(data: seq<byte>, more: seq<byte>, end: int, p: nat, d: nat, n: nat)
    requires data <= more && p + n <= end <= |data|
    ensures MatchAt(more, p, d, n) <==> MatchAt(data, p, d, n)
  {
    assert forall i :: 0 <= i < |data| ==> more[i] == data[i];
  }

  lemma TwinsStay(h: Hash, data: seq<byte>, more: seq<byte>, seen: set<int>, from: int, p: int)
    requires data <= more && p + 2 < |data|
    ensures Twins(h, more, seen, from, p) == Twins(h, data, seen, from, p)
  {
    assert forall i :: 0 <= i < |data| ==> more[i] == data[i];
    assert forall q :: q <= p ==> HashAt(h, more, q) == HashAt(h, data, q);
  }

  lemma AccountGrows(z: Search, data: seq<byte>, more: seq<byte>, ts: seq<Token>, finds: map<int, Find>, pos: int,
                     held: bool, len: nat, dist: nat)
    requires Account(z, data, ts, finds, pos, held, len, dist) && data <= more
    ensures Account(z, more, ts, finds, pos, held, len, dist)
  {
    hide FindOk, Linked, AllChosen;
    forall p | p in finds ensures FindOk(z, more, p, finds[p]) { FindStays(z, data, more, p, finds[p]); }
  }

  // ------------------------------------------------------- searches in the window

  /** What longest_match says of the length it returns. */
  ghost predicate Sought(z: Search, c: Chains, s: int, ahead: int, held: nat, raw: nat, oldest: int) {
    raw < ahead && raw < z.nice ==>
      && Best(c, z.h, oldest, s, raw)
      && (oldest <= 1 || oldest + z.maxDist <= s + 1 || |Chain(c, z.h, oldest, s)| == Limit(z, held))
  }

  /** The strings of the window as positions in the data. */
  ghost function SeenOf(ins: set<int>, s: int, base: int): set<int> {
    set q | q in ins && q < s :: base + q
  }

  /** The record of a search at window position s. */
  ghost function FindOf(z: Search, ins: set<int>, base: nat, end: nat, s: nat, held: nat, raw: nat, dist: nat,
                        oldest: int): Find
  {
    Find(held, raw, dist,
      if held >= z.lazy || s + MIN_MATCH > end || Poor(z, raw, dist) then MIN_MATCH - 1 else raw,
      if s + raw < end && raw < z.nice then base + oldest else 1, SeenOf(ins, s, base), base + end)
  }

  lemma SameHash(h: Hash, w: seq<byte>, data: seq<byte>, base: nat, end: nat, q: nat)
    requires WindowHolds(w, data, base, end) && q + MIN_MATCH <= end
    ensures HashAt(h, data, base + q) == HashAt(h, w, q)
  {
    hide Hash3;
    assert w[q] == data[base + q] && w[q + 1] == data[base + (q + 1)] && w[q + 2] == data[base + (q + 2)];
  }

  lemma Member(a: set<int>) returns (x: int)
    requires |a| > 0
    ensures x in a
  {
    assert exists y :: y in a by {
      if forall y :: y !in a { assert false; }
    }
    x :| x in a;
  }

  /** A set moved into another one is no larger. */
  lemma {:induction false} MovedInto(a: set<int>, b: set<int>, k: int)
    requires forall q :: q in a ==> q + k in b
    ensures |a| <= |b|
    decreases |a|
  {
    if |a| > 0 {
      var x := Member(a);
      MovedInto(a - {x}, b - {x + k}, k);
    }
  }

  lemma SeenAt(ins: set<int>, s: int, base: int, p: int)
    ensures p in SeenOf(ins, s, base) <==> p - base in ins && p - base < s
  {
    if p - base in ins && p - base < s { assert base + (p - base) == p; }
  }

  /** The same string, in the window and in the data. */
  lemma TwinAt(c: Chains, h: Hash, data: seq<byte>, base: nat, end: nat, s: nat, from: int, p: int)
    requires WindowHolds(c.w, data, base, end) && ChainsOk(c, h, end) && s + MIN_MATCH <= end
    ensures p in Twins(h, data, SeenOf(c.ins, s, base), base + from, base + s) <==> p - base in Chain(c, h, from, s)
  {
    hide HashAt, WindowHolds, HeadOk, LinkOk, SeenOf;
    SeenAt(c.ins, s, base, p);
    SameHash(h, c.w, data, base, end, s);
    if p - base in c.ins { SameHash(h, c.w, data, base, end, p - base); }
  }

  lemma TwinsAreChain(c: Chains, h: Hash, data: seq<byte>, base: nat, end: nat, s: nat, from: int)
    requires WindowHolds(c.w, data, base, end) && ChainsOk(c, h, end) && s + MIN_MATCH <= end
    ensures |Twins(h, data, SeenOf(c.ins, s, base), base + from, base + s)| == |Chain(c, h, from, s)|
  {
    hide Twins, Chain, WindowHolds, ChainsOk, SeenOf;
    var a, b := Chain(c, h, from, s), Twins(h, data, SeenOf(c.ins, s, base), base + from, base + s);
    var up: int := base;
    var down := -up;
    forall q | q in a ensures q + up in b {
      TwinAt(c, h, data, base, end, s, from, q + up);
    }
    MovedInto(a, b, up);
    forall q | q in b ensures q + down in a {
      TwinAt(c, h, data, base, end, s, from, q);
    }
    MovedInto(b, a, down);
  }

  /** A match in the data is agreement in the window. */
  lemma MatchIsAgree(w: seq<byte>, data: seq<byte>, base: nat, end: nat, q: nat, s: nat, n: nat)
    requires WindowHolds(w, data, base, end) && q < s && s + n <= end && MatchAt(data, base + s, s - q, n)
    ensures Agree(w, q, s, n)
  {
    forall i {:trigger w[i]} | s <= i < s + n ensures w[i] == w[i - s + q] {
      assert data[base + i] == data[base + i - (s - q)];
      assert base + i - (s - q) == base + (i - s + q);
    }
  }

  lemma NoneLonger(z: Search, c: Chains, data: seq<byte>, base: nat, end: nat, s: nat, held: nat, raw: nat, dist: nat,
                   oldest: int)
    requires WindowHolds(c.w, data, base, end) && ChainsOk(c, z.h, end) && s + MIN_MATCH <= end
    requires Sought(z, c, s, end - s, held, raw, oldest)
    ensures Longest(z, data, base + s, FindOf(z, c.ins, base, end, s, held, raw, dist, oldest))
  {
    hide HashAt, WindowHolds, Agree, Chain, Best, MatchAt, Poor;
    var f, p := FindOf(z, c.ins, base, end, s, held, raw, dist, oldest), base + s;
    forall d: nat, n: nat
      | 1 <= d <= p - f.oldest && p - d in f.seen && MIN_MATCH <= n <= MAX_MATCH && p + n <= f.end
        && MatchAt(data, p, d, n)
      ensures n <= f.raw || n <= f.held || f.raw >= z.nice
    {
      if raw < end - s && raw < z.nice {
        var q := s - d;
        assert q in c.ins;
        MatchIsAgree(c.w, data, base, end, q, s, n);
        BestOfAll(c, z.h, oldest, s, raw, q, n);
      }
    }
  }

  /** The search at window position s, recorded. */
  lemma FindMade(z: Search, c: Chains, data: seq<byte>, base: nat, end: nat, s: nat, held: nat, raw: nat, dist: nat,
                 oldest: int)
    requires WindowHolds(c.w, data, base, end) && ChainsOk(c, z.h, end) && s <= end && (base > 0 ==> s >= z.maxDist)
    requires held < z.lazy && s + MIN_MATCH <= end ==> Sought(z, c, s, end - s, held, raw, oldest)
    requires held < z.lazy && s + MIN_MATCH <= end && raw >= MIN_MATCH && raw > held ==>
      dist <= z.maxDist && s + raw <= end && MatchAt(data, base + s, dist, raw)
    ensures FindOk(z, data, base + s, FindOf(z, c.ins, base, end, s, held, raw, dist, oldest))
  {
    hide Best, Chain, Longest, MatchAt, ChainsOk, SeenOf, Twins;
    if held < z.lazy && s + MIN_MATCH <= end {
      NoneLonger(z, c, data, base, end, s, held, raw, dist, oldest);
      TwinsAreChain(c, z.h, data, base, end, s, oldest);
    }
  }

  /** Where no string of the hash is in reach nothing longer than two bytes agrees. */
  lemma NothingSought(z: Search, c: Chains, s: int, ahead: int, held: nat, head: int)
    requires forall q :: q in c.ins && q < s && HashAt(z.h, c.w, q) == HashAt(z.h, c.w, s) ==> q <= head
    requires head == NIL || head + z.maxDist < s
    ensures Sought(z, c, s, ahead, held, MIN_MATCH - 1, head + 1)
  {
    assert Chain(c, z.h, head + 1, s) == {};
  }

  // ------------------------------------------------------------- all strings seen

  /** Every string before position to whose bytes are there has been inserted. */
  ghost predicate DenseTo(ins: set<int>, to: int, end: int) {
    forall q {:trigger q in ins} :: 0 <= q < to && q + MIN_MATCH <= end ==> q in ins
  }

  /** Every search knew all strings in reach, but for the one at the very start of the data. */
  ghost predicate AllSeen(z: Search, finds: map<int, Find>) {
    forall p, q :: p in finds && Tried(z, p, finds[p]) && 1 <= q && p - z.maxDist < q < p ==> q in finds[p].seen
  }

  lemma AllSeenMore(z: Search, finds: map<int, Find>, ins: set<int>, base: nat, end: nat, s: nat, f: Find)
    requires AllSeen(z, finds) && f.seen == SeenOf(ins, s, base) && (base > 0 ==> s >= z.maxDist)
    requires Tried(z, base + s, f) ==> DenseTo(ins, s, end) && s + MIN_MATCH <= end
    ensures AllSeen(z, finds[base + s := f])
  {
    if Tried(z, base + s, f) {
      forall q | 1 <= q && base + s - z.maxDist < q < base + s ensures q in f.seen {
        SeenAt(ins, s, base, q);
        assert q - base in ins;
      }
    }
  }

  /** The strings passed over by one step. */
  lemma DenseMore(was: set<int>, now: set<int>, from: int, to: int, gap: int, end: int)
    requires DenseTo(was, from - gap, end) && was <= now && gap >= 0 && (gap > 0 ==> end - from + gap < MIN_MATCH)
    requires forall q {:trigger q in now} :: from <= q < to && q + MIN_MATCH <= end ==> q in now
    ensures DenseTo(now, to - gap, end)
  {
  }

  lemma DenseStep(was: set<int>, now: set<int>, from: int, to: int, gap: int, end: int)
    requires DenseTo(was, from - gap, end) && gap >= 0 && (gap > 0 ==> end - from + gap < MIN_MATCH)
    requires Grown(was, now, from, Ripe(to, end))
    ensures DenseTo(now, to - gap, end)
  {
    DenseMore(was, now, from, to, gap, end);
  }

  /** More data, and the window moved down. */
  lemma DenseGrows(was: set<int>, now: set<int>, k: nat, from: int, to: int, end: int, more: int)
    requires DenseTo(was, from, end) && Carried(was, now, k, from, to)
    requires from <= 0 || from + MIN_MATCH - 1 <= end || more + k == end
    ensures DenseTo(now, to, more)
  {
    forall q | 0 <= q < to && q + MIN_MATCH <= more ensures q in now {
      if q + k < from { assert q + k in was; }
    }
  }

  // ------------------------------------------------- strings seen by the greedy way

  /** The strings the greedy way inserts: where a token begins, and inside matches of at
      most `most` bytes. */
  ghost function Entered(ts: seq<Token>, most: nat): set<int> {
    if |ts| == 0 then {}
    else
      var n := |ts| - 1;
      Entered(ts[..n], most) + Range(Span(ts[..n]), Span(ts[..n]) + (if Width(ts[n]) <= most then Width(ts[n]) else 1))
  }

  /** Every search knew all of these that were in reach. */
  ghost predicate AllEntered(z: Search, finds: map<int, Find>, entered: set<int>) {
    forall p, q :: p in finds && Tried(z, p, finds[p]) && q in entered && 1 <= q && p - z.maxDist < q < p ==>
      q in finds[p].seen
  }

  /** All of them that the window still has are inserted. */
  ghost predicate EnteredIn(entered: set<int>, ins: set<int>, base: int) {
    forall q :: q in entered && q >= base ==> q - base in ins
  }

  lemma EnteredSnoc(ts: seq<Token>, t: Token, most: nat)
    ensures Entered(ts + [t], most)
      == Entered(ts, most) + Range(Span(ts), Span(ts) + (if Width(t) <= most then Width(t) else 1))
  {
    assert (ts + [t])[..|ts|] == ts;
  }

  lemma AllEnteredMore(z: Search, finds: map<int, Find>, entered: set<int>, more: set<int>, ins: set<int>, base: nat,
                       s: nat, f: Find)
    requires AllEntered(z, finds, entered) && f.seen == SeenOf(ins, s, base) && (base > 0 ==> s >= z.maxDist)
    requires Tried(z, base + s, f) ==> EnteredIn(entered, ins, base)
    requires (forall p :: p in finds ==> p < base + s) && forall q :: q in more ==> q in entered || q >= base + s
    ensures AllEntered(z, finds[base + s := f], more)
  {
    forall q | q in entered && 1 <= q && base + s - z.maxDist < q < base + s && Tried(z, base + s, f)
      ensures q in f.seen
    {
      SeenAt(ins, s, base, q);
    }
  }

  lemma NoneEntered(most: nat, ins: set<int>, base: int)
    ensures EnteredIn(Entered([], most), ins, base)
  {
  }

  lemma EnteredMore(entered: set<int>, was: set<int>, now: set<int>, base: int)
    requires EnteredIn(entered, was, base) && was <= now
    ensures EnteredIn(entered, now, base)
  {
    forall q | q in entered && q >= base ensures q - base in now { assert q - base in was; }
  }

  lemma EnteredDown(entered: set<int>, was: set<int>, now: set<int>, base: int, k: nat, from: int, to: int)
    requires EnteredIn(entered, was, base) && Carried(was, now, k, from, to)
    ensures EnteredIn(entered, now, base + k)
  {
    forall q | q in entered && q >= base + k ensures q - (base + k) in now {
      assert q - base in was;
      assert q - base - k == q - (base + k);
    }
  }

  lemma EnteredOn(ts: seq<Token>, t: Token, most: nat, was: set<int>, now: set<int>, base: nat, s: nat, to: int)
    requires EnteredIn(Entered(ts, most), was, base) && Span(ts) == base + s && Grown(was, now, s, to)
    requires to == s + (if Width(t) <= most then Width(t) else 1)
    ensures EnteredIn(Entered(ts + [t], most), now, base)
  {
    EnteredSnoc(ts, t, most);
    forall q | q in Entered(ts + [t], most) && q >= base ensures q - base in now {
      if q in Entered(ts, most) { assert q - base in was; }
    }
  }

  // ----------------------------------------------------------- the law of a run

  /** A string d bytes back that the search at p was bound to look at: known, in reach,
      and with fewer strings of the hash in reach than may be compared. */
  ghost predicate InSight(z: Search, data: seq<byte>, p: int, f: Find, d: int) {
    && p - d in f.seen && 1 <= d < z.maxDist && 1 <= p - d
    && |Twins(z.h, data, f.seen, p - z.maxDist + 2, p)| < Limit(z, f.held)
  }

  lemma {:induction false} FewerTwins(a: set<int>, b: set<int>)
    requires a <= b
    ensures |a| <= |b|
    decreases |a|
  {
    if |a| > 0 {
      var x := Member(a);
      FewerTwins(a - {x}, b - {x});
    }
  }

  lemma SightReaches(z: Search, data: seq<byte>, p: nat, f: Find, d: nat)
    requires FarBack(z, data, p, f) && InSight(z, data, p, f, d)
    ensures f.oldest <= p - d
  {
    if f.oldest > p - d {
      FewerTwins(Twins(z.h, data, f.seen, f.oldest, p), Twins(z.h, data, f.seen, p - z.maxDist + 2, p));
    }
  }

  /** What a search at the beginning of a token found is no shorter than any string in
      sight, unless it is nice enough. */
  lemma FoundLongest(z: Search, data: seq<byte>, p: int, f: Find, d: nat, n: nat)
    requires FindOk(z, data, p, f) && Fresh(f) && MIN_MATCH <= z.lazy && InSight(z, data, p, f, d)
    requires MIN_MATCH <= n <= MAX_MATCH && p + n <= f.end && MatchAt(data, p, d, n)
    ensures n <= f.raw || f.raw >= z.nice
    ensures f.kept == if Poor(z, f.raw, f.dist) then MIN_MATCH - 1 else f.raw
  {
    hide MatchAt, Twins, Poor, Limit;
    assert Tried(z, p, f);
    SightReaches(z, data, p, f, d);
  }

  /** If a byte goes out by itself although a string in sight agrees with what follows for
      n >= 3 bytes, then what was found is not worth keeping, or a longer match begins at
      the next byte, which the greedy way would not look for. */
  lemma LiteralLaw(z: Search, data: seq<byte>, ts: seq<Token>, finds: map<int, Find>, k: nat, d: nat, n: nat)
    requires FindsOk(z, data, finds) && Linked(finds) && AllChosen(z, ts, finds) && k < |ts| && ts[k].Lit?
    requires MIN_MATCH <= z.lazy && MIN_MATCH <= z.nice
    requires Span(ts[..k]) in finds && InSight(z, data, Span(ts[..k]), finds[Span(ts[..k])], d)
    requires MIN_MATCH <= n <= MAX_MATCH && Span(ts[..k]) + n <= finds[Span(ts[..k])].end
    requires MatchAt(data, Span(ts[..k]), d, n)
    ensures var p := Span(ts[..k]); var f := finds[p];
      || Poor(z, f.raw, f.dist)
      || (!z.greedy && p + 1 in finds && var g := finds[p + 1];
          g.kept > f.raw && (g.kept > n || g.kept > z.nice) && g.dist <= z.maxDist
          && MatchAt(data, p + 1, g.dist, g.kept))
  {
    hide MatchAt, Twins, Poor, Limit, Span, InSight, Longest, FarBack;
    var p := Span(ts[..k]);
    assert Chosen(z, ts[k], p, finds);
    FoundLongest(z, data, p, finds[p], d, n);
    if p + 1 in finds {
      assert FindOk(z, data, p + 1, finds[p + 1]);
      assert finds[p + 1].held == if p + 1 - 1 in finds then finds[p + 1 - 1].kept else MIN_MATCH - 1;
    }
  }

  /** A match that goes out is a true one, and none in sight is longer unless it is nice
      enough. */
  lemma MatchLaw(z: Search, data: seq<byte>, ts: seq<Token>, finds: map<int, Find>, k: nat)
    requires FindsOk(z, data, finds) && AllChosen(z, ts, finds) && k < |ts| && ts[k].Match? && ts[k].len >= MIN_MATCH
    requires MIN_MATCH <= z.lazy
    ensures var p := Span(ts[..k]);
      && p in finds && ts[k].dist <= z.maxDist && MatchAt(data, p, ts[k].dist, ts[k].len)
      && forall d: nat, n: nat ::
          (InSight(z, data, p, finds[p], d) && MIN_MATCH <= n <= MAX_MATCH && p + n <= finds[p].end
           && MatchAt(data, p, d, n)) ==> n <= ts[k].len || ts[k].len >= z.nice
  {
    hide MatchAt, Twins, Poor, Limit, Span, InSight, Longest, FarBack;
    var p := Span(ts[..k]);
    assert Chosen(z, ts[k], p, finds);
    assert FindOk(z, data, p, finds[p]);
    forall d: nat, n: nat
      | InSight(z, data, p, finds[p], d) && MIN_MATCH <= n <= MAX_MATCH && p + n <= finds[p].end
        && MatchAt(data, p, d, n)
      ensures n <= ts[k].len || ts[k].len >= z.nice
    {
      FoundLongest(z, data, p, finds[p], d, n);
    }
  }

  /** The tokens of all the data, every search having known all strings it was to know. */
  ghost predicate Evaluated(z: Search, data: seq<byte>, ts: seq<Token>, finds: map<int, Find>, most: nat) {
    && FindsOk(z, data, finds) && Linked(finds) && AllChosen(z, ts, finds) && Span(ts) == |data|
    && (if z.greedy then AllEntered(z, finds, Entered(ts, most)) else AllSeen(z, finds))
  }
}
