/** deflate.c: hash chains kept modulo the window size. */
module HashChains {
  import opened Bits
  import opened BitStream
  import opened RollingHash

  const MIN_MATCH := 3
  const MAX_MATCH := 258
  const MIN_LOOKAHEAD := 262
  const NIL := 0

  /** Hash of the string at window position p, 0 where the window ends. */
  function HashAt(h: Hash, w: seq<byte>, p: int): nat {
    if 0 <= p && p + 2 < |w| then Hash3(h, w[p], w[p + 1], w[p + 2]) else 0
  }

  /** The running key is ready for the string at p: two of its bytes are in. */
  ghost predicate Primed(h: Hash, w: seq<byte>, key: nat, p: nat) {
    p + 1 < |w| && exists k: nat :: key == Update(h, Update(h, k, w[p]), w[p + 1])
  }

  /** Chains over the set ins of inserted positions, all below top and with three bytes
      of data before end.  Only the last ws positions still have their own prev slot. */
  datatype Chains = Chains(w: seq<byte>, prev: seq<nat>, head: seq<nat>, ins: set<int>, top: int)

  /** p is the last position before q at which a string of that hash was inserted; NIL
      says that there is none, or none but position NIL itself. */
  ghost predicate Newest(c: Chains, h: Hash, key: int, q: int, p: int) {
    && (p == NIL || (p in c.ins && p < q && HashAt(h, c.w, p) == key))
    && forall r :: r in c.ins && r < q && HashAt(h, c.w, r) == key ==> r <= p
  }

  ghost predicate HeadOk(c: Chains, h: Hash, key: int)
    requires 0 <= key < |c.head|
  {
    Newest(c, h, key, c.top, c.head[key])
  }

  ghost predicate LinkOk(c: Chains, h: Hash, q: int)
    requires |c.prev| > 0 && q >= 0
  {
    Newest(c, h, HashAt(h, c.w, q), q, c.prev[q % |c.prev|])
  }

  ghost predicate ChainsOk(c: Chains, h: Hash, end: int) {
    && |c.prev| > 0 && end <= |c.w| && (c.top <= 0 || c.top + 2 <= end)
    && (forall q :: q in c.ins ==> 0 <= q < c.top)
    && (forall key :: 0 <= key < |c.head| ==> HeadOk(c, h, key))
    && (forall q :: q in c.ins && q + |c.prev| >= c.top ==> LinkOk(c, h, q))
  }

  lemma NoChains(c: Chains, h: Hash)
    requires |c.prev| > 0 && c.ins == {} && c.top == 0 && forall k :: 0 <= k < |c.head| ==> c.head[k] == NIL
    ensures ChainsOk(c, h, 0)
  {
    hide HashAt;
  }

  lemma ModDistinct(q: nat, s: nat, ws: nat)
    requires q < s < q + ws
    ensures q % ws != s % ws
  {
    var k := s / ws - q / ws;
    assert q == (q / ws) * ws + q % ws && s == (s / ws) * ws + s % ws;
    assert s - q == k * ws + (s % ws - q % ws) by { Subtract(s / ws, q / ws, ws); }
    MulBound(k, ws);
  }

  lemma Subtract(a: int, b: int, d: int)
    ensures (a - b) * d == a * d - b * d
  {
  }

  lemma ModShift(q: nat, ws: nat)
    requires ws > 0 && q >= ws
    ensures (q - ws) % ws == q % ws
  {
    Subtract(q / ws, 1, ws);
    DivModUnique(q - ws, ws, q / ws - 1, q % ws);
  }

  /** INSERT_STRING as a change of the chains. */
  function Inserted(c: Chains, key: nat, s: nat): Chains
    requires |c.prev| > 0 && key < |c.head|
  {
    c.(prev := c.prev[s % |c.prev| := c.head[key]], head := c.head[key := s], ins := c.ins + {s}, top := s + 1)
  }

  lemma InsertKeeps(c: Chains, h: Hash, end: int, s: nat)
    requires ChainsOk(c, h, end) && c.top <= s && s + 3 <= end && HashAt(h, c.w, s) < |c.head|
    ensures ChainsOk(Inserted(c, HashAt(h, c.w, s), s), h, end)
  {
    hide HashAt;
    var key := HashAt(h, c.w, s);
    var d := Inserted(c, key, s);
    forall q | q in d.ins && q + |d.prev| >= d.top
      ensures LinkOk(d, h, q)
    {
      if q != s {
        assert LinkOk(c, h, q);
        ModDistinct(q, s, |c.prev|);
      } else {
        assert HeadOk(c, h, key);
      }
    }
    forall k | 0 <= k < |d.head| ensures HeadOk(d, h, k) { assert HeadOk(c, h, k); }
  }

  /** New data beyond end changes nothing. */
  lemma FillKeeps(c: Chains, h: Hash, w: seq<byte>, end: int, end': int)
    requires ChainsOk(c, h, end) && end <= end' <= |w| && |w| == |c.w| && forall i :: 0 <= i < end ==> w[i] == c.w[i]
    ensures ChainsOk(c.(w := w), h, end')
  {
    var d := c.(w := w);
    forall q | q in c.ins ensures HashAt(h, w, q) == HashAt(h, c.w, q) { }
    forall k | 0 <= k < |d.head| ensures HeadOk(d, h, k) { assert HeadOk(c, h, k); }
    forall q | q in d.ins && q + |d.prev| >= d.top ensures LinkOk(d, h, q) { assert LinkOk(c, h, q); }
  }

  function Down(p: nat, ws: nat): nat { if p >= ws then p - ws else NIL }

  /** slide_hash as a change of the chains, the window having moved down as well. */
  ghost predicate Slid(c: Chains, d: Chains, ws: nat) {
    && |d.prev| == |c.prev| == ws > 0 && |d.head| == |c.head| && |d.w| == |c.w|
    && (forall i :: 0 <= i < |c.prev| ==> d.prev[i] == Down(c.prev[i], ws))
    && (forall k :: 0 <= k < |c.head| ==> d.head[k] == Down(c.head[k], ws))
    && d.ins == (set q | q in c.ins && q >= ws :: q - ws) && d.top == c.top - ws
  }

  lemma SlideHash(c: Chains, d: Chains, h: Hash, end: int, ws: nat, q: int)
    requires Slid(c, d, ws) && q >= ws && q + 2 < end <= |c.w| && forall i :: ws <= i < end ==> d.w[i - ws] == c.w[i]
    ensures HashAt(h, d.w, q - ws) == HashAt(h, c.w, q)
  {
    assert d.w[q - ws] == c.w[q] && d.w[q + 1 - ws] == c.w[q + 1] && d.w[q + 2 - ws] == c.w[q + 2];
  }

  /** The positions that stay keep their hash. */
  ghost predicate SameHashes(c: Chains, d: Chains, h: Hash, ws: nat) {
    forall r :: r in c.ins && r >= ws ==> HashAt(h, d.w, r - ws) == HashAt(h, c.w, r)
  }

  lemma NewestSlides(c: Chains, d: Chains, h: Hash, ws: nat, key: int, q: int, p: nat)
    requires Slid(c, d, ws) && SameHashes(c, d, h, ws) && Newest(c, h, key, q, p)
    ensures Newest(d, h, key, q - ws, Down(p, ws))
  {
    hide HashAt;
    if p >= ws && p != NIL { assert p - ws in d.ins; }
    forall r | r in d.ins && r < q - ws && HashAt(h, d.w, r) == key ensures r <= Down(p, ws) {
      assert r + ws in c.ins && r + ws - ws == r;
    }
  }

  lemma SlideKeeps(c: Chains, d: Chains, h: Hash, end: int, ws: nat)
    requires ChainsOk(c, h, end) && Slid(c, d, ws) && ws <= end
    requires forall i :: ws <= i < end ==> d.w[i - ws] == c.w[i]
    ensures ChainsOk(d, h, end - ws)
  {
    hide HashAt, Newest;
    forall r | r in c.ins && r >= ws ensures HashAt(h, d.w, r - ws) == HashAt(h, c.w, r) {
      SlideHash(c, d, h, end, ws, r);
    }
    forall q | q in d.ins ensures 0 <= q < d.top && q + ws in c.ins { }
    forall k | 0 <= k < |d.head| ensures HeadOk(d, h, k) {
      assert HeadOk(c, h, k);
      NewestSlides(c, d, h, ws, k, c.top, c.head[k]);
    }
    forall q | q in d.ins && q + |d.prev| >= d.top ensures LinkOk(d, h, q) {
      LinkSlides(c, d, h, ws, q + ws);
    }
  }

  lemma LinkSlides(c: Chains, d: Chains, h: Hash, ws: nat, q: nat)
    requires Slid(c, d, ws) && SameHashes(c, d, h, ws) && q in c.ins && q >= ws && LinkOk(c, h, q)
    ensures LinkOk(d, h, q - ws)
  {
    hide HashAt, Newest;
    ModShift(q, ws);
    NewestSlides(c, d, h, ws, HashAt(h, c.w, q), q, c.prev[q % ws]);
  }

  /** The strings of q's hash from position `from` on up to q. */
  ghost function Chain(c: Chains, h: Hash, from: int, q: int): set<int> {
    set p | p in c.ins && from <= p < q && HashAt(h, c.w, p) == HashAt(h, c.w, q)
  }

  /** Following a link from a position that still has its slot: the next string of the
      chain, with nothing left out between. */
  lemma Follow(c: Chains, h: Hash, end: int, q: nat, s: int)
    requires ChainsOk(c, h, end) && q in c.ins && q + |c.prev| >= c.top && HashAt(h, c.w, q) == HashAt(h, c.w, s)
    requires q < s
    ensures var p := c.prev[q % |c.prev|];
      && (p == NIL || (p in c.ins && p < q && HashAt(h, c.w, p) == HashAt(h, c.w, q)))
      && (p != NIL ==> Chain(c, h, p, s) == Chain(c, h, q, s) + {p})
      && forall r :: p < r <= q ==> Chain(c, h, r, s) == Chain(c, h, q, s)
  {
    hide HashAt;
    assert LinkOk(c, h, q);
  }
}
