/** What the deflate format (RFC 1951) says apart from prefix codes: the fixed codes,
the run-length code of code lengths, and the meaning of literals and matches. */
module Format {
  import opened Bits
  import opened BitStream

  /** Number of symbols of the bit length alphabet. */
  const BL_CODES := 19
  const REP_3_6 := 16
  const REPZ_3_10 := 17
  const REPZ_11_138 := 18

  /** The order in which the lengths of the bit length codes travel. */
  const BL_ORDER: seq<nat> := [16, 17, 18, 0, 8, 7, 9, 6, 10, 5, 11, 4, 12, 3, 13, 2, 14, 1, 15]

  /** Lengths of the fixed codes (RFC 1951 section 3.2.6). */
  function FixedLitLens(): (r: seq<nat>)
    ensures |r| == 288
  {
    seq(288, i => if i <= 143 then 8 else if i <= 255 then 9 else if i <= 279 then 7 else 8)
  }

  function FixedDistLens(): (r: seq<nat>)
    ensures |r| == 32
  {
    seq(32, _ => 5)
  }

  /** A symbol of the bit length alphabet with its repeat field (RFC 1951 section 3.2.7). */
  datatype Rle = Rle(sym: nat, extra: nat)

  /** Width of the repeat field. */
  function ExtraBlBits(sym: nat): nat {
    if sym == REP_3_6 then 2 else if sym == REPZ_3_10 then 3 else if sym == REPZ_11_138 then 7 else 0
  }

  ghost predicate ValidRle(op: Rle) {
    op.sym < BL_CODES && op.extra < Pow2(ExtraBlBits(op.sym))
  }

  function Repeat(v: nat, n: nat): seq<nat> {
    seq(n, _ => v)
  }

  /** What one symbol appends to the lengths so far. */
  function Append(acc: seq<nat>, op: Rle): seq<nat>
    requires op.sym == REP_3_6 ==> |acc| > 0
  {
    if op.sym < 16 then acc + [op.sym]
    else if op.sym == REP_3_6 then acc + Repeat(acc[|acc| - 1], 3 + op.extra)
    else if op.sym == REPZ_3_10 then acc + Repeat(0, 3 + op.extra)
    else acc + Repeat(0, 11 + op.extra)
  }

  /** A literal byte, or a string of len bytes found dist bytes back. */
  datatype Token = Lit(c: nat) | Match(len: nat, dist: nat)

  ghost predicate ValidToken(t: Token) {
    match t
    case Lit(c) => c < 256
    case Match(len, dist) => 3 <= len <= 258 && 1 <= dist <= 32768
  }

  ghost predicate ValidTokens(ts: seq<Token>) {
    forall i :: 0 <= i < |ts| ==> ValidToken(ts[i])
  }

  // ------------------------------------------------------- what tokens mean

  /** len bytes, each a copy of the one dist positions back. */
  function CopyMatch(out: seq<byte>, len: nat, dist: nat): (r: seq<byte>)
    requires 1 <= dist <= |out|
    ensures |r| == |out| + len && out <= r
    decreases len
  {
    if len == 0 then out else CopyMatch(out + [out[|out| - dist]], len - 1, dist)
  }

  /** A token refers to bytes that exist. */
  ghost predicate InReach(out: seq<byte>, t: Token) {
    t.Match? ==> 1 <= t.dist <= |out|
  }

  /** out with what the token stands for appended; nothing for one out of reach. */
  function ExpandOne(out: seq<byte>, t: Token): (r: seq<byte>)
    ensures out <= r
  {
    match t
    case Lit(c) => out + [c % 256]
    case Match(len, dist) => if 1 <= dist <= |out| then CopyMatch(out, len, dist) else out
  }

  function Expand(out: seq<byte>, ts: seq<Token>): (r: seq<byte>)
    ensures out <= r
  {
    if |ts| == 0 then out else ExpandOne(Expand(out, ts[..|ts| - 1]), ts[|ts| - 1])
  }

  /** Every match refers back to bytes the tokens before it, or out, have produced. */
  ghost predicate AllInReach(out: seq<byte>, ts: seq<Token>) {
    forall k :: 0 <= k < |ts| ==> InReach(Expand(out, ts[..k]), ts[k])
  }

  lemma ExpandSnoc(out: seq<byte>, ts: seq<Token>, t: Token)
    ensures Expand(out, ts + [t]) == ExpandOne(Expand(out, ts), t)
  {
    assert (ts + [t])[..|ts|] == ts;
  }
}
