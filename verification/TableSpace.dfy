/** inftrees.c: how many entries the decoding tables of a code take. */
module TableSpace {
  import opened Bits
  import opened Canonical

  /** The longest length in use, 0 if there is none. */
  function MaxLen(lens: seq<nat>): (m: nat)
    ensures forall i :: 0 <= i < |lens| ==> lens[i] <= m
    ensures m > 0 ==> m in lens
  {
    if |lens| == 0 then 0
    else
      var m := MaxLen(lens[..|lens| - 1]);
      if lens[|lens| - 1] > m then lens[|lens| - 1] else m
  }

  /** The shortest length in use, 0 if there is none. */
  function MinLen(lens: seq<nat>): (m: nat)
    ensures forall i :: 0 <= i < |lens| && lens[i] != 0 ==> 0 < m <= lens[i]
    ensures m > 0 ==> m in lens
  {
    if |lens| == 0 then 0
    else
      var m := MinLen(lens[..|lens| - 1]);
      if lens[|lens| - 1] != 0 && (m == 0 || lens[|lens| - 1] < m) then lens[|lens| - 1] else m
  }

  /** Index bits of the root table: as requested, forced to be within the code lengths. */
  function RootOf(lens: seq<nat>, bits: nat): nat {
    var r := if bits > MaxLen(lens) then MaxLen(lens) else bits;
    if r < MinLen(lens) then MinLen(lens) else r
  }

  /** Some code longer than root starts with the root bits that b stands for. */
  ghost predicate HasLong(lens: seq<nat>, root: nat, b: nat) {
    exists s: nat {:trigger CodeOf(lens, s)} ::
      s < |lens| && lens[s] > root && Shr(CodeOf(lens, s), lens[s] - root) == b
  }

  /** Index bits of the sub-table of block b: the fewest, from c up, that take all its codes. */
  function SubBits(lens: seq<nat>, root: nat, max: nat, b: nat, c: nat): nat
    decreases max - (root + c)
  {
    if root + c >= max || Used(lens, root + c) >= (b + 1) * Pow2(c) then c
    else SubBits(lens, root, max, b, c + 1)
  }

  /** Entries in the sub-tables of the first n blocks. */
  ghost function SubSpace(lens: seq<nat>, root: nat, max: nat, n: nat): nat {
    if n == 0 then 0
    else
      SubSpace(lens, root, max, n - 1)
      + (if HasLong(lens, root, n - 1) then Pow2(SubBits(lens, root, max, n - 1, 1)) else 0)
  }

  /** Entries in all tables for a code. */
  ghost function SpaceNeeded(lens: seq<nat>, bits: nat): nat {
    var root := RootOf(lens, bits);
    Pow2(root) + SubSpace(lens, root, MaxLen(lens), Pow2(root))
  }

  lemma {:induction false} SubSpaceMono(lens: seq<nat>, root: nat, max: nat, a: nat, b: nat)
    requires a <= b
    ensures SubSpace(lens, root, max, a) <= SubSpace(lens, root, max, b)
    decreases b
  {
    if a < b { SubSpaceMono(lens, root, max, a, b - 1); }
  }

  lemma {:induction false} SubSpaceSkip(lens: seq<nat>, root: nat, max: nat, a: nat, b: nat)
    requires a <= b && forall x: nat :: a <= x < b ==> !HasLong(lens, root, x)
    ensures SubSpace(lens, root, max, b) == SubSpace(lens, root, max, a)
    decreases b
  {
    if a < b { SubSpaceSkip(lens, root, max, a, b - 1); }
  }

  /** No size below the first code length of the block is enough. */
  lemma {:induction false} SubBitsFrom(lens: seq<nat>, root: nat, max: nat, b: nat, c: nat, d: nat)
    requires 1 <= c <= d && root + d <= max
    requires Used(lens, root + d - 1) * 2 < (b + 1) * Pow2(d)
    ensures SubBits(lens, root, max, b, c) == SubBits(lens, root, max, b, d)
    decreases d - c
  {
    if c < d {
      if Used(lens, root + c) >= (b + 1) * Pow2(c) {
        UsedGrows(lens, root + c, root + d - 1);
        MulMono((b + 1) * Pow2(c), Used(lens, root + c), Pow2(d - 1 - c));
        Pow2Sum(c, d - 1 - c);
        assert root + d - 1 - (root + c) == d - 1 - c && c + (d - 1 - c) == d - 1;
        MulAssoc(b + 1, Pow2(c), Pow2(d - 1 - c));
        TimesDouble(b + 1, Pow2(d - 1));
      }
      SubBitsFrom(lens, root, max, b, c + 1, d);
    }
  }
}
