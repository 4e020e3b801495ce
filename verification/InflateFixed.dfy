/** inftrees.c: the tables of the fixed codes take exactly the space set aside for them. */
module InflateFixed {
  import opened Bits
  import opened Canonical
  import opened Format
  import opened TableSpace
  import opened InfTrees

  /** Codes no longer than the first level need no second one. */
  lemma OneLevel(lens: seq<nat>, bits: nat)
    requires MaxLen(lens) == bits && bits > 0
    ensures RootOf(lens, bits) == bits && SpaceNeeded(lens, bits) == Pow2(bits)
  {
    hide Pow2;
    assert MinLen(lens) <= bits;
    forall x: nat | 0 <= x < Pow2(bits)
      ensures !HasLong(lens, bits, x)
    {
    }
    SubSpaceSkip(lens, bits, bits, 0, Pow2(bits));
  }

  lemma FixedLitSpace()
    ensures RootOf(FixedLitLens(), 9) == 9 && SpaceNeeded(FixedLitLens(), 9) == 512 && !Empty(FixedLitLens())
    ensures ValidLengths(FixedLitLens())
  {
    hide MaxLen, MinLen, SpaceNeeded, RootOf;
    Pow2Values();
    var lens := FixedLitLens();
    assert lens[200] == 9;
    assert MaxLen(lens) == 9;
    OneLevel(lens, 9);
  }

  lemma FixedDistSpace()
    ensures RootOf(FixedDistLens(), 5) == 5 && SpaceNeeded(FixedDistLens(), 5) == 32 && !Empty(FixedDistLens())
    ensures ValidLengths(FixedDistLens())
  {
    hide MaxLen, MinLen, SpaceNeeded, RootOf;
    Pow2Values();
    var lens := FixedDistLens();
    assert lens[0] == 5;
    assert MaxLen(lens) == 5;
    OneLevel(lens, 5);
  }
}
