/** The fixed codes of RFC 1951 section 3.2.6 are complete. */
module FixedCodes {
  import opened Bits
  import opened Canonical
  import opened Format

  lemma {:induction false} CountConcat(a: seq<nat>, b: seq<nat>, v: nat)
    ensures Count(a + b, v) == Count(a, v) + Count(b, v)
  {
    if |b| == 0 {
      assert a + b == a;
    } else {
      assert (a + b)[..|a + b| - 1] == a + b[..|b| - 1];
      CountConcat(a, b[..|b| - 1], v);
    }
  }

  lemma {:induction false} CountRepeat(len: nat, n: nat, v: nat)
    ensures Count(Repeat(len, n), v) == if v == len then n else 0
  {
    if n > 0 {
      assert Repeat(len, n)[..n - 1] == Repeat(len, n - 1);
      CountRepeat(len, n - 1, v);
    }
  }

  lemma FixedLitCount(v: nat)
    ensures Count(FixedLitLens(), v) == if v == 7 then 24 else if v == 8 then 152 else if v == 9 then 112 else 0
  {
    hide Count;
    var a, b, c, d := Repeat(8, 144), Repeat(9, 112), Repeat(7, 24), Repeat(8, 8);
    assert FixedLitLens() == a + b + c + d;
    CountConcat(a + b + c, d, v);
    CountConcat(a + b, c, v);
    CountConcat(a, b, v);
    CountRepeat(8, 144, v);
    CountRepeat(9, 112, v);
    CountRepeat(7, 24, v);
    CountRepeat(8, 8, v);
  }

  /** The fixed literal/length code is complete. */
  lemma FixedLitComplete()
    ensures Complete(FixedLitLens()) && ValidLengths(FixedLitLens())
  {
    hide FixedLitLens, Count;
    var lens := FixedLitLens();
    forall v: nat
      ensures Count(lens, v) == if v == 7 then 24 else if v == 8 then 152 else if v == 9 then 112 else 0
    {
      FixedLitCount(v);
    }
    UsedJump(lens, 0, 6);
    assert Used(lens, 7) == 24 && Used(lens, 8) == 200 && Used(lens, 9) == 512;
    UsedJump(lens, 9, 15);
    Pow2Values();
    assert ValidLengths(lens) by { FixedLitBound(); }
  }

  lemma FixedLitBound()
    ensures ValidLengths(FixedLitLens())
  {
  }

  /** So is the fixed distance code. */
  lemma FixedDistComplete()
    ensures Complete(FixedDistLens()) && ValidLengths(FixedDistLens())
  {
    hide Count;
    var lens := FixedDistLens();
    assert lens == Repeat(5, 32);
    forall v: nat ensures Count(lens, v) == if v == 5 then 32 else 0 { CountRepeat(5, 32, v); }
    UsedJump(lens, 0, 4);
    assert Used(lens, 5) == 32;
    UsedJump(lens, 5, 15);
    Pow2Values();
  }
}
