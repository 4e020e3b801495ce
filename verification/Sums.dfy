/** Sums over finite sets of numbers, each number having a weight. */
module Sums {

  /** The weight of x, 0 where none is given. */
  function At(w: seq<nat>, x: nat): nat {
    if x < |w| then w[x] else 0
  }

  ghost function Sum(a: set<nat>, f: seq<nat>): nat {
    if a == {} then 0 else
      var x :| x in a;
      At(f, x) + Sum(a - {x}, f)
  }

  lemma {:induction false} SumOut(a: set<nat>, f: seq<nat>, x: nat)
    requires x in a
    ensures Sum(a, f) == At(f, x) + Sum(a - {x}, f)
    decreases |a|
  {
    var y :| y in a && Sum(a, f) == At(f, y) + Sum(a - {y}, f);
    if y != x {
      SumOut(a - {y}, f, x);
      SumOut(a - {x}, f, y);
      assert a - {y} - {x} == a - {x} - {y};
    }
  }

  lemma SumIn(a: set<nat>, f: seq<nat>, x: nat)
    requires x !in a
    ensures Sum(a + {x}, f) == At(f, x) + Sum(a, f)
  {
    SumOut(a + {x}, f, x);
    assert a + {x} - {x} == a;
  }

  lemma {:induction false} SumEq(a: set<nat>, f: seq<nat>, g: seq<nat>)
    requires forall x :: x in a ==> At(f, x) == At(g, x)
    ensures Sum(a, f) == Sum(a, g)
    decreases |a|
  {
    if x :| x in a {
      SumOut(a, f, x);
      SumOut(a, g, x);
      SumEq(a - {x}, f, g);
    }
  }

  lemma {:induction false} SumLe(a: set<nat>, f: seq<nat>, g: seq<nat>)
    requires forall x :: x in a ==> At(f, x) <= At(g, x)
    ensures Sum(a, f) <= Sum(a, g)
    decreases |a|
  {
    if x :| x in a {
      SumOut(a, f, x);
      SumOut(a, g, x);
      SumLe(a - {x}, f, g);
    }
  }

  lemma {:induction false} SumScale(a: set<nat>, f: seq<nat>, g: seq<nat>, c: nat)
    requires forall x :: x in a ==> At(g, x) == c * At(f, x)
    ensures Sum(a, g) == c * Sum(a, f)
    decreases |a|
  {
    if x :| x in a {
      SumOut(a, f, x);
      SumOut(a, g, x);
      SumScale(a - {x}, f, g, c);
      Distributes(c, At(f, x), Sum(a - {x}, f));
    }
  }

  lemma Distributes(c: nat, u: nat, v: nat)
    ensures c * (u + v) == c * u + c * v
  {
  }

  lemma {:induction false} SumPlus(a: set<nat>, f: seq<nat>, g: seq<nat>, h: seq<nat>)
    requires forall x :: x in a ==> At(h, x) == At(f, x) + At(g, x)
    ensures Sum(a, h) == Sum(a, f) + Sum(a, g)
    decreases |a|
  {
    if x :| x in a {
      SumOut(a, f, x);
      SumOut(a, g, x);
      SumOut(a, h, x);
      SumPlus(a - {x}, f, g, h);
    }
  }

  lemma {:induction false} SumUnion(a: set<nat>, b: set<nat>, f: seq<nat>)
    requires a !! b
    ensures Sum(a + b, f) == Sum(a, f) + Sum(b, f)
    decreases |b|
  {
    if x :| x in b {
      SumOut(b, f, x);
      SumOut(a + b, f, x);
      assert a + b - {x} == a + (b - {x});
      SumUnion(a, b - {x}, f);
    } else {
      assert a + b == a;
    }
  }

  lemma {:induction false} SumOnes(a: set<nat>, f: seq<nat>)
    requires forall x :: x in a ==> At(f, x) == 1
    ensures Sum(a, f) == |a|
    decreases |a|
  {
    if x :| x in a {
      SumOut(a, f, x);
      SumOnes(a - {x}, f);
    }
  }

  /** Two values apart from the rest. */
  lemma SumTwo(a: set<nat>, f: seq<nat>, x: nat, y: nat)
    requires x in a && y in a && x != y
    ensures Sum(a, f) == At(f, x) + At(f, y) + Sum(a - {x, y}, f)
  {
    SumOut(a, f, x);
    SumOut(a - {x}, f, y);
    assert a - {x} - {y} == a - {x, y};
  }

  /** An element that attains the maximum. */
  lemma {:induction false} ArgMax(a: set<nat>, f: seq<nat>) returns (x: nat)
    requires a != {}
    ensures x in a && forall y :: y in a ==> At(f, y) <= At(f, x)
    decreases |a|
  {
    var z :| z in a;
    if a == {z} {
      x := z;
    } else {
      assert a - {z} != {};
      x := ArgMax(a - {z}, f);
      if At(f, x) < At(f, z) { x := z; }
    }
  }
}
