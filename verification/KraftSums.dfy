/** The Kraft sum of a vector of lengths as a sum over its symbols, and the Kraft
inequality for prefix codes. */
module KraftSums {
  import opened Bits
  import opened Canonical
  import opened Sums
  import opened Huffman

  function InUse(lens: seq<nat>, n: nat): set<nat> {
    set s | 0 <= s < |lens| && 1 <= lens[s] <= n
  }

  function Exactly(lens: seq<nat>, n: nat): set<nat> {
    set s | 0 <= s < |lens| && lens[s] == n
  }

  lemma {:induction false} CountIsSize(lens: seq<nat>, n: nat)
    ensures |Exactly(lens, n)| == Count(lens, n)
  {
    if |lens| > 0 {
      var m := |lens| - 1;
      CountIsSize(lens[..m], n);
      assert Exactly(lens, n) == Exactly(lens[..m], n) + (if lens[m] == n then {m} else {});
    }
  }

  /** The recursive sum over lengths is the sum over symbols. */
  lemma {:induction false} UsedIsKraft(lens: seq<nat>, n: nat)
    ensures Used(lens, n) == Kraft(InUse(lens, n), lens, n)
  {
    hide Share, Sum, Count;
    var a := InUse(lens, n);
    if n == 0 {
      assert a == {};
      NoSum(Shares(lens, 0));
    } else {
      var b, c := InUse(lens, n - 1), Exactly(lens, n);
      UsedIsKraft(lens, n - 1);
      assert a == b + c;
      SumUnion(b, c, Shares(lens, n));
      forall x | x in b ensures Shares(lens, n)[x] == 2 * Shares(lens, n - 1)[x] { DoubleShare(lens[x], n); }
      SumScale(b, Shares(lens, n - 1), Shares(lens, n), 2);
      forall x | x in c ensures Shares(lens, n)[x] == 1 { UnitShare(n); }
      SumOnes(c, Shares(lens, n));
      CountIsSize(lens, n);
    }
  }

  lemma NoSum(w: seq<nat>)
    ensures Sum({}, w) == 0
  {
  }

  lemma DoubleShare(l: nat, n: nat)
    requires l < n
    ensures Share(l, n) == 2 * Share(l, n - 1)
  {
  }

  lemma UnitShare(n: nat)
    ensures Share(n, n) == 1
  {
  }

  // -------------------------------------------------------- Kraft's inequality

  /** No word of a symbol in a is a prefix of another's. */
  ghost predicate PrefixCode(a: set<nat>, words: seq<seq<bool>>) {
    (forall x :: x in a ==> x < |words|) &&
    forall x, y :: x in a && y in a && x != y ==> !(words[x] <= words[y])
  }

  ghost function Lengths(words: seq<seq<bool>>): (r: seq<nat>)
    ensures |r| == |words| && forall x :: 0 <= x < |r| ==> r[x] == |words[x]|
  {
    seq(|words|, x requires 0 <= x < |words| => |words[x]|)
  }

  ghost function Tails(words: seq<seq<bool>>): (r: seq<seq<bool>>)
    ensures |r| == |words| && forall x :: 0 <= x < |r| ==> r[x] == if words[x] == [] then [] else words[x][1..]
  {
    seq(|words|, x requires 0 <= x < |words| => if words[x] == [] then [] else words[x][1..])
  }

  ghost function Starting(a: set<nat>, words: seq<seq<bool>>, b: bool): set<nat> {
    set x | x in a && x < |words| && words[x] != [] && words[x][0] == b
  }

  /** Lengths of words none of which is a prefix of another are feasible. */
  lemma {:induction false} KraftInequality(a: set<nat>, words: seq<seq<bool>>, n: nat)
    requires PrefixCode(a, words) && forall x :: x in a ==> |words[x]| <= n
    ensures Feasible(a, Lengths(words), n)
    decreases n
  {
    hide Share, Sum, Pow2;
    var len := Lengths(words);
    if x :| x in a && words[x] == [] {
      assert a == {x} by { forall y | y in a ensures y == x { EmptyPrefix(words[x], words[y]); } }
      KraftOne(x, len, n);
    } else if n == 0 {
      forall y ensures y !in a { }
      assert a == {};
      NoSum(Shares(len, n));
    } else {
      KraftHalf(a, words, n, false);
      KraftHalf(a, words, n, true);
      SumUnion(Starting(a, words, false), Starting(a, words, true), Shares(len, n));
      assert Starting(a, words, false) + Starting(a, words, true) == a;
      PowStep(n);
    }
  }

  lemma EmptyPrefix(u: seq<bool>, v: seq<bool>)
    ensures u == [] ==> u <= v
  {
  }

  lemma TailPrefix(u: seq<bool>, v: seq<bool>)
    ensures u != [] && v != [] && u[0] == v[0] && u[1..] <= v[1..] ==> u <= v
  {
    if u != [] && v != [] && u[0] == v[0] && u[1..] <= v[1..] {
      assert u == [u[0]] + u[1..] && v == [v[0]] + v[1..];
    }
  }

  /** The words that start with one given bit take at most half. */
  lemma {:induction false} KraftHalf(a: set<nat>, words: seq<seq<bool>>, n: nat, b: bool)
    requires PrefixCode(a, words) && n > 0 && forall x :: x in a ==> |words[x]| <= n
    ensures Kraft(Starting(a, words, b), Lengths(words), n) <= Pow2(n - 1)
    decreases n, 0
  {
    hide Sum, Pow2, Kraft;
    var half, tails := Starting(a, words, b), Tails(words);
    forall x, y | x in half && y in half && x != y
      ensures !(tails[x] <= tails[y])
    {
      TailPrefix(words[x], words[y]);
    }
    KraftInequality(half, tails, n - 1);
    SameShares(half, Lengths(words), Lengths(tails), n);
  }

  lemma SameShares(a: set<nat>, len: seq<nat>, less: seq<nat>, n: nat)
    requires n > 0 && |len| == |less| && forall x :: x in a ==> x < |len| && 1 <= len[x] <= n && less[x] == len[x] - 1
    ensures Kraft(a, len, n) == Kraft(a, less, n - 1)
  {
    hide Sum;
    SumEq(a, Shares(len, n), Shares(less, n - 1));
  }
}
