/** Bytes, and facts about sequences and sets that several models use. */
module Basics {
  type byte = x: int | 0 <= x < 0x100

  function Pow2(n: nat): (p: nat)
    ensures p > 0
  {
    if n == 0 then 1 else 2 * Pow2(n - 1)
  }

  predicate OccursAt<T(==)>(s: seq<T>, part: seq<T>, at: nat) {
    at + |part| <= |s| && s[at..at + |part|] == part
  }

  ghost predicate Contains<T>(s: seq<T>, part: seq<T>) {
    exists at: nat :: OccursAt(s, part, at)
  }

  lemma Associative<T>(x: seq<T>, y: seq<T>, z: seq<T>)
    ensures (x + y) + z == x + (y + z)
  {
  }

  lemma SubsetSize<T>(a: set<T>, b: set<T>)
    requires a <= b
    ensures |a| <= |b|
  {
    assert b == a + (b - a);
  }

  lemma Product(x: nat, y: nat)
    ensures x * y >= 0
  {
  }

  lemma Monotone(p: nat, x: int, y: int)
    requires x < y
    ensures p * x + p <= p * y
  {
    Product(p, y - x - 1);
    assert p * y == p * x + p + p * (y - x - 1);
  }

  lemma QuotientIs(n: int, p: nat, low: nat, rest: nat)
    requires low < p && n == low + p * rest
    ensures n / p == rest
  {
    var q := n / p;
    assert n == p * q + n % p;
    if q < rest {
      Monotone(p, q, rest);
    } else if q > rest {
      Monotone(p, rest, q);
    }
  }

  function Sum(xs: seq<nat>): nat {
    if xs == [] then 0 else Sum(xs[..|xs| - 1]) + xs[|xs| - 1]
  }

  lemma SumOneMore(xs: seq<nat>, x: nat)
    ensures Sum(xs + [x]) == Sum(xs) + x && Sum([x]) == x
  {
    assert (xs + [x])[..|xs|] == xs;
    assert [x][..0] == [];
  }

  function RealSum(xs: seq<real>): real {
    if xs == [] then 0.0 else RealSum(xs[..|xs| - 1]) + xs[|xs| - 1]
  }

  lemma RealSumOneMore(xs: seq<real>, x: real)
    ensures RealSum(xs + [x]) == RealSum(xs) + x && RealSum([x]) == x
  {
    assert (xs + [x])[..|xs|] == xs;
    assert [x][..0] == [];
  }
}
