/** Cardinalities of finite sets of numbers, and sequences without repetition. */
module Counting {

  ghost predicate Distinct(q: seq<nat>) {
    forall i, j :: 0 <= i < j < |q| ==> q[i] != q[j]
  }

  /** The sequence without its first x. */
  function Without(q: seq<nat>, x: nat): seq<nat> {
    if q == [] then [] else if q[0] == x then q[1..] else [q[0]] + Without(q[1..], x)
  }

  lemma {:induction false} WithoutAt(q: seq<nat>, i: nat)
    requires Distinct(q) && i < |q|
    ensures Without(q, q[i]) == q[..i] + q[i + 1..]
  {
    if i > 0 {
      WithoutAt(q[1..], i - 1);
      assert q[1..][..i - 1] == q[1..i];
      assert q[..i] == [q[0]] + q[1..i];
      assert q[1..][i..] == q[i + 1..];
    }
  }

  lemma {:induction false} SubsetSize(a: set<nat>, b: set<nat>)
    requires a <= b
    ensures |a| <= |b|
  {
    if a != {} {
      var x :| x in a;
      SubsetSize(a - {x}, b - {x});
    }
  }

  /** Two sets that agree except on i differ in size by whether they hold i. */
  lemma {:induction false} SizeMoves(a: set<nat>, b: set<nat>, i: nat)
    requires forall x :: x != i ==> (x in a <==> x in b)
    ensures |b| - (if i in b then 1 else 0) == |a| - if i in a then 1 else 0
  {
    assert a - {i} == b - {i};
    assert |a - {i}| == |a| - if i in a then 1 else 0;
    assert |b - {i}| == |b| - if i in b then 1 else 0;
  }

  lemma {:induction false} AtMostOne(a: set<nat>, i: nat, j: nat)
    requires |a| <= 1 && i in a && j in a
    ensures i == j
  {
    if i != j {
      SubsetSize({i, j}, a);
      assert false;
    }
  }

  ghost function Elements(q: seq<nat>): set<nat> {
    set x | x in q
  }

  lemma {:induction false} DistinctSize(q: seq<nat>)
    requires Distinct(q)
    ensures |Elements(q)| == |q|
  {
    if q != [] {
      var p := q[..|q| - 1];
      DistinctSize(p);
      assert Elements(q) == Elements(p) + {q[|q| - 1]};
    }
  }

  ghost function Below(n: nat): (r: set<nat>)
    ensures |r| == n && forall x: nat :: x in r <==> x < n
  {
    if n == 0 then {} else Below(n - 1) + {n - 1}
  }

  /** Distinct numbers below n: at most n of them, and fewer when some number x below n is missing. */
  lemma {:induction false} Pigeonhole(q: seq<nat>, n: nat, x: nat)
    requires Distinct(q) && forall i :: 0 <= i < |q| ==> q[i] < n
    ensures |q| <= n
    ensures x < n && x !in q ==> |q| < n
  {
    DistinctSize(q);
    SubsetSize(Elements(q), Below(n));
    if x < n && x !in q {
      SubsetSize(Elements(q), Below(n) - {x});
    }
  }
}
