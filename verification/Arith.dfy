/** Powers of two, alignment and the binary arithmetic shared by the allocator and the page tables. */
module Arith {

  function Pow2(k: nat): (r: nat)
    ensures r >= 1
  {
    if k == 0 then 1 else 2 * Pow2(k - 1)
  }

  /** p is a multiple of 2^k, said bit by bit so that proofs about it stay linear. */
  predicate Aligned(p: nat, k: nat)
    decreases k
  {
    k == 0 || (p % 2 == 0 && Aligned(p / 2, k - 1))
  }

  /** Where current ^ (1 << k) lands for a k-aligned current: bit k is flipped. */
  function Buddy(p: nat, k: nat): int {
    if Aligned(p, k + 1) then p + Pow2(k) else p - Pow2(k)
  }

  lemma {:induction false} AlignedIsMultiple(p: nat, k: nat)
    ensures Aligned(p, k) <==> p % Pow2(k) == 0
    decreases k
  {
    if k > 0 {
      var q := Pow2(k - 1);
      AlignedIsMultiple(p / 2, k - 1);
      DoubleModulus(p, q);
    }
  }

  lemma {:induction false} DoubleModulus(p: nat, q: nat)
    requires q >= 1
    ensures p % (2 * q) == 0 <==> p % 2 == 0 && (p / 2) % q == 0
  {
    if p % (2 * q) == 0 {
      var d := p / (2 * q);
      assert p == 2 * (q * d);
      assert p / 2 == q * d + 0;
      MultipleHasNoRemainder(q, d);
    }
    if p % 2 == 0 && (p / 2) % q == 0 {
      var d := (p / 2) / q;
      assert p == (2 * q) * d;
      MultipleHasNoRemainder(2 * q, d);
    }
  }

  lemma {:induction false} MultipleHasNoRemainder(q: nat, d: nat)
    requires q >= 1
    ensures (q * d) % q == 0
  {
    var x := q * d;
    var e := x / q;
    assert x == q * e + x % q;
    assert q * (d - e) == x % q;
    ScalesPast(q, d - e);
  }

  lemma {:induction false} ScalesPast(q: int, c: int)
    requires q >= 1
    ensures c >= 1 ==> q * c >= q
    ensures c <= -1 ==> q * c <= -q
  {
    if c >= 1 {
      assert q * c == q * (c - 1) + q;
    } else {
      assert q * c == q * (c + 1) - q;
    }
  }

  lemma {:induction false} AlignedHalves(p: nat, k: nat)
    requires Aligned(p, k + 1)
    ensures Aligned(p, k) && Aligned(p + Pow2(k), k) && !Aligned(p + Pow2(k), k + 1)
    decreases k
  {
    if k > 0 {
      AlignedHalves(p / 2, k - 1);
      assert (p + Pow2(k)) / 2 == p / 2 + Pow2(k - 1);
    }
  }

  lemma {:induction false} OddBlock(p: nat, k: nat)
    requires Aligned(p, k) && !Aligned(p, k + 1)
    ensures p >= Pow2(k) && Aligned(p - Pow2(k), k + 1)
    decreases k
  {
    if k > 0 {
      OddBlock(p / 2, k - 1);
      assert (p - Pow2(k)) / 2 == p / 2 - Pow2(k - 1);
    }
  }

  lemma {:induction false} AlignedDown(p: nat, j: nat, k: nat)
    requires j <= k && Aligned(p, k)
    ensures Aligned(p, j)
    decreases j
  {
    if j > 0 {
      AlignedDown(p / 2, j - 1, k - 1);
    }
  }

  /** Two aligned blocks are nested or disjoint. */
  lemma {:induction false} NestedOrDisjoint(p: nat, j: nat, q: nat, k: nat)
    requires j <= k && Aligned(p, j) && Aligned(q, k)
    ensures p + Pow2(j) <= q || q + Pow2(k) <= p || (q <= p && p + Pow2(j) <= q + Pow2(k))
    decreases j
  {
    if j > 0 {
      NestedOrDisjoint(p / 2, j - 1, q / 2, k - 1);
    }
  }

  lemma {:induction false} Pow2Grows(j: nat, k: nat)
    requires j <= k
    ensures Pow2(j) <= Pow2(k) && (j < k ==> 2 * Pow2(j) <= Pow2(k))
    decreases k
  {
    if j < k {
      Pow2Grows(j, k - 1);
    }
  }

  /** The buddy of an aligned block is the other half of the block one order up. */
  lemma {:induction false} BuddyHalves(p: nat, k: nat)
    requires Aligned(p, k)
    ensures Buddy(p, k) >= 0 && Buddy(p, k) != p
    ensures Aligned(Buddy(p, k), k) && Buddy(Buddy(p, k), k) == p
    ensures var q := if Buddy(p, k) < p then Buddy(p, k) else p;
            Aligned(q, k + 1) && {p, Buddy(p, k)} == {q, q + Pow2(k)}
  {
    if Aligned(p, k + 1) {
      AlignedHalves(p, k);
    } else {
      OddBlock(p, k);
      AlignedHalves(p - Pow2(k), k);
    }
  }

  lemma {:induction false} Quotient(d: nat, q: nat, r: nat, x: nat)
    requires r < d && x == d * q + r
    ensures x / d == q && x % d == r
  {
    var e := x / d;
    assert x == d * e + x % d;
    assert d * (q - e) == x % d - r;
    ScalesPast(d, q - e);
  }
}
