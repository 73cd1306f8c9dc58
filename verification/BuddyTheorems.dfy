/** The canonical form of the buddy allocator: its free blocks are the maximal aligned runs of free pages. */
module BuddyTheorems {
  import opened Options
  import opened Arith
  import opened BuddyPool
  import opened BuddyOps

  // ---- canonical form

  /** An aligned run of 2^k pages that are all free. */
  ghost predicate FreeRun(s: Pool, p: nat, k: nat) {
    k <= 16 && Aligned(p, k) && p + Pow2(k) <= s.total && AllAre(s, p, p + Pow2(k), Free)
  }

  /** Start of the aligned run of order k+1 that contains the aligned run (p,k). */
  function Parent(p: nat, k: nat): (q: nat)
    requires Aligned(p, k)
    ensures Aligned(q, k + 1) && q <= p && p + Pow2(k) <= q + Pow2(k + 1)
  {
    if Aligned(p, k + 1) then p
    else
      OddBlock(p, k);
      p - Pow2(k)
  }

  lemma {:induction false} RunInsideBlock(s: Pool, p: nat, k: nat)
    requires Valid(s) && FreeRun(s, p, k)
    ensures var h := s.owner[p];
            h <= p < s.total && s.state[h] == Free && k <= s.order[h] <= MAX_ORDER && Aligned(h, s.order[h])
            && p + Pow2(k) <= h + Pow2(s.order[h]) <= s.total
    decreases k
  {
    assert PageOk(s, 0, 0, p);
    var h := s.owner[p];
    assert BlockOk(s, 0, 0, h);
    assert ClassOf(s, p) == Free;
    if k > 0 {
      var j := k - 1;
      var q := p + Pow2(j);
      AlignedHalves(p, j);
      HalfRuns(s, p, j, q);
      RunInsideBlock(s, p, j);
      RunInsideBlock(s, q, j);
      if s.order[h] == j {
        HalvesAreOneBlock(s, p, j, q, s.owner[q]);
        assert false;
      }
      NestedOrDisjoint(p, k, h, s.order[h]);
    }
  }

  lemma {:induction false} HalfRuns(s: Pool, p: nat, j: nat, q: nat)
    requires FreeRun(s, p, j + 1) && q == p + Pow2(j)
    ensures FreeRun(s, p, j) && FreeRun(s, q, j)
  {
    AlignedHalves(p, j);
  }

  /** A free run is never made of two blocks of its half order: they would have been merged. */
  lemma {:induction false} HalvesAreOneBlock(s: Pool, p: nat, j: nat, q: nat, g: nat)
    requires Valid(s) && j < MAX_ORDER && Aligned(p, j + 1) && q == p + Pow2(j) && q < s.total
    requires g == s.owner[q] && g <= q && s.state[g] == Free && j <= s.order[g] <= MAX_ORDER && Aligned(g, s.order[g])
    requires q + Pow2(j) <= g + Pow2(s.order[g]) <= s.total
    ensures !IsFree(s, p, j)
  {
    assert BlockOk(s, 0, 0, p) && BlockOk(s, 0, 0, g);
    if s.order[g] == j {
      assert NoFreeBuddy(s, 0, 0, p, j);
    } else {
      NestedOrDisjoint(p, j + 1, g, s.order[g]);
      assert s.owner[p] == g;
    }
  }

  lemma {:induction false} OneOwner(s: Pool, q: nat, k: nat, p: nat)
    requires Valid(s) && FreeRun(s, q, k) && q <= p < q + Pow2(k)
    ensures s.owner[p] == s.owner[q] && s.owner[p] < MAX_PAGES && s.order[s.owner[p]] >= k
  {
    RunInsideBlock(s, q, k);
    assert BlockOk(s, 0, 0, s.owner[q]);
  }

  lemma {:induction false} FreeBlockIsMaximal(s: Pool, p: nat, k: nat, q: nat)
    requires Valid(s) && k <= MAX_ORDER && Aligned(p, k) && q == Parent(p, k) && IsFree(s, p, k)
    ensures FreeRun(s, p, k) && (k == MAX_ORDER || !FreeRun(s, q, k + 1))
  {
    assert BlockOk(s, 0, 0, p);
    if k < MAX_ORDER && FreeRun(s, q, k + 1) {
      OneOwner(s, q, k + 1, p);
      assert false;
    }
  }

  lemma {:induction false} WiderRun(s: Pool, p: nat, k: nat, q: nat)
    requires Valid(s) && Aligned(p, k) && q == Parent(p, k) && FreeRun(s, p, k)
    requires s.owner[p] < MAX_PAGES && s.order[s.owner[p]] > k
    ensures FreeRun(s, q, k + 1)
  {
    RunInsideBlock(s, p, k);
    var h := s.owner[p];
    NestedOrDisjoint(q, k + 1, h, s.order[h]);
    BlockPagesFree(s, h);
  }

  lemma {:induction false} MaximalRunIsBlock(s: Pool, p: nat, k: nat, q: nat)
    requires Valid(s) && k <= MAX_ORDER && Aligned(p, k) && q == Parent(p, k)
    requires FreeRun(s, p, k) && (k == MAX_ORDER || !FreeRun(s, q, k + 1))
    ensures IsFree(s, p, k)
  {
    RunInsideBlock(s, p, k);
    var h := s.owner[p];
    if s.order[h] > k {
      WiderRun(s, p, k, q);
      assert false;
    }
  }

  /** The free blocks are exactly the maximal aligned runs of free pages. */
  lemma {:induction false} FreeBlocksAreMaximalRuns(s: Pool, p: nat, k: nat)
    requires Valid(s) && k <= 16 && Aligned(p, k)
    ensures IsFree(s, p, k) <==> FreeRun(s, p, k) && (k == 16 || !FreeRun(s, Parent(p, k), k + 1))
  {
    var q := Parent(p, k);
    if IsFree(s, p, k) {
      FreeBlockIsMaximal(s, p, k, q);
    } else if FreeRun(s, p, k) && (k == MAX_ORDER || !FreeRun(s, q, k + 1)) {
      MaximalRunIsBlock(s, p, k, q);
    }
  }

  lemma {:induction false} BlockPagesFree(s: Pool, h: nat)
    requires Valid(s) && h < s.total && s.state[h] == Free
    ensures AllAre(s, h, h + Pow2(s.order[h]), Free)
  {
    assert BlockOk(s, 0, 0, h);
  }

  /** Two reachable pools with the same free pages have the same free blocks. */
  lemma {:induction false} FreePagesFixBlocks(s: Pool, t: Pool, p: nat, k: nat)
    requires Valid(s) && Valid(t) && s.total == t.total
    requires forall x: nat :: x < s.total ==> (ClassOf(s, x) == Free <==> ClassOf(t, x) == Free)
    ensures IsFree(s, p, k) <==> IsFree(t, p, k)
  {
    if IsFree(s, p, k) {
      SameBlock(s, t, p, k);
    }
    if IsFree(t, p, k) {
      SameBlock(t, s, p, k);
    }
  }

  lemma {:induction false} SameBlock(s: Pool, t: Pool, p: nat, k: nat)
    requires Valid(s) && Valid(t) && s.total == t.total && IsFree(s, p, k)
    requires forall x: nat :: x < s.total ==> (ClassOf(s, x) == Free <==> ClassOf(t, x) == Free)
    ensures IsFree(t, p, k)
  {
    assert BlockOk(s, 0, 0, p);
    FreeBlocksAreMaximalRuns(s, p, k);
    FreeBlocksAreMaximalRuns(t, p, k);
    SameRun(s, t, p, k);
    if k < MAX_ORDER {
      SameRun(s, t, Parent(p, k), k + 1);
    }
  }

  lemma {:induction false} SameRun(s: Pool, t: Pool, p: nat, k: nat)
    requires Valid(s) && Valid(t) && s.total == t.total
    requires forall x: nat :: x < s.total ==> (ClassOf(s, x) == Free <==> ClassOf(t, x) == Free)
    ensures FreeRun(s, p, k) <==> FreeRun(t, p, k)
  {
    if FreeRun(s, p, k) {
      assert forall x: nat :: p <= x < p + Pow2(k) ==> ClassOf(s, x) == Free;
    }
    if FreeRun(t, p, k) {
      assert forall x: nat :: p <= x < p + Pow2(k) ==> ClassOf(t, x) == Free;
    }
  }

  lemma {:induction false} RunListed(s: Pool, p: nat, k: nat)
    requires Valid(s) && FreeRun(s, p, k)
    ensures exists j :: k <= j <= MAX_ORDER && s.lists[j] != []
  {
    RunInsideBlock(s, p, k);
    var h := s.owner[p];
    assert FreeOutside(s, 0, 0, h, s.order[h]);
    assert h in s.lists[s.order[h]];
  }

  /** alloc_block(k) fails exactly when no aligned run of 2^k free pages exists; otherwise it takes one such run. */
  lemma {:induction false} AllocBlockExact(s: Pool, k: nat)
    requires Valid(s) && k <= 16
    ensures var (t, r) := AllocBlock(s, k);
            (r == None <==> forall p: nat :: !FreeRun(s, p, k))
            && match r
               case None => t == s
               case Some(b) => Valid(t) && FreeRun(s, b, k) && AllAre(t, b, b + Pow2(k), Allocated)
                               && SameOutside(s, t, b, Pow2(k))
  {
    AllocFromTakes(s, k, k);
    if AllocBlock(s, k).1 != None {
      assert FreeRun(s, AllocBlock(s, k).1.value, k);
    } else {
      forall p: nat
        ensures !FreeRun(s, p, k)
      {
        if FreeRun(s, p, k) {
          RunListed(s, p, k);
          assert false;
        }
      }
    }
  }

  /** The run taken is the start of a free block of the smallest order that is large enough. */
  lemma {:induction false} AllocTakesSmallest(s: Pool, k: nat)
    requires Valid(s) && k <= 16 && AllocBlock(s, k).1 != None
    ensures exists o: nat :: k <= o <= 16 && IsFree(s, AllocBlock(s, k).1.value, o) && NoneBetween(s, k, o)
  {
    SmallestFrom(s, k, k);
  }

  /** No free block has an order in [k, o). */
  ghost predicate NoneBetween(s: Pool, k: nat, o: nat)
    requires Shape(s)
  {
    forall j: nat, h: nat {:trigger IsFree(s, h, j)} :: k <= j < o ==> !IsFree(s, h, j)
  }

  lemma {:induction false} SmallestFrom(s: Pool, k: nat, order: nat)
    requires Valid(s) && k <= order <= 17 && NoneBetween(s, k, order) && AllocFrom(s, k, order).1 != None
    ensures exists o: nat :: k <= o <= 16 && IsFree(s, AllocFrom(s, k, order).1.value, o) && NoneBetween(s, k, o)
    decreases 17 - order
  {
    hide SplitDown;
    if order <= 16 {
      ListedOrder(s, order);
      if s.lists[order] == [] {
        assert NoneBetween(s, k, order + 1);
        SmallestFrom(s, k, order + 1);
      } else {
        assert s.lists[order][0] in s.lists[order];
        assert IsFree(s, s.lists[order][0], order);
      }
    }
  }

  lemma {:induction false} ListedOrder(s: Pool, k: nat)
    requires Valid(s) && k <= 16
    ensures forall h: nat {:trigger IsFree(s, h, k)} :: h in s.lists[k] <==> IsFree(s, h, k)
  {
    forall h: nat
      ensures h in s.lists[k] <==> IsFree(s, h, k)
    {
      assert FreeOutside(s, 0, 0, h, k) <==> IsFree(s, h, k);
    }
  }
}
