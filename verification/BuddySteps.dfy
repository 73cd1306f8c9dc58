/** How the primitive table updates of the allocator move the hole of a partial partition. */
module BuddySteps {
  import opened Counting
  import opened Arith
  import opened BuddyPool

  ghost function Range(h: nat, n: nat): set<nat> {
    set x | h <= x < h + n && In(x, h, n)
  }

  lemma {:induction false} RangeSize(h: nat, n: nat)
    ensures |Range(h, n)| == n
  {
    if n > 0 {
      RangeSize(h, n - 1);
      assert Range(h, n) == Range(h, n - 1) + {h + n - 1};
    }
  }

  /** Removing the block [h,h+w) from one end of the hole [b,b+n) leaves the hole [c,c+m). */
  predicate Carves(b: nat, n: nat, c: nat, m: nat, h: nat, w: nat) {
    n == m + w && ((h == b && c == b + w) || (h == b + m && c == b))
  }

  // ---- filling part of the hole

  lemma {:induction false} FillBlocks(s: Pool, b: nat, n: nat, c: nat, m: nat, h: nat, k: nat, st: BlockState, g: nat)
    requires Shape(s) && Tiled(s, b, n) && Carves(b, n, c, m, h, Pow2(k))
    requires k <= MAX_ORDER && Aligned(h, k) && st != Unused && g < s.total
    ensures BlockOk(SetBlock(s, h, k, st), c, m, g)
  {
    assert BlockOk(s, b, n, g);
  }

  lemma {:induction false} FillTiled(s: Pool, b: nat, n: nat, c: nat, m: nat, h: nat, k: nat, st: BlockState)
    requires Shape(s) && Tiled(s, b, n) && Carves(b, n, c, m, h, Pow2(k))
    requires k <= MAX_ORDER && Aligned(h, k) && st != Unused
    ensures Tiled(SetBlock(s, h, k, st), c, m)
  {
    var t := SetBlock(s, h, k, st);
    forall p | 0 <= p < s.total
      ensures PageOk(t, c, m, p)
    {
      assert PageOk(s, b, n, p);
    }
    forall g | 0 <= g < s.total
      ensures BlockOk(t, c, m, g)
    {
      FillBlocks(s, b, n, c, m, h, k, st, g);
    }
  }

  lemma {:induction false} FillFree(s: Pool, b: nat, n: nat, c: nat, m: nat, h: nat, k: nat, st: BlockState)
    requires Shape(s) && Tiled(s, b, n) && Carves(b, n, c, m, h, Pow2(k)) && st != Unused
    ensures FreeIn(SetBlock(s, h, k, st), c, m)
         == FreeIn(s, b, n) + if st == Free then Range(h, Pow2(k)) else {}
  {
    var t := SetBlock(s, h, k, st);
    forall p | 0 <= p < s.total
      ensures FreeAt(t, c, m, p) <==> FreeAt(s, b, n, p) || (st == Free && In(p, h, Pow2(k)))
    {
      assert PageOk(s, b, n, p);
    }
  }

  lemma {:induction false} FillHeads(s: Pool, b: nat, n: nat, c: nat, m: nat, h: nat, k: nat, st: BlockState, g: int, j: nat)
    requires Shape(s) && Tiled(s, b, n) && Carves(b, n, c, m, h, Pow2(k)) && st != Unused
    ensures FreeOutside(SetBlock(s, h, k, st), c, m, g, j)
       <==> FreeOutside(s, b, n, g, j) || (st == Free && g == h && j == k)
  {
  }

  lemma {:induction false} FillCoalesced(s: Pool, b: nat, n: nat, c: nat, m: nat, h: nat, k: nat, st: BlockState)
    requires Shape(s) && Tiled(s, b, n) && Carves(b, n, c, m, h, Pow2(k)) && st != Unused
    requires Coalesced(s, b, n) && Aligned(h, k)
    requires st == Free ==> k == MAX_ORDER || !FreeOutside(s, b, n, Buddy(h, k), k)
    ensures Coalesced(SetBlock(s, h, k, st), c, m)
  {
    var t := SetBlock(s, h, k, st);
    forall g: nat, j: nat | j < MAX_ORDER
      ensures NoFreeBuddy(t, c, m, g, j)
    {
      assert NoFreeBuddy(s, b, n, g, j);
      FillHeads(s, b, n, c, m, h, k, st, g, j);
      FillHeads(s, b, n, c, m, h, k, st, Buddy(g, j), j);
      if g < s.total && j <= MAX_ORDER && FreeOutside(s, b, n, g, j) {
        assert BlockOk(s, b, n, g);
        BuddyHalves(g, j);
      }
      BuddyHalves(h, k);
    }
  }

  /** Closing part of the hole with an allocated or reserved block. */
  lemma {:induction false} FillTaken(s: Pool, b: nat, n: nat, c: nat, m: nat, h: nat, k: nat, st: BlockState)
    requires Holed(s, b, n) && Carves(b, n, c, m, h, Pow2(k))
    requires k <= MAX_ORDER && Aligned(h, k) && (st == Allocated || st == Reserved)
    ensures Holed(SetBlock(s, h, k, st), c, m)
  {
    FillTiled(s, b, n, c, m, h, k, st);
    FillFree(s, b, n, c, m, h, k, st);
    FillCoalesced(s, b, n, c, m, h, k, st);
    forall g: nat, j: nat | j <= MAX_ORDER
      ensures FreeOutside(SetBlock(s, h, k, st), c, m, g, j) <==> FreeOutside(s, b, n, g, j)
    {
      FillHeads(s, b, n, c, m, h, k, st, g, j);
    }
  }

  /** Closing part of the hole with a free block whose buddy is not free. */
  lemma {:induction false} FillWithFree(s: Pool, b: nat, n: nat, c: nat, m: nat, h: nat, k: nat)
    requires Holed(s, b, n) && Carves(b, n, c, m, h, Pow2(k))
    requires k <= MAX_ORDER && Aligned(h, k)
    requires k == MAX_ORDER || !FreeOutside(s, b, n, Buddy(h, k), k)
    ensures Holed(AddFree(s, h, k), c, m)
  {
    FillTiled(s, b, n, c, m, h, k, Free);
    FillCoalesced(s, b, n, c, m, h, k, Free);
    ListsOnly(SetBlock(s, h, k, Free), AddFree(s, h, k), c, m);
    FillCounted(s, b, n, c, m, h, k);
    FillListed(s, b, n, c, m, h, k);
  }

  lemma {:induction false} FillCounted(s: Pool, b: nat, n: nat, c: nat, m: nat, h: nat, k: nat)
    requires Shape(s) && Tiled(s, b, n) && Carves(b, n, c, m, h, Pow2(k))
    ensures |FreeIn(SetBlock(s, h, k, Free), c, m)| == |FreeIn(s, b, n)| + Pow2(k)
  {
    FillFree(s, b, n, c, m, h, k, Free);
    RangeSize(h, Pow2(k));
    assert FreeIn(s, b, n) !! Range(h, Pow2(k));
  }

  lemma {:induction false} FillListed(s: Pool, b: nat, n: nat, c: nat, m: nat, h: nat, k: nat)
    requires Shape(s) && Tiled(s, b, n) && Carves(b, n, c, m, h, Pow2(k)) && k <= MAX_ORDER && Listed(s, b, n)
    ensures Listed(AddFree(s, h, k), c, m)
  {
    var t := SetBlock(s, h, k, Free);
    ListsOnly(t, AddFree(s, h, k), c, m);
    forall g: nat, j: nat | j <= MAX_ORDER
      ensures FreeOutside(t, c, m, g, j) <==> FreeOutside(s, b, n, g, j) || (g == h && j == k)
    {
      FillHeads(s, b, n, c, m, h, k, Free, g, j);
    }
    PushListed(s, b, n, c, m, h, k);
  }

  lemma {:induction false} PushListed(s: Pool, b: nat, n: nat, c: nat, m: nat, h: nat, k: nat)
    requires Shape(s) && Listed(s, b, n) && k <= MAX_ORDER && h < MAX_PAGES
    requires !FreeOutside(s, b, n, h, k)
    requires forall g: nat, j: nat :: j <= MAX_ORDER ==>
      (FreeOutside(AddFree(s, h, k), c, m, g, j) <==> FreeOutside(s, b, n, g, j) || (g == h && j == k))
    ensures Listed(AddFree(s, h, k), c, m)
  {
    var t := AddFree(s, h, k);
    assert h !in s.lists[k];
    forall j | 0 <= j <= MAX_ORDER
      ensures Distinct(t.lists[j]) && forall g: nat :: g in t.lists[j] <==> FreeOutside(t, c, m, g, j)
    {
      assert forall g: nat :: g in s.lists[j] <==> FreeOutside(s, b, n, g, j);
      if j == k {
        assert forall g: nat :: g in t.lists[j] <==> g in s.lists[j] || g == h;
      }
    }
  }

  /** Tiling, free heads and free pages do not depend on the lists or the counter. */
  lemma {:induction false} ListsOnly(s: Pool, t: Pool, b: nat, n: nat)
    requires Shape(s) && Shape(t) && t == s.(lists := t.lists, free := t.free)
    ensures Tiled(t, b, n) <==> Tiled(s, b, n)
    ensures Coalesced(t, b, n) <==> Coalesced(s, b, n)
    ensures FreeIn(t, b, n) == FreeIn(s, b, n)
    ensures forall h: int, k: nat :: FreeOutside(t, b, n, h, k) <==> FreeOutside(s, b, n, h, k)
  {
    forall p | 0 <= p < s.total
      ensures PageOk(t, b, n, p) <==> PageOk(s, b, n, p)
      ensures BlockOk(t, b, n, p) <==> BlockOk(s, b, n, p)
      ensures FreeAt(t, b, n, p) <==> FreeAt(s, b, n, p)
    {
    }
    forall h: nat, k: nat
      ensures NoFreeBuddy(t, b, n, h, k) <==> NoFreeBuddy(s, b, n, h, k)
    {
    }
  }

  // ---- taking a free block out, which widens the hole

  /** The hole [b,b+n) and the adjacent block [h,h+w) make up the hole [c,c+m). */
  predicate Joins(b: nat, n: nat, c: nat, m: nat, h: nat, w: nat) {
    m == n + w && if n == 0 then c == h else (h == b + n && c == b) || (h + w == b && c == h)
  }

  /** A block owns its head, so two blocks never overlap. */
  lemma {:induction false} BlocksApart(s: Pool, b: nat, n: nat, g: nat, h: nat)
    requires Shape(s) && Tiled(s, b, n) && g < s.total && h < s.total && g != h
    requires !In(g, b, n) && !In(h, b, n) && s.state[g] != Unused && s.state[h] != Unused
    ensures s.owner[g] == g && (g + Pow2(s.order[g]) <= h || h + Pow2(s.order[h]) <= g)
  {
    assert BlockOk(s, b, n, g) && BlockOk(s, b, n, h);
    assert s.owner[g] == g && s.owner[h] == h;
  }

  lemma {:induction false} OpenTiled(s: Pool, b: nat, n: nat, c: nat, m: nat, h: nat)
    requires Shape(s) && Tiled(s, b, n) && h < s.total && !In(h, b, n) && s.state[h] == Free
    requires Joins(b, n, c, m, h, Pow2(s.order[h])) && (n > 0 && c == h ==> s.state[b] == Unused)
    ensures Tiled(ClearHead(s, h), c, m)
  {
    var t := ClearHead(s, h);
    assert BlockOk(s, b, n, h);
    forall p | 0 <= p < s.total
      ensures PageOk(t, c, m, p)
    {
      assert PageOk(s, b, n, p);
      if !In(p, b, n) && s.owner[p] != h {
        BlocksApart(s, b, n, s.owner[p], h);
      }
    }
    forall g | 0 <= g < s.total
      ensures BlockOk(t, c, m, g)
    {
      assert BlockOk(s, b, n, g);
      if !In(g, b, n) && s.state[g] != Unused && g != h {
        BlocksApart(s, b, n, g, h);
      }
    }
    forall p | c < p < c + m
      ensures t.state[p] == Unused
    {
      if !In(p, b, n) && s.state[p] != Unused && p != h {
        BlocksApart(s, b, n, p, h);
      }
    }
  }

  lemma {:induction false} OpenFree(s: Pool, b: nat, n: nat, c: nat, m: nat, h: nat)
    requires Shape(s) && Tiled(s, b, n) && h < s.total && !In(h, b, n) && s.state[h] == Free
    requires Joins(b, n, c, m, h, Pow2(s.order[h]))
    ensures FreeIn(ClearHead(s, h), c, m) + Range(h, Pow2(s.order[h])) == FreeIn(s, b, n)
    ensures |FreeIn(ClearHead(s, h), c, m)| == |FreeIn(s, b, n)| - Pow2(s.order[h])
  {
    var t := ClearHead(s, h);
    var w := Pow2(s.order[h]);
    assert BlockOk(s, b, n, h);
    forall p | 0 <= p < s.total
      ensures FreeAt(s, b, n, p) <==> FreeAt(t, c, m, p) || In(p, h, w)
    {
      assert PageOk(s, b, n, p);
    }
    RangeSize(h, w);
    assert FreeIn(t, c, m) !! Range(h, w);
  }

  lemma {:induction false} OpenHeads(s: Pool, b: nat, n: nat, c: nat, m: nat, h: nat, g: int, j: nat)
    requires Shape(s) && Tiled(s, b, n) && h < s.total && !In(h, b, n) && s.state[h] == Free
    requires Joins(b, n, c, m, h, Pow2(s.order[h]))
    ensures FreeOutside(ClearHead(s, h), c, m, g, j) <==> FreeOutside(s, b, n, g, j) && g != h
  {
    if FreeOutside(s, b, n, g, j) && g != h {
      BlocksApart(s, b, n, g, h);
    }
  }

  lemma {:induction false} WithoutKeepsRest(q: seq<nat>, x: nat)
    requires Distinct(q)
    ensures Distinct(Without(q, x))
    ensures forall y :: y in Without(q, x) <==> y in q && y != x
  {
    if q != [] {
      assert forall y :: y in q <==> y == q[0] || y in q[1..];
      WithoutKeepsRest(q[1..], x);
      if q[0] != x {
        var r := Without(q[1..], x);
        assert Without(q, x) == [q[0]] + r;
        assert q[0] !in q[1..];
        assert forall y :: y in Without(q, x) <==> y == q[0] || y in r;
      }
    }
  }

  lemma {:induction false} PopListed(s: Pool, b: nat, n: nat, c: nat, m: nat, h: nat)
    requires Shape(s) && Tiled(s, b, n) && h < s.total && !In(h, b, n) && s.state[h] == Free
    requires Joins(b, n, c, m, h, Pow2(s.order[h])) && s.order[h] <= MAX_ORDER && Listed(s, b, n)
    ensures Listed(RemoveFree(s, h), c, m)
  {
    var t := RemoveFree(s, h);
    ListsOnly(ClearHead(s, h), t, c, m);
    forall j | 0 <= j <= MAX_ORDER
      ensures Distinct(t.lists[j]) && forall g: nat :: g in t.lists[j] <==> FreeOutside(t, c, m, g, j)
    {
      forall g: nat
        ensures FreeOutside(t, c, m, g, j) <==> FreeOutside(s, b, n, g, j) && g != h
      {
        OpenHeads(s, b, n, c, m, h, g, j);
      }
      assert forall g: nat :: g in s.lists[j] <==> FreeOutside(s, b, n, g, j);
      WithoutKeepsRest(s.lists[j], h);
    }
  }

  /** Taking a free block off its list turns it into part of the hole. */
  lemma {:induction false} OpenHole(s: Pool, b: nat, n: nat, c: nat, m: nat, h: nat)
    requires Holed(s, b, n) && h < s.total && !In(h, b, n) && s.state[h] == Free && s.order[h] <= MAX_ORDER
    requires Joins(b, n, c, m, h, Pow2(s.order[h])) && (n > 0 && c == h ==> s.state[b] == Unused)
    ensures Holed(RemoveFree(s, h), c, m)
  {
    var t := ClearHead(s, h);
    OpenTiled(s, b, n, c, m, h);
    OpenFree(s, b, n, c, m, h);
    PopListed(s, b, n, c, m, h);
    forall g: nat, j: nat | j < MAX_ORDER
      ensures NoFreeBuddy(t, c, m, g, j)
    {
      assert NoFreeBuddy(s, b, n, g, j);
      OpenHeads(s, b, n, c, m, h, g, j);
      OpenHeads(s, b, n, c, m, h, Buddy(g, j), j);
    }
    ListsOnly(t, RemoveFree(s, h), c, m);
  }
}
