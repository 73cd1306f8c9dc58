/** What alloc_block, free_block, reserve_page and add_free_range do to the pages of the pool. */
module BuddyOps {
  import opened Arith
  import opened BuddyPool
  import opened BuddySteps

  /** The state of the block that holds page p: what the page counts as. */
  ghost function ClassOf(s: Pool, p: nat): BlockState {
    if p < |s.owner| && s.owner[p] < |s.state| then s.state[s.owner[p]] else Unused
  }

  /** Both pools cover the same pages, and pages outside [b,b+n) count as the same. */
  ghost predicate SameOutside(s: Pool, t: Pool, b: nat, n: nat) {
    && Shape(s) && Shape(t) && t.base == s.base && t.total == s.total
    && (forall p: nat {:trigger ClassOf(t, p)} :: p < s.total && !In(p, b, n) ==> ClassOf(t, p) == ClassOf(s, p))
  }

  /** Every page of [lo,hi) counts as st. */
  ghost predicate AllAre(s: Pool, lo: nat, hi: nat, st: BlockState) {
    && Shape(s) && hi <= s.total
    && (forall p: nat {:trigger ClassOf(s, p)} :: lo <= p < hi ==> ClassOf(s, p) == st)
  }

  lemma {:induction false} FillClasses(s: Pool, b: nat, n: nat, c: nat, m: nat, h: nat, k: nat, st: BlockState)
    requires Holed(s, b, n) && Carves(b, n, c, m, h, Pow2(k)) && k <= MAX_ORDER
    ensures var t := SetBlock(s, h, k, st);
            SameOutside(s, t, b, n) && AllAre(t, h, h + Pow2(k), st)
    ensures var t := AddFree(s, h, k);
            SameOutside(s, t, b, n) && AllAre(t, h, h + Pow2(k), Free)
  {
    forall p: nat | p < s.total && !In(p, b, n)
      ensures ClassOf(SetBlock(s, h, k, st), p) == ClassOf(s, p)
      ensures ClassOf(AddFree(s, h, k), p) == ClassOf(s, p)
    {
      assert PageOk(s, b, n, p);
    }
  }

  lemma {:induction false} OpenClasses(s: Pool, b: nat, n: nat, c: nat, m: nat, h: nat)
    requires Holed(s, b, n) && h < s.total && !In(h, b, n) && s.state[h] == Free && s.order[h] <= MAX_ORDER
    requires Joins(b, n, c, m, h, Pow2(s.order[h]))
    ensures SameOutside(s, RemoveFree(s, h), c, m)
    ensures AllAre(s, h, h + Pow2(s.order[h]), Free)
  {
    assert BlockOk(s, b, n, h);
    forall p: nat | p < s.total && !In(p, c, m)
      ensures ClassOf(RemoveFree(s, h), p) == ClassOf(s, p)
    {
      assert PageOk(s, b, n, p);
    }
  }

  /** Writes confined to the hole leave the rest of the partition as it was. */
  lemma {:induction false} HoleContents(s: Pool, t: Pool, b: nat, n: nat)
    requires Holed(s, b, n) && Shape(t) && n > 0
    requires t == s.(owner := t.owner, state := t.state, order := t.order)
    requires forall p :: 0 <= p < MAX_PAGES && !In(p, b, n) ==>
      t.owner[p] == s.owner[p] && t.state[p] == s.state[p] && t.order[p] == s.order[p]
    requires forall p :: b < p < b + n ==> t.state[p] == Unused
    ensures Holed(t, b, n) && SameOutside(s, t, b, n)
  {
    forall p | 0 <= p < s.total
      ensures PageOk(t, b, n, p) && (FreeAt(t, b, n, p) <==> FreeAt(s, b, n, p)) && BlockOk(t, b, n, p)
      ensures !In(p, b, n) ==> ClassOf(t, p) == ClassOf(s, p)
    {
      assert PageOk(s, b, n, p) && BlockOk(s, b, n, p);
    }
    assert FreeIn(t, b, n) == FreeIn(s, b, n);
    assert forall h: int, k: nat :: FreeOutside(t, b, n, h, k) <==> FreeOutside(s, b, n, h, k);
    forall h: nat, k: nat | k < MAX_ORDER
      ensures NoFreeBuddy(t, b, n, h, k)
    {
      assert NoFreeBuddy(s, b, n, h, k);
    }
  }

  /** Two updates in a row: the first confined to [b,b+n) and filling the end of it, the second confined to the rest. */
  lemma {:induction false} ThenSame(s: Pool, u: Pool, t: Pool, b: nat, n: nat, c: nat, m: nat)
    requires SameOutside(s, u, b, n) && SameOutside(u, t, c, m) && b <= c && c + m <= b + n
    ensures SameOutside(s, t, b, n)
    ensures forall p: nat {:trigger ClassOf(t, p)} :: p < s.total && In(p, b, n) && !In(p, c, m) ==> ClassOf(t, p) == ClassOf(u, p)
  {
    forall p: nat | p < s.total && !In(p, b, n)
      ensures ClassOf(t, p) == ClassOf(s, p)
    {
      assert ClassOf(t, p) == ClassOf(u, p);
    }
  }

  /** Pages that were free before and are free after need not be told apart from untouched ones. */
  lemma {:induction false} ButFree(s: Pool, t: Pool, b: nat, n: nat, c: nat, m: nat)
    requires SameOutside(s, t, b, n)
    requires forall p: nat :: p < s.total && In(p, b, n) && !In(p, c, m) ==> ClassOf(s, p) == Free && ClassOf(t, p) == Free
    ensures SameOutside(s, t, c, m)
  {
  }

  // ---- alloc_block

  lemma {:induction false} SplitUnfold(s: Pool, b: nat, j: nat, target: nat)
    requires Shape(s) && j < MAX_ORDER && b + Pow2(j + 1) <= MAX_PAGES && target <= j
    ensures SplitDown(s, b, j + 1, target) == SplitDown(AddFree(s, b + Pow2(j), j), b, j, target)
  {
  }

  lemma {:induction false} SplitEnd(s: Pool, b: nat, target: nat)
    requires Shape(s) && target <= MAX_ORDER && b + Pow2(target) <= MAX_PAGES
    ensures SplitDown(s, b, target, target) == s
  {
  }

  lemma {:induction false} SplitDownFills(s: Pool, b: nat, order: nat, target: nat)
    requires Holed(s, b, Pow2(order)) && Aligned(b, order) && target <= order <= MAX_ORDER
    ensures var t := SplitDown(s, b, order, target);
            Holed(t, b, Pow2(target)) && SameOutside(s, t, b, Pow2(order))
            && AllAre(t, b + Pow2(target), b + Pow2(order), Free)
    decreases order, 1
  {
    hide SplitDown, AddFree;
    if order == target {
      SplitEnd(s, b, target);
    } else {
      var j := order - 1;
      SplitUnfold(s, b, j, target);
      SplitRest(s, AddFree(s, b + Pow2(j), j), SplitDown(s, b, order, target), b, j, b + Pow2(j), target);
    }
  }

  lemma {:induction false} SplitRest(s: Pool, u: Pool, t: Pool, b: nat, j: nat, h: nat, target: nat)
    requires Holed(s, b, Pow2(j + 1)) && Aligned(b, j + 1) && target <= j < MAX_ORDER && h == b + Pow2(j)
    requires u == AddFree(s, h, j) && t == SplitDown(u, b, j, target)
    ensures Holed(t, b, Pow2(target)) && SameOutside(s, t, b, Pow2(j + 1))
    ensures AllAre(t, b + Pow2(target), b + Pow2(j + 1), Free)
    decreases j + 1, 0
  {
    hide SplitDown, AddFree;
    AlignedHalves(b, j);
    GiveBackUpper(s, u, b, j, h);
    SplitDownFills(u, b, j, target);
    Pow2Grows(target, j);
    ThenSame(s, u, t, b, Pow2(j + 1), b, Pow2(j));
  }

  /** Either half of a detached block can be given back; the other half stays detached. */
  lemma {:induction false} GiveBackUpper(s: Pool, u: Pool, b: nat, j: nat, h: nat)
    requires Holed(s, b, Pow2(j + 1)) && Aligned(b, j + 1) && j < MAX_ORDER && h == b + Pow2(j) && u == AddFree(s, h, j)
    ensures Holed(u, b, Pow2(j)) && SameOutside(s, u, b, Pow2(j + 1)) && AllAre(u, h, b + Pow2(j + 1), Free)
  {
    AlignedHalves(b, j);
    assert Carves(b, Pow2(j + 1), b, Pow2(j), h, Pow2(j));
    FillWithFree(s, b, Pow2(j + 1), b, Pow2(j), h, j);
    FillClasses(s, b, Pow2(j + 1), b, Pow2(j), h, j, Free);
  }

  lemma {:induction false} GiveBackLower(s: Pool, u: Pool, b: nat, j: nat, h: nat)
    requires Holed(s, b, Pow2(j + 1)) && Aligned(b, j + 1) && j < MAX_ORDER && h == b + Pow2(j) && u == AddFree(s, b, j)
    ensures Holed(u, h, Pow2(j)) && SameOutside(s, u, b, Pow2(j + 1)) && AllAre(u, b, h, Free)
  {
    AlignedHalves(b, j);
    assert Carves(b, Pow2(j + 1), h, Pow2(j), b, Pow2(j));
    FillWithFree(s, b, Pow2(j + 1), h, Pow2(j), b, j);
    FillClasses(s, b, Pow2(j + 1), h, Pow2(j), b, j, Free);
  }

  /** A detached block closed as taken makes the partition whole again. */
  lemma {:induction false} CloseTaken(s: Pool, b: nat, k: nat, st: BlockState)
    requires Holed(s, b, Pow2(k)) && Aligned(b, k) && k <= MAX_ORDER && (st == Allocated || st == Reserved)
    ensures var t := SetBlock(s, b, k, st);
            Valid(t) && SameOutside(s, t, b, Pow2(k)) && AllAre(t, b, b + Pow2(k), st)
  {
    assert Carves(b, Pow2(k), b, 0, b, Pow2(k));
    FillTaken(s, b, Pow2(k), b, 0, b, k, st);
    FillClasses(s, b, Pow2(k), b, 0, b, k, st);
    EmptyHole(SetBlock(s, b, k, st), b);
  }

  lemma {:induction false} EmptyHole(s: Pool, b: nat)
    requires Holed(s, b, 0)
    ensures Valid(s)
  {
    forall p | 0 <= p < s.total
      ensures PageOk(s, 0, 0, p) && BlockOk(s, 0, 0, p) && (FreeAt(s, 0, 0, p) <==> FreeAt(s, b, 0, p))
    {
      assert PageOk(s, b, 0, p) && BlockOk(s, b, 0, p);
    }
    assert FreeIn(s, 0, 0) == FreeIn(s, b, 0);
    assert forall h: int, k: nat :: FreeOutside(s, 0, 0, h, k) <==> FreeOutside(s, b, 0, h, k);
    forall h: nat, k: nat | k < MAX_ORDER
      ensures NoFreeBuddy(s, 0, 0, h, k)
    {
      assert NoFreeBuddy(s, b, 0, h, k);
    }
  }

  /** Detaching a listed free block leaves exactly its pages as the hole. */
  lemma {:induction false} Detach(s: Pool, h: nat)
    requires Valid(s) && h < s.total && s.state[h] == Free
    ensures var k := s.order[h];
            k <= MAX_ORDER && Aligned(h, k) && h + Pow2(k) <= s.total && AllAre(s, h, h + Pow2(k), Free)
            && Holed(RemoveFree(s, h), h, Pow2(k)) && SameOutside(s, RemoveFree(s, h), h, Pow2(k))
  {
    assert BlockOk(s, 0, 0, h);
    OpenHole(s, 0, 0, h, Pow2(s.order[h]), h);
    OpenClasses(s, 0, 0, h, Pow2(s.order[h]), h);
  }

  lemma {:induction false} AllocFromTakes(s: Pool, target: nat, order: nat)
    requires Valid(s) && target <= order <= MAX_ORDER + 1
    requires forall j :: target <= j < order ==> s.lists[j] == []
    ensures var (t, r) := AllocFrom(s, target, order);
            match r
            case None => t == s && forall j :: target <= j <= MAX_ORDER ==> s.lists[j] == []
            case Some(b) =>
              Valid(t) && Aligned(b, target) && b + Pow2(target) <= s.total
              && AllAre(s, b, b + Pow2(target), Free) && AllAre(t, b, b + Pow2(target), Allocated)
              && SameOutside(s, t, b, Pow2(target))
    decreases MAX_ORDER + 1 - order
  {
    hide SplitDown;
    if order <= MAX_ORDER {
      if s.lists[order] == [] {
        AllocFromTakes(s, target, order + 1);
      } else {
        var b := s.lists[order][0];
        assert FreeOutside(s, 0, 0, b, order) by { assert b in s.lists[order]; }
        Detach(s, b);
        var u := RemoveFree(s, b);
        SplitDownFills(u, b, order, target);
        var v := SplitDown(u, b, order, target);
        AlignedDown(b, target, order);
        Pow2Grows(target, order);
        CloseTaken(v, b, target, Allocated);
        var t := SetBlock(v, b, target, Allocated);
        ThenSame(s, u, v, b, Pow2(order), b, Pow2(order));
        ThenSame(s, v, t, b, Pow2(order), b, Pow2(target));
        ButFree(s, t, b, Pow2(order), b, Pow2(target));
      }
    }
  }

  // ---- free_block

  lemma {:induction false} ClearsCommute(s: Pool, p: nat, q: nat)
    requires Shape(s) && p < MAX_PAGES && q < MAX_PAGES && p != q && s.order[q] <= MAX_ORDER
    ensures ClearHead(ClearHead(RemoveFree(s, q), p), q) == RemoveFree(ClearHead(s, p), q)
  {
    var u := RemoveFree(ClearHead(s, p), q);
    var v := ClearHead(ClearHead(RemoveFree(s, q), p), q);
    assert v.order == u.order && v.state == u.state;
  }

  /** The detached block together with its free buddy, once taken off its list, is one bigger detached block. */
  lemma {:induction false} JoinBuddy(s: Pool, p: nat, k: nat, q: nat)
    requires Holed(s, p, Pow2(k)) && Aligned(p, k) && k < MAX_ORDER && IsFree(s, Buddy(p, k), k)
    requires q == if Buddy(p, k) < p then Buddy(p, k) else p
    ensures Aligned(q, k + 1) && q <= p && p + Pow2(k) <= q + Pow2(k + 1)
    ensures Joins(p, Pow2(k), q, Pow2(k + 1), Buddy(p, k), Pow2(k)) && !In(Buddy(p, k), p, Pow2(k))
    ensures var v := ClearHead(ClearHead(RemoveFree(s, Buddy(p, k)), p), Buddy(p, k));
            Holed(v, q, Pow2(k + 1)) && SameOutside(s, v, q, Pow2(k + 1))
  {
    BuddyHalves(p, k);
    var buddy: nat := Buddy(p, k);
    var cleared := ClearHead(s, p);
    HoleContents(s, cleared, p, Pow2(k));
    ClearsCommute(s, p, buddy);
    OpenHole(cleared, p, Pow2(k), q, Pow2(k + 1), buddy);
    OpenClasses(cleared, p, Pow2(k), q, Pow2(k + 1), buddy);
    ThenSame(s, cleared, RemoveFree(cleared, buddy), q, Pow2(k + 1), q, Pow2(k + 1));
  }

  /** One round of coalescing: the detached block and its free buddy become one detached block. */
  lemma {:induction false} MergeOnce(s: Pool, p: nat, k: nat, q: nat)
    requires Holed(s, p, Pow2(k)) && Aligned(p, k) && k < MAX_ORDER && IsFree(s, Buddy(p, k), k)
    requires q == if Buddy(p, k) < p then Buddy(p, k) else p
    ensures var t := SetBlock(ClearHead(ClearHead(RemoveFree(s, Buddy(p, k)), p), Buddy(p, k)), q, k + 1, Free);
            Aligned(q, k + 1) && q <= p && p + Pow2(k) <= q + Pow2(k + 1) && Holed(t, q, Pow2(k + 1))
            && SameOutside(s, t, q, Pow2(k + 1))
            && (forall x: nat :: In(x, q, Pow2(k + 1)) && !In(x, p, Pow2(k)) ==> ClassOf(s, x) == Free)
  {
    JoinBuddy(s, p, k, q);
    OpenClasses(s, p, Pow2(k), q, Pow2(k + 1), Buddy(p, k));
    var v := ClearHead(ClearHead(RemoveFree(s, Buddy(p, k)), p), Buddy(p, k));
    var t := SetBlock(v, q, k + 1, Free);
    HoleContents(v, t, q, Pow2(k + 1));
    ThenSame(s, v, t, q, Pow2(k + 1), q, Pow2(k + 1));
  }

  lemma {:induction false} MergeUnfold(s: Pool, p: nat, k: nat)
    requires Shape(s) && p < MAX_PAGES && k <= MAX_ORDER
    ensures var buddy := Buddy(p, k);
            MergeUp(s, p, k) ==
            if k < MAX_ORDER && IsFree(s, buddy, k) then
              var q := if buddy < p then buddy else p;
              MergeUp(SetBlock(ClearHead(ClearHead(RemoveFree(s, buddy), p), buddy), q, k + 1, Free), q, k + 1)
            else AddFree(s, p, k)
  {
  }

  /** free_block's loop ends with a whole partition in which the detached pages, and no others, became free. */
  lemma {:induction false} MergeUpFrees(s: Pool, p: nat, k: nat)
    requires Holed(s, p, Pow2(k)) && Aligned(p, k) && k <= MAX_ORDER
    ensures var t := MergeUp(s, p, k);
            Valid(t) && SameOutside(s, t, p, Pow2(k)) && AllAre(t, p, p + Pow2(k), Free)
    decreases MAX_ORDER - k, 1
  {
    hide MergeUp;
    MergeUnfold(s, p, k);
    if k < MAX_ORDER && IsFree(s, Buddy(p, k), k) {
      var buddy := Buddy(p, k);
      var q := if buddy < p then buddy else p;
      var u := SetBlock(ClearHead(ClearHead(RemoveFree(s, buddy), p), buddy), q, k + 1, Free);
      MergeOnce(s, p, k, q);
      MergeRest(s, u, MergeUp(s, p, k), p, k, q);
    } else {
      assert Carves(p, Pow2(k), p, 0, p, Pow2(k));
      FillWithFree(s, p, Pow2(k), p, 0, p, k);
      FillClasses(s, p, Pow2(k), p, 0, p, k, Free);
      EmptyHole(AddFree(s, p, k), p);
    }
  }

  lemma {:induction false} MergeRest(s: Pool, u: Pool, t: Pool, p: nat, k: nat, q: nat)
    requires k < MAX_ORDER && Aligned(q, k + 1) && q <= p && p + Pow2(k) <= q + Pow2(k + 1)
    requires Holed(u, q, Pow2(k + 1)) && SameOutside(s, u, q, Pow2(k + 1)) && t == MergeUp(u, q, k + 1)
    requires forall x: nat :: In(x, q, Pow2(k + 1)) && !In(x, p, Pow2(k)) ==> ClassOf(s, x) == Free
    ensures Valid(t) && SameOutside(s, t, p, Pow2(k)) && AllAre(t, p, p + Pow2(k), Free)
    decreases MAX_ORDER - k, 0
  {
    hide MergeUp;
    MergeUpFrees(u, q, k + 1);
    ThenSame(s, u, t, q, Pow2(k + 1), q, Pow2(k + 1));
    ButFree(s, t, q, Pow2(k + 1), p, Pow2(k));
  }

  lemma {:induction false} FreeBlockFrees(s: Pool, p: nat, k: nat)
    requires Holed(s, p, Pow2(k)) && Aligned(p, k) && k <= MAX_ORDER
    ensures var t := FreeBlock(s, p, k);
            Valid(t) && SameOutside(s, t, p, Pow2(k)) && AllAre(t, p, p + Pow2(k), Free)
  {
    hide MergeUp;
    var u := SetBlock(s, p, k, Free);
    HoleContents(s, u, p, Pow2(k));
    MergeUpFrees(u, p, k);
    ThenSame(s, u, FreeBlock(s, p, k), p, Pow2(k), p, Pow2(k));
  }

  /** Clearing the head of an allocated block detaches it. */
  lemma {:induction false} DetachTaken(s: Pool, h: nat)
    requires Valid(s) && h < s.total && (s.state[h] == Allocated || s.state[h] == Reserved)
    ensures var k := s.order[h];
            k <= MAX_ORDER && Aligned(h, k) && h + Pow2(k) <= s.total && AllAre(s, h, h + Pow2(k), s.state[h])
            && Holed(ClearHead(s, h), h, Pow2(k)) && SameOutside(s, ClearHead(s, h), h, Pow2(k))
  {
    assert BlockOk(s, 0, 0, h);
    var w := Pow2(s.order[h]);
    var t := ClearHead(s, h);
    forall p | 0 <= p < s.total
      ensures PageOk(t, h, w, p) && BlockOk(t, h, w, p) && (FreeAt(t, h, w, p) <==> FreeAt(s, 0, 0, p))
      ensures h < p < h + w ==> t.state[p] == Unused
      ensures !In(p, h, w) ==> ClassOf(t, p) == ClassOf(s, p)
    {
      assert PageOk(s, 0, 0, p) && BlockOk(s, 0, 0, p);
      if s.owner[p] != h {
        BlocksApart(s, 0, 0, s.owner[p], h);
      }
      if p != h && s.state[p] != Unused {
        BlocksApart(s, 0, 0, p, h);
      }
    }
    assert FreeIn(t, h, w) == FreeIn(s, 0, 0);
    assert forall g: int, k: nat :: FreeOutside(t, h, w, g, k) <==> FreeOutside(s, 0, 0, g, k);
    forall g: nat, k: nat | k < MAX_ORDER
      ensures NoFreeBuddy(t, h, w, g, k)
    {
      assert NoFreeBuddy(s, 0, 0, g, k);
    }
  }

  // ---- reserve_page

  lemma {:induction false} NarrowUnfold(s: Pool, cur: nat, child: nat, page: nat)
    requires Shape(s) && child < MAX_ORDER && cur + Pow2(child + 1) <= MAX_PAGES
    ensures var buddy := cur + Pow2(child);
            Narrow(s, cur, child + 1, page) ==
            if page < buddy then Narrow(SetBlock(AddFree(s, buddy, child), cur, child, Allocated), cur, child, page)
            else Narrow(SetBlock(AddFree(s, cur, child), buddy, child, Allocated), buddy, child, page)
  {
  }

  lemma {:induction false} NarrowEnd(s: Pool, cur: nat, page: nat)
    requires Shape(s) && cur < MAX_PAGES
    ensures Narrow(s, cur, 0, page) == (s, cur)
  {
  }

  lemma {:induction false} NarrowIsolates(s: Pool, cur: nat, order: nat, page: nat)
    requires Holed(s, cur, Pow2(order)) && Aligned(cur, order) && order <= MAX_ORDER
    requires In(page, cur, Pow2(order))
    ensures var (t, c) := Narrow(s, cur, order, page);
            c == page && Holed(t, page, 1) && SameOutside(s, t, cur, Pow2(order))
            && AllAre(t, cur, page, Free) && AllAre(t, page + 1, cur + Pow2(order), Free)
    decreases order, 1
  {
    hide Narrow, AddFree;
    if order == 0 {
      NarrowEnd(s, cur, page);
    } else {
      var child := order - 1;
      var buddy := cur + Pow2(child);
      NarrowUnfold(s, cur, child, page);
      AlignedHalves(cur, child);
      var (t, c) := Narrow(s, cur, order, page);
      if page < buddy {
        var u := AddFree(s, buddy, child);
        GiveBackUpper(s, u, cur, child, buddy);
        NarrowInto(s, u, SetBlock(u, cur, child, Allocated), t, c, cur, cur, child, page, buddy, cur + Pow2(order));
      } else {
        var u := AddFree(s, cur, child);
        GiveBackLower(s, u, cur, child, buddy);
        NarrowInto(s, u, SetBlock(u, buddy, child, Allocated), t, c, cur, buddy, child, page, cur + Pow2(order), cur + Pow2(order));
      }
    }
  }

  lemma {:induction false} NarrowInto(s: Pool, u: Pool, v: Pool, t: Pool, c: nat,
                                      cur: nat, kept: nat, child: nat, page: nat, end: nat, stop: nat)
    requires Holed(u, kept, Pow2(child)) && Aligned(kept, child) && child < MAX_ORDER && In(page, kept, Pow2(child))
    requires stop == cur + Pow2(child + 1) && end == kept + Pow2(child) && cur <= kept && end <= stop
    requires SameOutside(s, u, cur, Pow2(child + 1)) && AllAre(u, cur, kept, Free) && AllAre(u, end, stop, Free)
    requires v == SetBlock(u, kept, child, Allocated) && (t, c) == Narrow(v, kept, child, page)
    ensures c == page && Holed(t, page, 1) && SameOutside(s, t, cur, Pow2(child + 1))
    ensures AllAre(t, cur, page, Free) && AllAre(t, page + 1, stop, Free)
    decreases child + 1, 0
  {
    hide Narrow;
    HoleContents(u, v, kept, Pow2(child));
    NarrowIsolates(v, kept, child, page);
    ThenSame(s, u, v, cur, Pow2(child + 1), kept, Pow2(child));
    ThenSame(s, v, t, cur, Pow2(child + 1), kept, Pow2(child));
    forall p: nat | cur <= p < stop && p != page
      ensures ClassOf(t, p) == Free
    {
      if p < kept || end <= p {
        assert ClassOf(t, p) == ClassOf(v, p) == ClassOf(u, p);
      }
    }
  }

  /** reserve_page turns a free page, and nothing else, into a reserved one; it reports whether the page ends up reserved. */
  lemma {:induction false} ReservePageExact(s: Pool, page: nat)
    requires Valid(s)
    ensures var (t, ok) := ReservePage(s, page);
            Valid(t) && SameOutside(s, t, page, 1)
            && (page < s.total ==> ClassOf(t, page) == if ClassOf(s, page) == Free then Reserved else ClassOf(s, page))
            && (ok <==> page < s.total && ClassOf(t, page) == Reserved)
            && (!(page < s.total && ClassOf(s, page) == Free) ==> t == s)
  {
    hide Narrow;
    if page < s.total {
      assert PageOk(s, 0, 0, page);
      var head := s.owner[page];
      if s.state[head] == Free {
        Detach(s, head);
        var u := RemoveFree(s, head);
        NarrowIsolates(u, head, s.order[head], page);
        var v := Narrow(u, head, s.order[head], page).0;
        CloseTaken(v, page, 0, Reserved);
        var w := Pow2(s.order[head]);
        var t := SetBlock(v, page, 0, Reserved);
        ThenSame(s, u, v, head, w, head, w);
        ThenSame(s, v, t, head, w, page, 1);
        ButFree(s, t, head, w, page, 1);
      }
    }
  }

  // ---- add_free_range

  /** Every seeded block was the largest that fitted where it starts. */
  ghost predicate Greedy(s: Pool, page: nat, n: nat)
    requires Shape(s)
  {
    forall g: nat, j: nat {:trigger FreeOutside(s, page, n, g, j)} ::
      j < MAX_ORDER && FreeOutside(s, page, n, g, j) ==>
        !Aligned(g, j + 1) || g + Pow2(j + 1) > s.total
  }

  lemma {:induction false} SeedBuddy(s: Pool, page: nat, remaining: nat, k: nat)
    requires Holed(s, page, remaining) && page + remaining == s.total && Greedy(s, page, remaining)
    requires k < MAX_ORDER && Aligned(page, k) && Pow2(k) <= remaining
    requires !Aligned(page, k + 1) || Pow2(k + 1) > remaining
    ensures !FreeOutside(s, page, remaining, Buddy(page, k), k)
  {
    BuddyHalves(page, k);
  }

  lemma {:induction false} SeedGreedy(s: Pool, u: Pool, page: nat, remaining: nat, k: nat, c: nat, m: nat)
    requires Shape(s) && Tiled(s, page, remaining) && page + remaining == s.total && Greedy(s, page, remaining)
    requires k <= MAX_ORDER && c == page + Pow2(k) && m == remaining - Pow2(k)
    requires k < MAX_ORDER ==> !Aligned(page, k + 1) || Pow2(k + 1) > remaining
    requires u == AddFree(s, page, k)
    ensures Greedy(u, c, m)
  {
    assert Carves(page, remaining, c, m, page, Pow2(k));
    ListsOnly(SetBlock(s, page, k, Free), u, c, m);
    forall g: nat, j: nat | j < MAX_ORDER && FreeOutside(u, c, m, g, j)
      ensures !Aligned(g, j + 1) || g + Pow2(j + 1) > u.total
    {
      FillHeads(s, page, remaining, c, m, page, k, Free, g, j);
    }
  }

  lemma {:induction false} RangeUnfold(s: Pool, u: Pool, page: nat, remaining: nat, k: nat, c: nat, m: nat)
    requires Shape(s) && page + remaining <= MAX_PAGES && remaining > 0 && k == FitOrder(page, remaining)
    requires u == AddFree(s, page, k) && c == page + Pow2(k) && m == remaining - Pow2(k)
    ensures AddFreeRange(s, page, remaining) == AddFreeRange(u, c, m)
  {
    hide FitOrder, AddFree, Pow2, Aligned, Shape;
  }

  lemma {:induction false} RangeEnd(s: Pool, page: nat)
    requires Shape(s) && page <= MAX_PAGES
    ensures AddFreeRange(s, page, 0) == s
  {
  }

  lemma {:induction false} RangeSeeds(s: Pool, page: nat, remaining: nat)
    requires Holed(s, page, remaining) && page + remaining == s.total && Greedy(s, page, remaining)
    requires AllAre(s, 0, page, Free)
    ensures var t := AddFreeRange(s, page, remaining);
            Valid(t) && t.base == s.base && t.total == s.total && AllAre(t, 0, t.total, Free)
    decreases remaining, 1
  {
    hide AddFreeRange, FitOrder, AddFree;
    if remaining == 0 {
      RangeEnd(s, page);
      EmptyHole(s, page);
    } else {
      var k := FitOrder(page, remaining);
      var u, c, m := AddFree(s, page, k), page + Pow2(k), remaining - Pow2(k);
      RangeUnfold(s, u, page, remaining, k, c, m);
      SeedRest(s, u, AddFreeRange(s, page, remaining), page, remaining, k, c, m);
    }
  }

  lemma {:induction false} SeedRest(s: Pool, u: Pool, t: Pool, page: nat, remaining: nat, k: nat, c: nat, m: nat)
    requires Holed(s, page, remaining) && page + remaining == s.total && Greedy(s, page, remaining)
    requires k <= MAX_ORDER && Aligned(page, k) && c == page + Pow2(k) && m == remaining - Pow2(k)
    requires k < MAX_ORDER ==> !Aligned(page, k + 1) || Pow2(k + 1) > remaining
    requires u == AddFree(s, page, k) && AllAre(s, 0, page, Free) && t == AddFreeRange(u, c, m)
    ensures Valid(t) && t.base == s.base && t.total == s.total && AllAre(t, 0, t.total, Free)
    decreases remaining, 0
  {
    hide AddFreeRange, AddFree;
    SeedOne(s, u, page, remaining, k, c, m);
    RangeSeeds(u, c, m);
  }

  lemma {:induction false} SeedOne(s: Pool, u: Pool, page: nat, remaining: nat, k: nat, c: nat, m: nat)
    requires Holed(s, page, remaining) && page + remaining == s.total && Greedy(s, page, remaining)
    requires k <= MAX_ORDER && Aligned(page, k) && c == page + Pow2(k) && m == remaining - Pow2(k)
    requires k < MAX_ORDER ==> !Aligned(page, k + 1) || Pow2(k + 1) > remaining
    requires u == AddFree(s, page, k) && AllAre(s, 0, page, Free)
    ensures Holed(u, c, m) && Greedy(u, c, m) && AllAre(u, 0, c, Free) && u.base == s.base && u.total == s.total
  {
    assert Carves(page, remaining, c, m, page, Pow2(k));
    if k < MAX_ORDER {
      SeedBuddy(s, page, remaining, k);
    }
    SeedGreedy(s, u, page, remaining, k, c, m);
    FillWithFree(s, page, remaining, c, m, page, k);
    FillClasses(s, page, remaining, c, m, page, k, Free);
    forall p: nat | 0 <= p < c
      ensures ClassOf(u, p) == Free
    {
    }
  }

  lemma {:induction false} SeededPoolFree(base: nat, size: nat)
    ensures var t := SeededPool(base, size);
            Valid(t) && t.base == InitBase(base) && t.total == InitTotal(base, size) && AllAre(t, 0, t.total, Free)
  {
    var total := InitTotal(base, size);
    EmptyPoolHoled(InitBase(base), total);
    RangeSeeds(EmptyPool(InitBase(base), total), 0, total);
  }

  lemma {:induction false} EmptyPoolHoled(base: nat, total: nat)
    requires total <= MAX_PAGES
    ensures var s := EmptyPool(base, total);
            Holed(s, 0, total) && Greedy(s, 0, total) && AllAre(s, 0, 0, Free)
  {
    var s := EmptyPool(base, total);
    assert FreeIn(s, 0, total) == {};
    assert Tiled(s, 0, total);
  }
}
