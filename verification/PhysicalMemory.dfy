/** kernel/mm/pmm.c as it runs: tables updated in place, free lists threaded through index arrays.
    Each method is proved to take the state View() to the one its function in BuddyPool or PoolApi gives. */
module PhysicalMemory {
  import opened Counting
  import opened Options
  import opened Arith
  import opened BuddyPool
  import opened BuddyOps
  import opened PoolApi
  import opened FreeLists

  lemma {:induction false} HoleUnlisted(s: Pool, b: nat, n: nat, p: nat)
    requires Holed(s, b, n) && In(p, b, n)
    ensures forall k :: 0 <= k <= MAX_ORDER ==> p !in s.lists[k]
  {
    forall k | 0 <= k <= MAX_ORDER
      ensures p !in s.lists[k]
    {
      assert !FreeOutside(s, b, n, p, k);
    }
  }

  lemma {:induction false} FreeHeadListed(s: Pool, b: nat, n: nat, h: nat, k: nat)
    requires Holed(s, b, n) && IsFree(s, h, k) && !In(h, b, n) && k <= MAX_ORDER
    ensures h in s.lists[k]
  {
    assert FreeOutside(s, b, n, h, k);
  }

  lemma {:induction false} ListHead(lists: seq<seq<nat>>, heads: seq<nat>, next: seq<nat>, prev: seq<nat>, k: nat)
    requires Linked(lists, heads, next, prev) && k <= MAX_ORDER
    ensures heads[k] == INVALID <==> lists[k] == []
    ensures lists[k] != [] ==> heads[k] == lists[k][0]
  {
    if lists[k] != [] {
      assert LinkAt(lists[k], next, prev, 0);
    }
  }

  /** One round of alloc_block's splitting: the upper half is given back. */
  lemma {:induction false} SplitOnce(s: Pool, block: nat, j: nat, buddy: nat, target: nat)
    requires target <= j < MAX_ORDER && Aligned(block, j + 1) && Holed(s, block, Pow2(j + 1)) && buddy == block + Pow2(j)
    ensures buddy + Pow2(j) <= s.total && Aligned(block, j) && Aligned(buddy, j)
    ensures forall k :: 0 <= k <= MAX_ORDER ==> buddy !in s.lists[k]
    ensures Holed(AddFree(s, buddy, j), block, Pow2(j))
    ensures SplitDown(s, block, j + 1, target) == SplitDown(AddFree(s, buddy, j), block, j, target)
  {
    hide SplitDown, AddFree, Listed, Coalesced, PageOk, BlockOk, FreeIn, SameOutside, AllAre;
    HoleUnlisted(s, block, Pow2(j + 1), buddy);
    AlignedHalves(block, j);
    SplitUnfold(s, block, j, target);
    GiveBackUpper(s, AddFree(s, buddy, j), block, j, buddy);
  }

  /** One round of reserve_page's halving: give back the half without page, keep the half with it. */
  lemma {:induction false} HalveOnce(s: Pool, current: nat, child: nat, page: nat, kept: nat, given: nat, v: Pool)
    requires child < MAX_ORDER && Aligned(current, child + 1) && Holed(s, current, Pow2(child + 1))
    requires In(page, current, Pow2(child + 1))
    requires (kept, given) == if page < current + Pow2(child) then (current, current + Pow2(child))
                              else (current + Pow2(child), current)
    requires v == BuddyPool.SetBlock(AddFree(s, given, child), kept, child, Allocated)
    ensures Aligned(kept, child) && In(page, kept, Pow2(child)) && Holed(v, kept, Pow2(child))
    ensures Narrow(s, current, child + 1, page) == Narrow(v, kept, child, page)
  {
    hide Narrow, AddFree, Listed, Coalesced, PageOk, BlockOk, FreeIn, SameOutside, AllAre;
    NarrowUnfold(s, current, child, page);
    var u := AddFree(s, given, child);
    AlignedHalves(current, child);
    if page < current + Pow2(child) {
      GiveBackUpper(s, u, current, child, given);
    } else {
      GiveBackLower(s, u, current, child, kept);
    }
    HoleContents(u, v, kept, Pow2(child));
  }

  lemma {:induction false} MergeStep(s: Pool, p: nat, k: nat, q: nat, t: Pool)
    requires Holed(s, p, Pow2(k)) && Aligned(p, k) && k < MAX_ORDER && IsFree(s, Buddy(p, k), k)
    requires q == if Buddy(p, k) < p then Buddy(p, k) else p
    requires t == BuddyPool.SetBlock(ClearHead(ClearHead(RemoveFree(s, Buddy(p, k)), p), Buddy(p, k)), q, k + 1, Free)
    ensures Aligned(q, k + 1) && Holed(t, q, Pow2(k + 1)) && MergeUp(t, q, k + 1) == MergeUp(s, p, k)
  {
    hide MergeUp;
    MergeUnfold(s, p, k);
    MergeOnce(s, p, k, q);
  }

  lemma {:induction false} SeedStep(s: Pool, u: Pool, page: nat, remaining: nat, k: nat, c: nat, m: nat)
    requires Holed(s, page, remaining) && page + remaining == s.total && Greedy(s, page, remaining)
    requires AllAre(s, 0, page, Free) && remaining > 0
    requires k == FitOrder(page, remaining) && u == AddFree(s, page, k) && c == page + Pow2(k) && m == remaining - Pow2(k)
    ensures Holed(u, c, m) && Greedy(u, c, m) && AllAre(u, 0, c, Free)
    ensures BuddyPool.AddFreeRange(u, c, m) == BuddyPool.AddFreeRange(s, page, remaining)
  {
    hide AddFreeRange, FitOrder, AddFree;
    RangeUnfold(s, u, page, remaining, k, c, m);
    SeedOne(s, u, page, remaining, k, c, m);
  }

  class Pmm {
    const heads: array<nat>
    const next: array<nat>
    const prev: array<nat>
    const owner: array<nat>
    const states: array<BlockState>
    const orders: array<nat>
    var base: nat
    var total: nat
    var freePages: int
    ghost var lists: seq<seq<nat>>

    /** The arrays have their sizes, are distinct, and thread the free lists. */
    ghost predicate Wired()
      reads this, heads, next, prev, owner, states, orders
    {
      && heads.Length == MAX_ORDER + 1
      && next.Length == prev.Length == owner.Length == states.Length == orders.Length == MAX_PAGES
      && heads != next && heads != prev && heads != owner && heads != orders
      && next != prev && next != owner && next != orders
      && prev != owner && prev != orders && owner != orders
      && total <= MAX_PAGES
      && Linked(lists, heads[..], next[..], prev[..])
    }

    ghost function View(): Pool
      reads this, owner, states, orders
    {
      Pool(base, total, freePages, lists, owner[..], states[..], orders[..])
    }

    ghost function Repr(): set<object> {
      {this, heads, next, prev, owner, states, orders}
    }

    /** Statically allocated tables before pmm_init, with every list empty. */
    constructor ()
      ensures Wired() && fresh(Repr())
    {
      heads := new nat[MAX_ORDER + 1](_ => INVALID);
      next := new nat[MAX_PAGES](_ => INVALID);
      prev := new nat[MAX_PAGES](_ => INVALID);
      owner := new nat[MAX_PAGES](_ => INVALID);
      states := new BlockState[MAX_PAGES](_ => Unused);
      orders := new nat[MAX_PAGES](_ => 0);
      base, total, freePages := 0, 0, 0;
      lists := seq(MAX_ORDER + 1, _ => []);
      new;
      assert forall k :: 0 <= k <= MAX_ORDER ==> lists[k] == [];
    }

    // ---- primitive updates

    method MarkBlockOwner(p: nat, order: nat)
      requires Wired() && order <= MAX_ORDER && p + Pow2(order) <= MAX_PAGES
      modifies owner
      ensures Wired() && owner[..] == Mark(old(owner[..]), p, Pow2(order))
    {
      var count := Pow2(order);
      var i := 0;
      while i < count
        invariant 0 <= i <= count && Wired()
        invariant forall j :: 0 <= j < MAX_PAGES ==> owner[j] == if p <= j < p + i then p else old(owner[j])
      {
        owner[p + i] := p;
        i := i + 1;
      }
    }

    method SetBlock(p: nat, order: nat, st: BlockState)
      requires Wired() && order <= MAX_ORDER && p + Pow2(order) <= MAX_PAGES
      modifies owner, states, orders
      ensures Wired() && View() == BuddyPool.SetBlock(old(View()), p, order, st)
    {
      MarkBlockOwner(p, order);
      orders[p] := order;
      states[p] := st;
    }

    method ClearBlockHead(p: nat)
      requires Wired() && p < MAX_PAGES
      modifies states, orders
      ensures Wired() && View() == ClearHead(old(View()), p)
    {
      orders[p] := 0;
      states[p] := Unused;
    }

    method FreeListPush(order: nat, p: nat)
      requires Wired() && order <= MAX_ORDER && p < MAX_PAGES
      requires forall k :: 0 <= k <= MAX_ORDER ==> p !in lists[k]
      modifies this`lists, heads, next, prev
      ensures Wired() && lists == old(lists)[order := [p] + old(lists)[order]]
    {
      PushLinked(lists, heads[..], next[..], prev[..], order, p);
      var head := heads[order];
      prev[p] := INVALID;
      next[p] := head;
      if head != INVALID {
        prev[head] := p;
      }
      heads[order] := p;
      lists := lists[order := [p] + lists[order]];
      assert heads[..] == old(heads[..])[order := p];
      assert next[..] == old(next[..])[p := head];
      assert prev[..] == PushedPrev(old(prev[..]), head, p);
    }

    method FreeListRemove(order: nat, p: nat)
      requires Wired() && order <= MAX_ORDER && p in lists[order]
      modifies this`lists, heads, next, prev
      ensures Wired() && lists == old(lists)[order := Without(old(lists)[order], p)]
    {
      ghost var q := lists[order];
      ghost var i: nat :| i < |q| && q[i] == p;
      RemoveLinked(lists, heads[..], next[..], prev[..], order, i);
      var before := prev[p];
      var after := next[p];
      if before != INVALID {
        next[before] := after;
      } else {
        heads[order] := after;
      }
      if after != INVALID {
        prev[after] := before;
      }
      prev[p] := INVALID;
      next[p] := INVALID;
      lists := lists[order := Without(q, p)];
      assert next[..] == RemovedNext(q, i, old(next[..]));
      assert prev[..] == RemovedPrev(q, i, old(prev[..]));
      assert heads[..] == if i > 0 then old(heads[..]) else old(heads[..])[order := After(q, 0)];
    }

    method AddFreeBlock(p: nat, order: nat)
      requires Wired() && order <= MAX_ORDER && p + Pow2(order) <= MAX_PAGES
      requires forall k :: 0 <= k <= MAX_ORDER ==> p !in lists[k]
      modifies this`lists, this`freePages, heads, next, prev, owner, states, orders
      ensures Wired() && View() == AddFree(old(View()), p, order)
    {
      SetBlock(p, order, Free);
      FreeListPush(order, p);
      freePages := freePages + Pow2(order);
    }

    method RemoveFreeBlock(p: nat)
      requires Wired() && p < MAX_PAGES && orders[p] <= MAX_ORDER && p in lists[orders[p]]
      modifies this`lists, this`freePages, heads, next, prev, states, orders
      ensures Wired() && View() == RemoveFree(old(View()), p)
    {
      var order := orders[p];
      FreeListRemove(order, p);
      freePages := freePages - Pow2(order);
      ClearBlockHead(p);
    }

    // ---- alloc_block

    method AllocBlock(target: nat) returns (r: nat)
      requires Wired() && Valid(View()) && target <= MAX_ORDER
      modifies this`lists, this`freePages, heads, next, prev, owner, states, orders
      ensures Wired() && View() == BuddyPool.AllocBlock(old(View()), target).0
      ensures match BuddyPool.AllocBlock(old(View()), target).1 case None => r == INVALID case Some(b) => r == b
    {
      ghost var s0 := View();
      var order := target;
      while order <= MAX_ORDER
        invariant target <= order <= MAX_ORDER + 1 && Wired() && View() == s0
        invariant BuddyPool.AllocBlock(s0, target) == AllocFrom(s0, target, order)
      {
        ListHead(lists, heads[..], next[..], prev[..], order);
        var block := heads[order];
        if block != INVALID {
          assert FreeOutside(s0, 0, 0, block, order) by { assert block in s0.lists[order]; }
          Detach(s0, block);
          RemoveFreeBlock(block);
          Split(block, order, target);
          SplitDownFills(RemoveFree(s0, block), block, order, target);
          Pow2Grows(target, order);
          SetBlock(block, target, Allocated);
          return block;
        }
        order := order + 1;
      }
      r := INVALID;
    }

    /** The inner loop of alloc_block. */
    method Split(block: nat, from: nat, target: nat)
      requires Wired() && target <= from <= MAX_ORDER && Aligned(block, from) && Holed(View(), block, Pow2(from))
      modifies this`lists, this`freePages, heads, next, prev, owner, states, orders
      ensures Wired() && View() == SplitDown(old(View()), block, from, target)
    {
      hide SplitDown, AddFree, Listed, Coalesced, PageOk, BlockOk, FreeIn;
      ghost var s0 := View();
      var order: nat := from;
      while order > target
        invariant target <= order <= from && Wired() && Aligned(block, order) && Holed(View(), block, Pow2(order))
        invariant SplitDown(s0, block, from, target) == SplitDown(View(), block, order, target)
      {
        var halfPages := Pow2(order - 1);
        var buddy := block + halfPages;
        SplitOnce(View(), block, order - 1, buddy, target);
        order := order - 1;
        AddFreeBlock(buddy, order);
      }
      SplitEnd(View(), block, target);
    }

    // ---- free_block

    /** The body of free_block's loop: merge with the buddy if it is free, otherwise report that the loop is over. */
    method MergeBuddy(current: nat, order: nat) returns (more: bool, merged: nat)
      requires Wired() && order < MAX_ORDER && Aligned(current, order) && Holed(View(), current, Pow2(order))
      modifies this`lists, this`freePages, heads, next, prev, owner, states, orders
      ensures Wired() && merged < MAX_PAGES
      ensures more ==> MergeUp(View(), merged, order + 1) == MergeUp(old(View()), current, order)
      ensures more ==> Aligned(merged, order + 1) && Holed(View(), merged, Pow2(order + 1))
      ensures !more ==> merged == current && View() == old(View())
      ensures !more ==> MergeUp(View(), current, order) == AddFree(View(), current, order)
    {
      hide MergeUp;
      ghost var s := View();
      BuddyHalves(current, order);
      MergeUnfold(s, current, order);
      var buddy := Buddy(current, order);
      if buddy >= total || states[buddy] != Free || orders[buddy] != order {
        return false, current;
      }
      merged := Absorb(current, order, buddy);
      MergeStep(s, current, order, merged, View());
      more := true;
    }

    method Absorb(current: nat, order: nat, buddy: nat) returns (merged: nat)
      requires Wired() && order < MAX_ORDER && Aligned(current, order) && Holed(View(), current, Pow2(order))
      requires buddy == Buddy(current, order) && IsFree(View(), buddy, order)
      modifies this`lists, this`freePages, heads, next, prev, owner, states, orders
      ensures Wired() && merged == if buddy < current then buddy else current
      ensures View() == BuddyPool.SetBlock(ClearHead(ClearHead(RemoveFree(old(View()), buddy), current), buddy),
                                           merged, order + 1, Free)
    {
      hide Listed, Coalesced, PageOk, BlockOk, FreeIn, Aligned;
      ghost var s := View();
      merged := if buddy < current then buddy else current;
      JoinBuddy(s, current, order, merged);
      FreeHeadListed(s, current, Pow2(order), buddy, order);
      RemoveFreeBlock(buddy);
      ClearBlockHead(current);
      ClearBlockHead(buddy);
      SetBlock(merged, order + 1, Free);
    }

    method FreeBlock(p: nat, k: nat)
      requires Wired() && k <= MAX_ORDER && Aligned(p, k) && Holed(View(), p, Pow2(k))
      modifies this`lists, this`freePages, heads, next, prev, owner, states, orders
      ensures Wired() && View() == BuddyPool.FreeBlock(old(View()), p, k)
    {
      hide MergeUp, AddFree, Listed, Coalesced, PageOk, BlockOk, FreeIn;
      ghost var s0 := View();
      SetBlock(p, k, Free);
      HoleContents(s0, View(), p, Pow2(k));
      var current, order := Coalesce(p, k);
      HoleUnlisted(View(), current, Pow2(order), current);
      AddFreeBlock(current, order);
    }

    /** free_block's loop: merges until the buddy is not free; what is left is to list the block. */
    method Coalesce(p: nat, k: nat) returns (current: nat, order: nat)
      requires Wired() && k <= MAX_ORDER && Aligned(p, k) && Holed(View(), p, Pow2(k))
      modifies this`lists, this`freePages, heads, next, prev, owner, states, orders
      ensures Wired() && order <= MAX_ORDER && Aligned(current, order) && Holed(View(), current, Pow2(order))
      ensures AddFree(View(), current, order) == MergeUp(old(View()), p, k)
    {
      hide MergeUp, AddFree, Listed, Coalesced, PageOk, BlockOk, FreeIn;
      var more := true;
      current, order := p, k;
      while more && order < MAX_ORDER
        invariant order <= MAX_ORDER && Wired() && Aligned(current, order) && Holed(View(), current, Pow2(order))
        invariant MergeUp(View(), current, order) == MergeUp(old(View()), p, k)
        invariant !more ==> MergeUp(View(), current, order) == AddFree(View(), current, order)
        decreases MAX_ORDER - order, more
      {
        more, current := MergeBuddy(current, order);
        if more {
          order := order + 1;
        }
      }
      MergeUnfold(View(), current, order);
    }

    // ---- reserve_page

    method ReservePage(page: nat) returns (ok: bool)
      requires Wired() && Valid(View())
      modifies this`lists, this`freePages, heads, next, prev, owner, states, orders
      ensures Wired() && (View(), ok) == BuddyPool.ReservePage(old(View()), page)
    {
      if page >= total {
        return false;
      }
      ghost var s0 := View();
      assert PageOk(s0, 0, 0, page);
      var head := owner[page];
      if head == INVALID {
        return false;
      }
      if states[head] == Reserved {
        return true;
      }
      if states[head] == Allocated {
        return false;
      }
      if states[head] != Free {
        return false;
      }
      Detach(s0, head);
      FreeHeadListed(s0, 0, 0, head, s0.order[head]);
      var order := orders[head];
      RemoveFreeBlock(head);
      NarrowIsolates(RemoveFree(s0, head), head, order, page);
      var current := Isolate(head, order, page);
      SetBlock(current, 0, Reserved);
      ok := true;
    }

    /** reserve_page's halving loop. */
    method Isolate(head: nat, from: nat, page: nat) returns (current: nat)
      requires Wired() && from <= MAX_ORDER && Aligned(head, from) && Holed(View(), head, Pow2(from)) && In(page, head, Pow2(from))
      modifies this`lists, this`freePages, heads, next, prev, owner, states, orders
      ensures Wired() && (View(), current) == Narrow(old(View()), head, from, page)
    {
      hide Narrow;
      ghost var s0 := View();
      current := head;
      var order: nat := from;
      while order > 0
        invariant order <= from && Wired() && Aligned(current, order) && Holed(View(), current, Pow2(order))
        invariant In(page, current, Pow2(order))
        invariant Narrow(s0, head, from, page) == Narrow(View(), current, order, page)
      {
        current := Halve(current, order - 1, page);
        order := order - 1;
      }
      NarrowEnd(View(), current, page);
    }

    method Halve(current: nat, child: nat, page: nat) returns (kept: nat)
      requires Wired() && child < MAX_ORDER && Aligned(current, child + 1) && Holed(View(), current, Pow2(child + 1))
      requires In(page, current, Pow2(child + 1))
      modifies this`lists, this`freePages, heads, next, prev, owner, states, orders
      ensures Wired() && Aligned(kept, child) && Holed(View(), kept, Pow2(child)) && In(page, kept, Pow2(child))
      ensures Narrow(old(View()), current, child + 1, page) == Narrow(View(), kept, child, page)
    {
      hide Narrow, Listed, Coalesced, PageOk, BlockOk, FreeIn;
      ghost var s := View();
      var buddy := current + Pow2(child);
      var given;
      if page < buddy {
        kept, given := current, buddy;
      } else {
        kept, given := buddy, current;
      }
      HoleUnlisted(s, current, Pow2(child + 1), given);
      AddFreeBlock(given, child);
      SetBlock(kept, child, Allocated);
      HalveOnce(s, current, child, page, kept, given, View());
    }

    // ---- add_free_range and pmm_init

    method MaxOrderForPages(pages: nat) returns (order: nat)
      requires pages > 0
      ensures order == MaxOrder(pages, 0)
    {
      order := 0;
      while order < MAX_ORDER
        invariant order <= MAX_ORDER && Pow2(order) <= pages && MaxOrder(pages, order) == MaxOrder(pages, 0)
      {
        if Pow2(order + 1) > pages {
          break;
        }
        order := order + 1;
      }
    }

    /** The order add_free_range picks for the next block: the largest that fits and is aligned. */
    method ChooseOrder(page: nat, remaining: nat) returns (order: nat)
      requires remaining > 0
      ensures order == FitOrder(page, remaining)
    {
      order := MaxOrderForPages(remaining);
      ghost var top := order;
      while order > 0 && page % Pow2(order) != 0
        invariant order <= top && AlignOrder(page, order) == AlignOrder(page, top)
      {
        AlignedIsMultiple(page, order);
        order := order - 1;
      }
      AlignedIsMultiple(page, order);
    }

    method AddFreeRange(start: nat, count: nat)
      requires Wired() && start + count == total && Holed(View(), start, count) && Greedy(View(), start, count)
      requires AllAre(View(), 0, start, Free)
      modifies this`lists, this`freePages, heads, next, prev, owner, states, orders
      ensures Wired() && View() == BuddyPool.AddFreeRange(old(View()), start, count)
    {
      ghost var s0 := View();
      var page: nat, remaining: nat := start, count;
      while remaining > 0
        invariant page + remaining == total && Wired() && Holed(View(), page, remaining)
        invariant Greedy(View(), page, remaining) && AllAre(View(), 0, page, Free)
        invariant BuddyPool.AddFreeRange(View(), page, remaining) == BuddyPool.AddFreeRange(s0, start, count)
      {
        page, remaining := SeedBlock(page, remaining);
      }
    }

    /** The body of add_free_range's loop. */
    method SeedBlock(page: nat, remaining: nat) returns (page1: nat, remaining1: nat)
      requires Wired() && page + remaining == total && Holed(View(), page, remaining) && Greedy(View(), page, remaining)
      requires AllAre(View(), 0, page, Free) && remaining > 0
      modifies this`lists, this`freePages, heads, next, prev, owner, states, orders
      ensures Wired() && page1 + remaining1 == total && Holed(View(), page1, remaining1) && remaining1 < remaining
      ensures Greedy(View(), page1, remaining1) && AllAre(View(), 0, page1, Free)
      ensures BuddyPool.AddFreeRange(View(), page1, remaining1) == BuddyPool.AddFreeRange(old(View()), page, remaining)
    {
      ghost var s := View();
      var order := ChooseOrder(page, remaining);
      HoleUnlisted(s, page, remaining, page);
      AddFreeBlock(page, order);
      page1 := page + Pow2(order);
      remaining1 := remaining - Pow2(order);
      SeedStep(s, View(), page, remaining, order, page1, remaining1);
    }

    /** reset_allocator_state. */
    method Reset()
      requires Wired()
      modifies this`lists, heads, next, prev, owner, states, orders
      ensures Wired() && lists == seq(MAX_ORDER + 1, _ => []) && owner[..] == seq(MAX_PAGES, _ => INVALID)
      ensures states[..] == seq(MAX_PAGES, _ => Unused) && orders[..] == seq(MAX_PAGES, _ => 0)
    {
      var order := 0;
      while order <= MAX_ORDER
        invariant order <= MAX_ORDER + 1 && forall j :: 0 <= j < order ==> heads[j] == INVALID
      {
        heads[order] := INVALID;
        order := order + 1;
      }
      var page := 0;
      while page < MAX_PAGES
        invariant page <= MAX_PAGES && forall j :: 0 <= j <= MAX_ORDER ==> heads[j] == INVALID
        invariant forall j :: 0 <= j < page ==> owner[j] == INVALID && states[j] == Unused && orders[j] == 0
      {
        next[page] := INVALID;
        prev[page] := INVALID;
        owner[page] := INVALID;
        states[page] := Unused;
        orders[page] := 0;
        page := page + 1;
      }
      lists := seq(MAX_ORDER + 1, _ => []);
      assert forall k :: 0 <= k <= MAX_ORDER ==> lists[k] == [];
    }

    method Init(regionBase: nat, regionSize: nat)
      requires Wired() && regionBase < 0x1_0000_0000_0000_0000 && regionSize < 0x1_0000_0000_0000_0000
      modifies Repr()
      ensures Wired() && Ready(View()) && View() == PoolApi.Init(regionBase, regionSize)
    {
      var end := (regionBase + regionSize) % 0x1_0000_0000_0000_0000;
      base := PageDown((regionBase + 4096 - 1) % 0x1_0000_0000_0000_0000);
      if end < regionBase || base >= end {
        total := 0;
      } else {
        total := (end - base) / 4096;
        if total > MAX_PAGES {
          total := MAX_PAGES;
        }
      }
      freePages := 0;
      Reset();
      assert View() == EmptyPool(InitBase(regionBase), InitTotal(regionBase, regionSize));
      InitReady(regionBase, regionSize);
      if total > 0 {
        EmptyPoolHoled(base, total);
        AddFreeRange(0, total);
        SeededPoolFree(regionBase, regionSize);
        var _ := ReservePage(0);
      }
    }

    // ---- the exported operations

    method AllocPage() returns (r: Option<nat>)
      requires Wired() && Valid(View())
      modifies Repr()
      ensures Wired() && (View(), r) == PoolApi.AllocPage(old(View()))
    {
      AllocFromTakes(View(), 0, 0);
      var block := AllocBlock(0);
      if block == INVALID {
        return None;
      }
      r := Some(base + block * 4096);
    }

    method FreePage(addr: nat)
      requires Wired() && Valid(View())
      modifies Repr()
      ensures Wired() && View() == PoolApi.FreePage(old(View()), addr)
    {
      if total == 0 || addr < base {
        return;
      }
      var diff := addr - base;
      if diff % 4096 != 0 {
        return;
      }
      var page := diff / 4096;
      if page >= total || states[page] != Allocated || orders[page] != 0 {
        return;
      }
      assert FreeIndex(View(), addr) == Some(page);
      DetachTaken(View(), page);
      var order := orders[page];
      ClearBlockHead(page);
      FreeBlock(page, order);
    }

    method ReserveRange(rangeBase: nat, rangeSize: nat)
      requires Wired() && Ready(View()) && rangeBase < 0x1_0000_0000_0000_0000 && rangeSize < 0x1_0000_0000_0000_0000
      modifies Repr()
      ensures Wired() && View() == PoolApi.ReserveRange(old(View()), rangeBase, rangeSize)
    {
      ghost var s0 := View();
      if rangeSize == 0 || total == 0 {
        return;
      }
      var end := (rangeBase + rangeSize) % 0x1_0000_0000_0000_0000;
      if end < rangeBase {
        end := 0x1_0000_0000_0000_0000 - 1;
      }
      var alignedStart := PageDown(rangeBase);
      var alignedEnd;
      if end > 0x1_0000_0000_0000_0000 - 1 - (4096 - 1) {
        alignedEnd := PageDown(0x1_0000_0000_0000_0000 - 1);
      } else {
        alignedEnd := PageUp(end);
      }
      if alignedEnd <= base {
        return;
      }
      if alignedStart < base {
        alignedStart := base;
      }
      var poolEnd := base + total * 4096;
      if alignedStart >= poolEnd {
        return;
      }
      if alignedEnd > poolEnd {
        alignedEnd := poolEnd;
      }
      var firstPage := (alignedStart - base) / 4096;
      var lastPage := (alignedEnd - base) / 4096;
      assert (firstPage, lastPage) == ReserveBounds(s0, rangeBase, rangeSize);
      ReserveEach(firstPage, lastPage);
    }

    /** The loop of pmm_reserve_range. */
    method ReserveEach(first: nat, last: nat)
      requires Wired() && Valid(View())
      modifies Repr()
      ensures Wired() && View() == ReservePages(old(View()), first, last)
    {
      hide BuddyPool.ReservePage;
      ghost var s0 := View();
      var page := first;
      while page < last
        invariant Wired() && Valid(View())
        invariant ReservePages(View(), page, last) == ReservePages(s0, first, last)
      {
        ReservePageExact(View(), page);
        var _ := ReservePage(page);
        page := page + 1;
      }
    }
  }
}
