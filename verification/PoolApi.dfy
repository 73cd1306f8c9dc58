/** pmm_init, pmm_alloc_page, pmm_free_page and pmm_reserve_range, and what holds over any sequence of calls. */
module PoolApi {
  import opened Options
  import opened Arith
  import opened BuddyPool
  import opened BuddySteps
  import opened BuddyOps
  import opened BuddyTheorems

  /** Pages of the pool are page-aligned and end below the last page of the 64-bit address space. */
  predicate Placed(s: Pool) {
    s.base % 4096 == 0 && s.base + s.total * 4096 <= 0x1_0000_0000_0000_0000 - 4096
  }

  /** Taken blocks are single pages: the public interface never hands out a larger one. */
  ghost predicate Single(s: Pool)
    requires Shape(s)
  {
    forall h {:trigger SingleAt(s, h)} :: 0 <= h < s.total ==> SingleAt(s, h)
  }

  predicate SingleAt(s: Pool, h: nat)
    requires Shape(s) && h < s.total
  {
    s.state[h] == Allocated || s.state[h] == Reserved ==> s.order[h] == 0
  }

  ghost predicate SingleBut(s: Pool, c: nat)
    requires Shape(s)
  {
    forall h {:trigger SingleAt(s, h)} :: 0 <= h < s.total && h != c ==> SingleAt(s, h)
  }

  /** What holds between any two calls: the partition, single taken pages, and page 0 of the pool withheld. */
  ghost predicate Ready(s: Pool) {
    Valid(s) && Placed(s) && Single(s) && (s.total > 0 ==> ClassOf(s, 0) == Reserved)
  }

  function AddrOf(s: Pool, p: nat): nat {
    s.base + p * 4096
  }

  function AllocPage(s: Pool): (Pool, Option<nat>)
    requires Valid(s)
  {
    var (t, r) := AllocBlock(s, 0);
    match r
    case None => (t, None)
    case Some(b) => (t, Some(AddrOf(s, b)))
  }

  /** The page index pmm_free_page acts on, if the address is one it accepts. */
  function FreeIndex(s: Pool, addr: nat): Option<nat>
    requires Shape(s)
  {
    if s.total == 0 || addr < s.base || (addr - s.base) % 4096 != 0 then None
    else
      var page := (addr - s.base) / 4096;
      if page >= s.total || s.state[page] != Allocated || s.order[page] != 0 then None else Some(page)
  }

  function FreePage(s: Pool, addr: nat): Pool
    requires Valid(s)
  {
    match FreeIndex(s, addr)
    case None => s
    case Some(page) => FreeBlock(ClearHead(s, page), page, s.order[page])
  }

  function ReservePages(s: Pool, first: nat, last: nat): Pool
    requires Valid(s)
    decreases last - first
  {
    if first >= last then s
    else
      ReservePageExact(s, first);
      ReservePages(ReservePage(s, first).0, first + 1, last)
  }

  /** One past the last byte of the range, rounded up to a page without wrapping. */
  function StopOf(base: nat, size: nat): nat {
    var sum := (base + size) % 0x1_0000_0000_0000_0000;
    var end := if sum < base then 0x1_0000_0000_0000_0000 - 1 else sum;
    if end > 0x1_0000_0000_0000_0000 - 1 - (4096 - 1) then PageDown(0x1_0000_0000_0000_0000 - 1) else PageUp(end)
  }

  /** First and one-past-last page of pmm_reserve_range, with the saturation and clamping of its 64-bit sums. */
  function ReserveBounds(s: Pool, base: nat, size: nat): (nat, nat)
    requires base < 0x1_0000_0000_0000_0000 && size < 0x1_0000_0000_0000_0000
  {
    if size == 0 || s.total == 0 then (0, 0)
    else
      var start, stop := PageDown(base), StopOf(base, size);
      var poolEnd := s.base + s.total * 4096;
      if stop <= s.base then (0, 0)
      else
        var from := if start < s.base then s.base else start;
        if from >= poolEnd then (0, 0)
        else
          var upto := if stop > poolEnd then poolEnd else stop;
          ((from - s.base) / 4096, (upto - s.base) / 4096)
  }

  function ReserveRange(s: Pool, base: nat, size: nat): Pool
    requires Valid(s) && base < 0x1_0000_0000_0000_0000 && size < 0x1_0000_0000_0000_0000
  {
    var (first, last) := ReserveBounds(s, base, size);
    ReservePages(s, first, last)
  }

  function Init(base: nat, size: nat): Pool
    requires base < 0x1_0000_0000_0000_0000 && size < 0x1_0000_0000_0000_0000
  {
    SeededPoolFree(base, size);
    ReservePage(SeededPool(base, size), 0).0
  }

  // ---- taken blocks stay single pages

  lemma {:induction false} SplitDownSingle(s: Pool, b: nat, order: nat, target: nat)
    requires Shape(s) && order <= MAX_ORDER && b + Pow2(order) <= s.total && Single(s)
    ensures var t := SplitDown(s, b, order, target);
            t.total == s.total && Single(t)
    decreases order
  {
    if order > target {
      var u := AddFree(s, b + Pow2(order - 1), order - 1);
      assert forall h :: 0 <= h < s.total && SingleAt(s, h) ==> SingleAt(u, h);
      SplitDownSingle(u, b, order - 1, target);
    }
  }

  lemma {:induction false} AllocSingle(s: Pool, order: nat)
    requires Valid(s) && order <= MAX_ORDER + 1 && Single(s)
    ensures Shape(AllocFrom(s, 0, order).0) && Single(AllocFrom(s, 0, order).0)
    decreases MAX_ORDER + 1 - order
  {
    if order <= MAX_ORDER {
      if s.lists[order] == [] {
        AllocSingle(s, order + 1);
      } else {
        var b := s.lists[order][0];
        assert FreeOutside(s, 0, 0, b, order) by { assert b in s.lists[order]; }
        assert BlockOk(s, 0, 0, b);
        TakeSingle(s, b, order);
      }
    }
  }

  lemma {:induction false} TakeSingle(s: Pool, b: nat, order: nat)
    requires Shape(s) && order <= MAX_ORDER && IsFree(s, b, order) && b + Pow2(order) <= s.total && Single(s)
    ensures Single(SetBlock(SplitDown(RemoveFree(s, b), b, order, 0), b, 0, Allocated))
  {
    var u := RemoveFree(s, b);
    assert forall h :: 0 <= h < s.total && SingleAt(s, h) ==> SingleAt(u, h);
    SplitDownSingle(u, b, order, 0);
    var v := SplitDown(u, b, order, 0);
    assert forall h :: 0 <= h < s.total && SingleAt(v, h) ==> SingleAt(SetBlock(v, b, 0, Allocated), h);
  }

  lemma {:induction false} MergeUpSingle(s: Pool, p: nat, k: nat)
    requires Shape(s) && p < MAX_PAGES && k <= MAX_ORDER && Single(s)
    ensures Shape(MergeUp(s, p, k)) && MergeUp(s, p, k).total == s.total && Single(MergeUp(s, p, k))
    decreases MAX_ORDER - k
  {
    hide MergeUp;
    MergeUnfold(s, p, k);
    var buddy := Buddy(p, k);
    if k < MAX_ORDER && IsFree(s, buddy, k) {
      var q := if buddy < p then buddy else p;
      var u := SetBlock(ClearHead(ClearHead(RemoveFree(s, buddy), p), buddy), q, k + 1, Free);
      assert forall h :: 0 <= h < s.total && SingleAt(s, h) ==> SingleAt(u, h);
      MergeUpSingle(u, q, k + 1);
    } else {
      assert forall h :: 0 <= h < s.total && SingleAt(s, h) ==> SingleAt(AddFree(s, p, k), h);
    }
  }

  lemma {:induction false} NarrowSingle(s: Pool, cur: nat, order: nat, page: nat)
    requires Shape(s) && order <= MAX_ORDER && cur + Pow2(order) <= s.total && SingleBut(s, cur)
    ensures var (t, c) := Narrow(s, cur, order, page);
            t.total == s.total && SingleBut(t, c)
    decreases order
  {
    if order > 0 {
      var child := order - 1;
      var buddy := cur + Pow2(child);
      if page < buddy {
        var u := SetBlock(AddFree(s, buddy, child), cur, child, Allocated);
        assert forall h :: 0 <= h < s.total && h != cur && SingleAt(s, h) ==> SingleAt(u, h);
        NarrowSingle(u, cur, child, page);
      } else {
        var u := SetBlock(AddFree(s, cur, child), buddy, child, Allocated);
        assert forall h :: 0 <= h < s.total && h != cur && h != buddy && SingleAt(s, h) ==> SingleAt(u, h);
        NarrowSingle(u, buddy, child, page);
      }
    }
  }

  lemma {:induction false} ReserveSingle(s: Pool, page: nat)
    requires Valid(s) && Single(s)
    ensures ReservePage(s, page).0.total == s.total && Shape(ReservePage(s, page).0) && Single(ReservePage(s, page).0)
  {
    if page < s.total {
      assert PageOk(s, 0, 0, page);
      var head := s.owner[page];
      assert BlockOk(s, 0, 0, head);
      if s.state[head] == Free {
        var u := RemoveFree(s, head);
        assert forall h :: 0 <= h < s.total && SingleAt(s, h) ==> SingleAt(u, h);
        NarrowSingle(u, head, s.order[head], page);
        var (v, c) := Narrow(u, head, s.order[head], page);
        assert forall h :: 0 <= h < s.total && h != c && SingleAt(v, h) ==> SingleAt(SetBlock(v, c, 0, Reserved), h);
      }
    }
  }

  // ---- each call, page by page

  /** A page counts as allocated exactly when it is itself the head of an allocated single-page block. */
  lemma {:induction false} AllocatedHeads(s: Pool, p: nat)
    requires Valid(s) && Single(s) && p < s.total
    ensures ClassOf(s, p) == Allocated <==> s.state[p] == Allocated && s.order[p] == 0
  {
    assert PageOk(s, 0, 0, p) && BlockOk(s, 0, 0, p) && SingleAt(s, s.owner[p]) && SingleAt(s, p);
  }

  lemma {:induction false} AllocPageExact(s: Pool)
    requires Ready(s)
    ensures var (t, r) := AllocPage(s);
            (r == None <==> s.free == 0)
            && match r
               case None => t == s
               case Some(a) =>
                 exists p: nat :: 0 < p < s.total && a == s.base + p * 4096 && ClassOf(s, p) == Free
                                  && ClassOf(t, p) == Allocated && SameOutside(s, t, p, 1) && Ready(t)
  {
    AllocBlockExact(s, 0);
    AllocSingle(s, 0);
    var (t, r) := AllocBlock(s, 0);
    forall p: nat | p in FreeIn(s, 0, 0)
      ensures FreeRun(s, p, 0)
    {
      assert ClassOf(s, p) == Free;
    }
    if r == None {
      assert FreeIn(s, 0, 0) == {};
    } else {
      var p := r.value;
      assert ClassOf(s, p) == Free && ClassOf(t, p) == Allocated;
      assert FreeAt(s, 0, 0, p) && p in FreeIn(s, 0, 0);
    }
  }

  /** pmm_free_page acts only on an allocated page's own address; every other address changes nothing. */
  lemma {:induction false} FreePageExact(s: Pool, addr: nat)
    requires Ready(s)
    ensures var t := FreePage(s, addr);
            Ready(t) && t.base == s.base && t.total == s.total
            && (forall p: nat {:trigger ClassOf(t, p)} :: p < s.total ==>
                  ClassOf(t, p) == if addr == s.base + p * 4096 && ClassOf(s, p) == Allocated then Free else ClassOf(s, p))
            && ((forall p: nat :: p < s.total && addr == s.base + p * 4096 ==> ClassOf(s, p) != Allocated) ==> t == s)
  {
    hide MergeUp;
    var t := FreePage(s, addr);
    match FreeIndex(s, addr)
    case None =>
      forall p: nat | p < s.total && addr == AddrOf(s, p)
        ensures ClassOf(s, p) != Allocated
      {
        AllocatedHeads(s, p);
      }
    case Some(page) =>
      assert addr == AddrOf(s, page);
      AllocatedHeads(s, page);
      DetachTaken(s, page);
      var u := ClearHead(s, page);
      FreeBlockFrees(u, page, 0);
      ThenSame(s, u, t, page, 1, page, 1);
      assert forall h :: 0 <= h < s.total && SingleAt(s, h) ==> SingleAt(SetBlock(u, page, 0, Free), h);
      MergeUpSingle(SetBlock(u, page, 0, Free), page, 0);
      assert ClassOf(t, 0) == ClassOf(s, 0);
  }

  /** pmm_alloc_page followed by pmm_free_page of its result gives back the very same free blocks. */
  lemma {:induction false} AllocThenFree(s: Pool, h: nat, k: nat)
    requires Ready(s) && AllocPage(s).1 != None
    ensures var (t, a) := AllocPage(s);
            Valid(t) && Ready(FreePage(t, a.value)) && (IsFree(FreePage(t, a.value), h, k) <==> IsFree(s, h, k))
  {
    AllocPageExact(s);
    var (t, a) := AllocPage(s);
    var u := FreePage(t, a.value);
    FreePageExact(t, a.value);
    forall x: nat | x < s.total
      ensures ClassOf(u, x) == ClassOf(s, x)
    {
      assert a.value == AddrOf(t, x) || ClassOf(t, x) == ClassOf(s, x);
    }
    FreePagesFixBlocks(s, u, h, k);
  }

  /** Page p meets the byte range [base, base+size), the sum taken without wrap-around. */
  predicate Overlaps(s: Pool, p: nat, base: nat, size: nat) {
    var a := s.base + p * 4096;
    size > 0 && base < a + 4096 && a < base + size
  }

  lemma {:induction false} BoundsAreOverlap(s: Pool, base: nat, size: nat, p: nat)
    requires Placed(s) && base < 0x1_0000_0000_0000_0000 && size < 0x1_0000_0000_0000_0000 && p < s.total
    ensures var (first, last) := ReserveBounds(s, base, size);
            last <= s.total && (first <= p < last <==> Overlaps(s, p, base, size))
  {
    hide StopOf, PageDown;
    if size > 0 {
      var (stop, a) := (StopOf(base, size), s.base + p * 4096);
      PageFloor(base);
      assert a % 4096 == 0 && a / 4096 >= 0;
      assert base < a + 4096 <==> PageDown(base) <= a;
      StopBounds(base, size);
      ClampedBounds(s, PageDown(base), stop, p);
    }
  }

  lemma {:induction false} PageFloor(a: nat)
    ensures PageDown(a) % 4096 == 0 && PageDown(a) <= a < PageDown(a) + 4096
  {
  }

  /** The rounded end covers exactly the pages, other than the last of the address space, that begin inside the range. */
  lemma {:induction false} StopBounds(base: nat, size: nat)
    requires 0 < size < 0x1_0000_0000_0000_0000 && base < 0x1_0000_0000_0000_0000
    ensures StopOf(base, size) % 4096 == 0
    ensures forall a: nat {:trigger a / 4096} :: a % 4096 == 0 && a < 0x1_0000_0000_0000_0000 - 4096 ==>
              (a < StopOf(base, size) <==> a < base + size)
  {
    var stop := StopOf(base, size);
    if base + size >= 0x1_0000_0000_0000_0000 {
      assert stop == 0x1_0000_0000_0000_0000 - 4096;
    } else if base + size > 0x1_0000_0000_0000_0000 - 4096 {
      assert stop == 0x1_0000_0000_0000_0000 - 4096;
    } else {
      assert base + size <= stop < base + size + 4096;
    }
  }

  lemma {:induction false} ClampedBounds(s: Pool, start: nat, stop: nat, p: nat)
    requires Placed(s) && start % 4096 == 0 && stop % 4096 == 0 && p < s.total
    ensures var a := s.base + p * 4096;
            var poolEnd := s.base + s.total * 4096;
            var from := if start < s.base then s.base else start;
            var upto := if stop > poolEnd then poolEnd else stop;
            stop > s.base && from < poolEnd ==>
              && (upto - s.base) / 4096 <= s.total
              && ((from - s.base) / 4096 <= p < (upto - s.base) / 4096 <==> start <= a < stop)
  {
    var from := if start < s.base then s.base else start;
    var upto := if stop > s.base + s.total * 4096 then s.base + s.total * 4096 else stop;
    assert from % 4096 == 0 && upto % 4096 == 0;
    assert (from - s.base) % 4096 == 0 && (upto - s.base) % 4096 == 0;
  }

  lemma {:induction false} ReservePagesExact(s: Pool, first: nat, last: nat)
    requires Ready(s) && last <= s.total
    ensures var t := ReservePages(s, first, last);
            Ready(t) && t.base == s.base && t.total == s.total
            && forall p: nat {:trigger ClassOf(t, p)} :: p < s.total ==>
                 ClassOf(t, p) == if first <= p < last && ClassOf(s, p) == Free then Reserved else ClassOf(s, p)
    decreases last - first
  {
    if first < last {
      var u := ReservePage(s, first).0;
      ReservePageExact(s, first);
      ReserveSingle(s, first);
      assert ClassOf(u, 0) == Reserved;
      ReservePagesExact(u, first + 1, last);
      forall p: nat | p < s.total
        ensures ClassOf(ReservePages(s, first, last), p)
             == if first <= p < last && ClassOf(s, p) == Free then Reserved else ClassOf(s, p)
      {
        assert p != first ==> ClassOf(u, p) == ClassOf(s, p);
      }
    }
  }

  /** pmm_reserve_range reserves exactly the free pages that meet the range; every other page counts as before. */
  lemma {:induction false} ReserveRangeExact(s: Pool, base: nat, size: nat)
    requires Ready(s) && base < 0x1_0000_0000_0000_0000 && size < 0x1_0000_0000_0000_0000
    ensures var t := ReserveRange(s, base, size);
            Ready(t) && t.base == s.base && t.total == s.total
            && forall p: nat {:trigger ClassOf(t, p)} :: p < s.total ==>
                 ClassOf(t, p) == if Overlaps(s, p, base, size) && ClassOf(s, p) == Free then Reserved else ClassOf(s, p)
  {
    var (first, last) := ReserveBounds(s, base, size);
    if s.total == 0 {
      assert ReserveRange(s, base, size) == s;
    } else {
      BoundsAreOverlap(s, base, size, 0);
      ReservePagesExact(s, first, last);
      forall p: nat | p < s.total
        ensures first <= p < last <==> Overlaps(s, p, base, size)
      {
        BoundsAreOverlap(s, base, size, p);
      }
    }
  }

  // ---- pmm_init

  /** pmm_init leaves every page of the pool free except page 0, which is reserved. */
  lemma {:induction false} InitReady(base: nat, size: nat)
    requires base < 0x1_0000_0000_0000_0000 && size < 0x1_0000_0000_0000_0000
    ensures var s := Init(base, size);
            Ready(s) && s.base == InitBase(base) && s.total == InitTotal(base, size)
            && forall p: nat {:trigger ClassOf(s, p)} :: 0 < p < s.total ==> ClassOf(s, p) == Free
  {
    SeededPoolFree(base, size);
    var s := SeededPool(base, size);
    forall h | 0 <= h < s.total
      ensures SingleAt(s, h)
    {
      assert PageOk(s, 0, 0, h) && BlockOk(s, 0, 0, h);
      assert ClassOf(s, h) == Free;
    }
    RegionArith(base, size, InitBase(base), InitTotal(base, size));
    FirstPageWithheld(s);
  }

  lemma {:induction false} FirstPageWithheld(s: Pool)
    requires Valid(s) && Placed(s) && Single(s) && AllAre(s, 0, s.total, Free)
    ensures var t := ReservePage(s, 0).0;
            Ready(t) && t.base == s.base && t.total == s.total
            && forall p: nat {:trigger ClassOf(t, p)} :: 0 < p < s.total ==> ClassOf(t, p) == Free
  {
    ReservePageExact(s, 0);
    ReserveSingle(s, 0);
    var t := ReservePage(s, 0).0;
    forall p: nat | 0 < p < s.total
      ensures ClassOf(t, p) == Free
    {
      assert ClassOf(t, p) == ClassOf(s, p);
    }
  }

  /** The pool lies inside the memory given to pmm_init exactly when rounding base up to a page does not wrap
      (or the region itself wraps, which leaves the pool empty). */
  lemma {:induction false} InitRegion(base: nat, size: nat)
    requires base < 0x1_0000_0000_0000_0000 && size < 0x1_0000_0000_0000_0000
    ensures var s := Init(base, size);
            (s.total > 0 ==> base <= s.base && s.base + s.total * 4096 <= base + size)
            <==> base <= 0x1_0000_0000_0000_0000 - 4096 || base + size >= 0x1_0000_0000_0000_0000
  {
    InitReady(base, size);
    RegionArith(base, size, InitBase(base), InitTotal(base, size));
  }

  lemma {:induction false} RegionArith(base: nat, size: nat, start: nat, total: nat)
    requires base < 0x1_0000_0000_0000_0000 && size < 0x1_0000_0000_0000_0000 && start == InitBase(base) && total == InitTotal(base, size)
    ensures (total > 0 ==> base <= start && start + total * 4096 <= base + size)
            <==> base <= 0x1_0000_0000_0000_0000 - 4096 || base + size >= 0x1_0000_0000_0000_0000
    ensures start % 4096 == 0 && start + total * 4096 <= 0x1_0000_0000_0000_0000 - 4096
  {
    if base <= 0x1_0000_0000_0000_0000 - 4096 {
      assert base <= start;
    } else {
      assert start == 0;
    }
  }

  /** The pool is as large as it can be: it starts at the first page boundary of the region and ends less than a page
      before the region does, unless it has the most pages the tables can hold. A region that wraps gives no page. */
  lemma {:induction false} InitMaximal(base: nat, size: nat)
    requires base < 0x1_0000_0000_0000_0000 && size < 0x1_0000_0000_0000_0000
    ensures var s := Init(base, size);
            && s.base % 4096 == 0 && s.total <= 65536
            && (base + size >= 0x1_0000_0000_0000_0000 ==> s.total == 0)
            && (base <= 0x1_0000_0000_0000_0000 - 4096 && base + size < 0x1_0000_0000_0000_0000 ==>
                  && base <= s.base < base + 4096
                  && (s.total > 0 ==> s.base + s.total * 4096 <= base + size)
                  && (s.total == 65536 || s.base + (s.total + 1) * 4096 > base + size))
            && forall p: nat {:trigger ClassOf(s, p)} :: p < s.total ==> ClassOf(s, p) == if p == 0 then Reserved else Free
  {
    hide Init, Ready, InitBase, InitTotal, ClassOf;
    InitReady(base, size);
    ReadyFirst(Init(base, size));
    MaximalArith(base, size, InitBase(base), InitTotal(base, size));
  }

  lemma {:induction false} ReadyFirst(s: Pool)
    requires Ready(s)
    ensures s.total > 0 ==> ClassOf(s, 0) == Reserved
  {
  }

  lemma {:induction false} MaximalArith(base: nat, size: nat, start: nat, total: nat)
    requires base < 0x1_0000_0000_0000_0000 && size < 0x1_0000_0000_0000_0000
    requires start == InitBase(base) && total == InitTotal(base, size)
    ensures start % 4096 == 0 && total <= 65536 && (base + size >= 0x1_0000_0000_0000_0000 ==> total == 0)
    ensures base <= 0x1_0000_0000_0000_0000 - 4096 && base + size < 0x1_0000_0000_0000_0000 ==>
              && base <= start < base + 4096
              && (total > 0 ==> start + total * 4096 <= base + size)
              && (total == 65536 || start + (total + 1) * 4096 > base + size)
  {
  }

  /** A base in the last page of the address space: the round-up wraps and the pool is the lowest 65536 pages. */
  lemma {:induction false} InitWraps(base: nat, size: nat)
    requires 0x1_0000_0000_0000_0000 - 4096 < base && base + size < 0x1_0000_0000_0000_0000
    ensures Init(base, size).base == 0 && Init(base, size).total == 65536
  {
    hide Init, Ready, ClassOf;
    InitReady(base, size);
  }

  // ---- whole runs

  ghost function Pages(s: Pool, st: BlockState): set<nat> {
    set p | 0 <= p < s.total && ClassOf(s, p) == st
  }

  /** Every page has a class other than unused, and the counter counts the free ones. */
  lemma {:induction false} ClassesOf(s: Pool)
    requires Valid(s)
    ensures forall p {:trigger ClassOf(s, p)} :: 0 <= p < s.total ==> ClassOf(s, p) != Unused
    ensures s.free == |Pages(s, Free)|
  {
    hide Listed, Coalesced;
    forall p {:trigger ClassOf(s, p)} | 0 <= p < s.total
      ensures ClassOf(s, p) != Unused && (FreeAt(s, 0, 0, p) <==> ClassOf(s, p) == Free)
    {
      assert PageOk(s, 0, 0, p);
    }
    assert FreeIn(s, 0, 0) == Pages(s, Free);
  }

  /** free + allocated + reserved = total, and g_free_pages is exact. */
  lemma {:induction false} Conservation(s: Pool)
    requires Valid(s)
    ensures s.free == |Pages(s, Free)|
    ensures |Pages(s, Free)| + |Pages(s, Allocated)| + |Pages(s, Reserved)| == s.total
  {
    hide Valid, ClassOf;
    ClassesOf(s);
    var all := Pages(s, Free) + Pages(s, Allocated) + Pages(s, Reserved);
    RangeSize(0, s.total);
    assert all == Range(0, s.total);
    assert |all| == |Pages(s, Free) + Pages(s, Allocated)| + |Pages(s, Reserved)|;
  }

  datatype Op = AllocOp | FreeOp(addr: nat) | ReserveOp(base: nat, size: nat)

  /** The pool together with the addresses handed out and not yet given back. */
  datatype History = History(pool: Pool, live: set<nat>)

  predicate Allowed(op: Op) {
    op.ReserveOp? ==> op.base < 0x1_0000_0000_0000_0000 && op.size < 0x1_0000_0000_0000_0000
  }

  ghost function Step(h: History, op: Op): History
    requires Ready(h.pool) && Allowed(op)
  {
    match op
    case AllocOp =>
      var (t, a) := AllocPage(h.pool);
      History(t, if a == None then h.live else h.live + {a.value})
    case FreeOp(addr) => History(FreePage(h.pool, addr), h.live - {addr})
    case ReserveOp(base, size) => History(ReserveRange(h.pool, base, size), h.live)
  }

  ghost predicate IsPageAddr(s: Pool, a: nat) {
    exists p: nat :: p < s.total && a == AddrOf(s, p)
  }

  /** The live addresses are exactly those of the allocated pages. */
  ghost predicate Tracked(h: History) {
    && Ready(h.pool)
    && (forall p: nat {:trigger ClassOf(h.pool, p)} :: p < h.pool.total ==>
          (ClassOf(h.pool, p) == Allocated <==> AddrOf(h.pool, p) in h.live))
    && (forall a :: a in h.live ==> IsPageAddr(h.pool, a))
  }

  ghost predicate SamePages(s: Pool, t: Pool) {
    t.base == s.base && t.total == s.total
  }

  lemma {:induction false} StillTracked(h: History, g: History)
    requires Tracked(h) && Ready(g.pool) && SamePages(h.pool, g.pool)
    requires forall p: nat {:trigger ClassOf(g.pool, p)} :: p < h.pool.total ==>
      ClassOf(g.pool, p) == ClassOf(h.pool, p) ||
      (ClassOf(g.pool, p) == Allocated <==> AddrOf(h.pool, p) in g.live)
    requires forall p: nat {:trigger ClassOf(g.pool, p)} :: p < h.pool.total ==>
      ClassOf(g.pool, p) == ClassOf(h.pool, p) ==> (AddrOf(h.pool, p) in g.live <==> AddrOf(h.pool, p) in h.live)
    requires forall a :: a in g.live ==> a in h.live || IsPageAddr(h.pool, a)
    ensures Tracked(g)
  {
    forall p: nat | p < g.pool.total
      ensures ClassOf(g.pool, p) == Allocated <==> AddrOf(g.pool, p) in g.live
    {
      assert AddrOf(g.pool, p) == AddrOf(h.pool, p);
      assert ClassOf(h.pool, p) == Allocated <==> AddrOf(h.pool, p) in h.live;
    }
    forall a | a in g.live
      ensures IsPageAddr(g.pool, a)
    {
      assert IsPageAddr(h.pool, a);
      var p: nat :| p < h.pool.total && a == AddrOf(h.pool, p);
      assert a == AddrOf(g.pool, p);
    }
  }

  /** An address handed out was free, was not live, and becomes live. */
  lemma {:induction false} AllocTracked(h: History)
    requires Tracked(h)
    ensures var (t, a) := AllocPage(h.pool);
            Tracked(Step(h, AllocOp)) && SamePages(h.pool, t)
            && (a != None ==> a.value !in h.live && IsPageAddr(h.pool, a.value) && a.value != 0)
            && forall p: nat :: p < h.pool.total && ClassOf(h.pool, p) == Reserved ==> ClassOf(t, p) == Reserved
  {
    AllocPageExact(h.pool);
    var (t, a) := AllocPage(h.pool);
    if a != None {
      var q: nat :| 0 < q < h.pool.total && a.value == AddrOf(h.pool, q) && ClassOf(h.pool, q) == Free
                    && ClassOf(t, q) == Allocated && SameOutside(h.pool, t, q, 1);
      forall p: nat | p < h.pool.total && p != q
        ensures ClassOf(t, p) == ClassOf(h.pool, p) && AddrOf(h.pool, p) != a.value
      {
      }
      StillTracked(h, Step(h, AllocOp));
    }
  }

  /** Freeing a live address makes its page free; freeing any other address changes nothing. */
  lemma {:induction false} FreeTracked(h: History, addr: nat)
    requires Tracked(h)
    ensures var t := FreePage(h.pool, addr);
            Tracked(Step(h, FreeOp(addr))) && SamePages(h.pool, t) && (addr !in h.live ==> t == h.pool)
            && forall p: nat :: p < h.pool.total && ClassOf(h.pool, p) == Reserved ==> ClassOf(t, p) == Reserved
  {
    FreePageExact(h.pool, addr);
    var t := FreePage(h.pool, addr);
    forall p: nat | p < h.pool.total
      ensures addr == AddrOf(h.pool, p) && ClassOf(h.pool, p) == Allocated ==> addr in h.live
      ensures ClassOf(t, p) == ClassOf(h.pool, p) ==> AddrOf(h.pool, p) != addr || addr !in h.live
    {
      assert ClassOf(h.pool, p) == Allocated <==> AddrOf(h.pool, p) in h.live;
    }
    StillTracked(h, Step(h, FreeOp(addr)));
  }

  /** One call of any kind from a tracked state. */
  lemma {:induction false} StepTracked(h: History, op: Op)
    requires Tracked(h) && Allowed(op)
    ensures Tracked(Step(h, op)) && SamePages(h.pool, Step(h, op).pool)
    ensures forall p: nat :: p < h.pool.total && ClassOf(h.pool, p) == Reserved ==>
      ClassOf(Step(h, op).pool, p) == Reserved
  {
    match op
    case AllocOp => AllocTracked(h);
    case FreeOp(addr) => FreeTracked(h, addr);
    case ReserveOp(base, size) =>
      ReserveRangeExact(h.pool, base, size);
      StillTracked(h, Step(h, op));
  }

  /** Each state follows from the one before. A step is defined on ready pools; that every state has one is proved. */
  ghost predicate Run(hs: seq<History>, ops: seq<Op>) {
    && |hs| == |ops| + 1
    && (forall i :: 0 <= i < |ops| ==> Allowed(ops[i]))
    && (forall i :: 0 <= i < |ops| ==> (Ready(hs[i].pool) ==> hs[i + 1] == Step(hs[i], ops[i])))
  }

  lemma {:induction false} StartTracked(base: nat, size: nat)
    requires base < 0x1_0000_0000_0000_0000 && size < 0x1_0000_0000_0000_0000
    ensures Tracked(History(Init(base, size), {}))
  {
    hide Init, Ready;
    InitReady(base, size);
  }

  lemma {:induction false} TrackedReady(h: History)
    requires Tracked(h)
    ensures Ready(h.pool)
  {
  }

  /** Over any run from pmm_init the live addresses are those of the allocated pages, and a page once reserved
      stays reserved. */
  lemma {:induction false} RunTracked(base: nat, size: nat, hs: seq<History>, ops: seq<Op>, i: nat, j: nat)
    requires base < 0x1_0000_0000_0000_0000 && size < 0x1_0000_0000_0000_0000
    requires Run(hs, ops) && hs[0] == History(Init(base, size), {}) && i <= j < |hs|
    ensures Tracked(hs[j]) && SamePages(hs[0].pool, hs[j].pool)
    ensures forall p: nat :: p < hs[0].pool.total && ClassOf(hs[i].pool, p) == Reserved ==> ClassOf(hs[j].pool, p) == Reserved
    decreases j
  {
    hide Tracked, Step, Init, Shape;
    if j == 0 {
      StartTracked(base, size);
    } else {
      RunTracked(base, size, hs, ops, if i < j then i else 0, j - 1);
      TrackedReady(hs[j - 1]);
      assert hs[j - 1 + 1] == Step(hs[j - 1], ops[j - 1]);
      StepTracked(hs[j - 1], ops[j - 1]);
    }
  }

  /** Over any run from pmm_init the three kinds of pages add up to the total, and g_free_pages is exact. */
  lemma {:induction false} RunConserves(base: nat, size: nat, hs: seq<History>, ops: seq<Op>, j: nat)
    requires base < 0x1_0000_0000_0000_0000 && size < 0x1_0000_0000_0000_0000
    requires Run(hs, ops) && hs[0] == History(Init(base, size), {}) && j < |hs|
    ensures var s := hs[j].pool;
            s.free == |Pages(s, Free)| && s.free + |hs[j].live| + |Pages(s, Reserved)| == s.total
  {
    RunTracked(base, size, hs, ops, 0, j);
    Conservation(hs[j].pool);
    LiveCount(hs[j]);
  }

  lemma {:induction false} LiveCount(h: History)
    requires Tracked(h)
    ensures |h.live| == |Pages(h.pool, Allocated)|
  {
    CountAddrs(h.pool, Pages(h.pool, Allocated));
    var addrs := set p | p in Pages(h.pool, Allocated) :: AddrOf(h.pool, p);
    forall a
      ensures a in addrs <==> a in h.live
    {
      if a in h.live {
        assert IsPageAddr(h.pool, a);
        var p: nat :| p < h.pool.total && a == AddrOf(h.pool, p);
        assert ClassOf(h.pool, p) == Allocated;
      }
    }
    assert addrs == h.live;
  }

  lemma {:induction false} CountAddrs(s: Pool, ps: set<nat>)
    ensures |set p | p in ps :: AddrOf(s, p)| == |ps|
  {
    if ps != {} {
      var q :| q in ps;
      CountAddrs(s, ps - {q});
      var rest := set p | p in ps - {q} :: AddrOf(s, p);
      assert AddrOf(s, q) !in rest;
      assert (set p | p in ps :: AddrOf(s, p)) == rest + {AddrOf(s, q)};
    }
  }
}
