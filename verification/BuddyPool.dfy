/** The buddy allocator of kernel/mm/pmm.c as functions over its tables.
    The linked free lists appear here as sequences of block heads, first element first. */
module BuddyPool {
  import opened Counting
  import opened Options
  import opened Arith

  const MAX_ORDER: nat := 16
  const MAX_PAGES: nat := 65536
  const INVALID: nat := 0xFFFF_FFFF

  datatype BlockState = Unused | Free | Allocated | Reserved

  datatype Pool = Pool(
    base: nat,
    total: nat,
    free: int,
    lists: seq<seq<nat>>,
    owner: seq<nat>,
    state: seq<BlockState>,
    order: seq<nat>)

  predicate Shape(s: Pool) {
    && |s.lists| == MAX_ORDER + 1
    && |s.owner| == |s.state| == |s.order| == MAX_PAGES
    && s.total <= MAX_PAGES
  }

  // ---- block bookkeeping

  function Mark(owner: seq<nat>, p: nat, n: nat): (r: seq<nat>)
    ensures |r| == |owner|
    ensures forall i :: 0 <= i < |owner| ==> r[i] == if p <= i < p + n then p else owner[i]
  {
    seq(|owner|, i requires 0 <= i < |owner| => if p <= i < p + n then p else owner[i])
  }

  function SetBlock(s: Pool, p: nat, k: nat, st: BlockState): Pool
    requires Shape(s) && p < MAX_PAGES
  {
    s.(owner := Mark(s.owner, p, Pow2(k)), order := s.order[p := k], state := s.state[p := st])
  }

  function ClearHead(s: Pool, p: nat): Pool
    requires Shape(s) && p < MAX_PAGES
  {
    s.(order := s.order[p := 0], state := s.state[p := Unused])
  }

  function AddFree(s: Pool, p: nat, k: nat): Pool
    requires Shape(s) && p < MAX_PAGES && k <= MAX_ORDER
  {
    var t := SetBlock(s, p, k, Free);
    t.(lists := t.lists[k := [p] + t.lists[k]], free := t.free + Pow2(k))
  }

  function RemoveFree(s: Pool, h: nat): Pool
    requires Shape(s) && h < MAX_PAGES && s.order[h] <= MAX_ORDER
  {
    var k := s.order[h];
    ClearHead(s.(lists := s.lists[k := Without(s.lists[k], h)], free := s.free - Pow2(k)), h)
  }

  // ---- the partition invariant

  predicate In(p: int, b: int, n: int) {
    b <= p < b + n
  }

  predicate IsFree(s: Pool, h: int, k: nat)
    requires Shape(s)
  {
    0 <= h < s.total && s.state[h] == Free && s.order[h] == k
  }

  /** h heads a well placed block that owns all its pages and stays clear of the hole. */
  ghost predicate BlockAt(s: Pool, h: nat, b: nat, n: nat)
    requires Shape(s) && h < s.total
  {
    && s.state[h] != Unused
    && s.order[h] <= MAX_ORDER
    && Aligned(h, s.order[h])
    && h + Pow2(s.order[h]) <= s.total
    && (n == 0 || h + Pow2(s.order[h]) <= b || b + n <= h)
    && (forall p :: h <= p < h + Pow2(s.order[h]) ==> s.owner[p] == h)
  }

  /** p lies in the block of its owner. */
  ghost predicate PageOk(s: Pool, b: nat, n: nat, p: nat)
    requires Shape(s) && p < s.total
  {
    !In(p, b, n) ==>
      var h := s.owner[p];
      h <= p && !In(h, b, n) && p < h + Pow2(s.order[h]) && s.state[h] != Unused
  }

  ghost predicate BlockOk(s: Pool, b: nat, n: nat, h: nat)
    requires Shape(s) && h < s.total
  {
    !In(h, b, n) && s.state[h] != Unused ==> BlockAt(s, h, b, n)
  }

  /** Outside the hole [b, b+n) the blocks partition [0, total): every page lies in the block of its owner. */
  ghost predicate Tiled(s: Pool, b: nat, n: nat)
    requires Shape(s)
  {
    && b + n <= s.total
    && (forall p {:trigger PageOk(s, b, n, p)} :: 0 <= p < s.total ==> PageOk(s, b, n, p))
    && (forall h {:trigger BlockOk(s, b, n, h)} :: 0 <= h < s.total ==> BlockOk(s, b, n, h))
    && (forall p :: b < p < b + n ==> s.state[p] == Unused)
    && (forall p :: s.total <= p < MAX_PAGES ==> s.owner[p] == INVALID && s.state[p] == Unused)
  }

  ghost predicate FreeOutside(s: Pool, b: nat, n: nat, h: int, k: nat)
    requires Shape(s)
  {
    IsFree(s, h, k) && !In(h, b, n)
  }

  /** List k holds exactly the free heads of order k, each once. */
  ghost predicate Listed(s: Pool, b: nat, n: nat)
    requires Shape(s)
  {
    forall k :: 0 <= k <= MAX_ORDER ==>
      Distinct(s.lists[k]) && forall h: nat :: h in s.lists[k] <==> FreeOutside(s, b, n, h, k)
  }

  ghost predicate NoFreeBuddy(s: Pool, b: nat, n: nat, h: nat, k: nat)
    requires Shape(s)
  {
    FreeOutside(s, b, n, h, k) ==> !FreeOutside(s, b, n, Buddy(h, k), k)
  }

  /** No two buddies of the same order below the maximum are both free. */
  ghost predicate Coalesced(s: Pool, b: nat, n: nat)
    requires Shape(s)
  {
    forall h: nat, k: nat {:trigger NoFreeBuddy(s, b, n, h, k)} :: k < MAX_ORDER ==> NoFreeBuddy(s, b, n, h, k)
  }

  ghost predicate FreeAt(s: Pool, b: nat, n: nat, p: int)
    requires Shape(s)
  {
    0 <= p < s.total && !In(p, b, n) && s.owner[p] < MAX_PAGES && s.state[s.owner[p]] == Free
  }

  ghost function FreeIn(s: Pool, b: nat, n: nat): set<nat>
    requires Shape(s)
  {
    set p | 0 <= p < s.total && FreeAt(s, b, n, p)
  }

  ghost predicate Holed(s: Pool, b: nat, n: nat) {
    && Shape(s)
    && Tiled(s, b, n)
    && Listed(s, b, n)
    && Coalesced(s, b, n)
    && s.free == |FreeIn(s, b, n)|
  }

  /** The allocator's full structural invariant. */
  ghost predicate Valid(s: Pool) {
    Holed(s, 0, 0)
  }

  // ---- alloc_block

  function SplitDown(s: Pool, b: nat, order: nat, target: nat): (r: Pool)
    requires Shape(s) && order <= MAX_ORDER && b + Pow2(order) <= MAX_PAGES
    ensures Shape(r)
    decreases order
  {
    if order <= target then s
    else SplitDown(AddFree(s, b + Pow2(order - 1), order - 1), b, order - 1, target)
  }

  function AllocFrom(s: Pool, target: nat, order: nat): (Pool, Option<nat>)
    requires Valid(s) && target <= order <= MAX_ORDER + 1
    decreases MAX_ORDER + 1 - order, s.total
  {
    if order > MAX_ORDER then (s, None)
    else if s.lists[order] == [] then AllocFrom(s, target, order + 1)
    else
      var b := s.lists[order][0];
      assert b in s.lists[order];
      assert BlockOk(s, 0, 0, b);
      (SetBlock(SplitDown(RemoveFree(s, b), b, order, target), b, target, Allocated), Some(b))
  }

  function AllocBlock(s: Pool, target: nat): (Pool, Option<nat>)
    requires Valid(s) && target <= MAX_ORDER
  {
    AllocFrom(s, target, target)
  }

  // ---- free_block

  function MergeUp(s: Pool, p: nat, k: nat): Pool
    requires Shape(s) && p < MAX_PAGES && k <= MAX_ORDER
    decreases MAX_ORDER - k, p
  {
    var buddy := Buddy(p, k);
    if k < MAX_ORDER && IsFree(s, buddy, k) then
      var t := ClearHead(ClearHead(RemoveFree(s, buddy), p), buddy);
      var q := if buddy < p then buddy else p;
      MergeUp(SetBlock(t, q, k + 1, Free), q, k + 1)
    else
      AddFree(s, p, k)
  }

  function FreeBlock(s: Pool, p: nat, k: nat): Pool
    requires Shape(s) && p < MAX_PAGES && k <= MAX_ORDER
  {
    MergeUp(SetBlock(s, p, k, Free), p, k)
  }

  // ---- reserve_page

  /** Halves the detached block at cur until only its order-0 part holding page is left; also returns that part. */
  function Narrow(s: Pool, cur: nat, order: nat, page: nat): (r: (Pool, nat))
    requires Shape(s) && order <= MAX_ORDER && cur + Pow2(order) <= MAX_PAGES
    ensures Shape(r.0) && r.1 < MAX_PAGES
    decreases order
  {
    if order == 0 then (s, cur)
    else
      var child := order - 1;
      var buddy := cur + Pow2(child);
      if page < buddy then
        Narrow(SetBlock(AddFree(s, buddy, child), cur, child, Allocated), cur, child, page)
      else
        Narrow(SetBlock(AddFree(s, cur, child), buddy, child, Allocated), buddy, child, page)
  }

  function ReservePage(s: Pool, page: nat): (Pool, bool)
    requires Valid(s)
  {
    if page >= s.total then (s, false)
    else
      assert PageOk(s, 0, 0, page);
      var head := s.owner[page];
      assert BlockOk(s, 0, 0, head);
      match s.state[head]
      case Reserved => (s, true)
      case Free =>
        var (t, cur) := Narrow(RemoveFree(s, head), head, s.order[head], page);
        (SetBlock(t, cur, 0, Reserved), true)
      case _ => (s, false)
  }

  // ---- add_free_range and pmm_init

  /** max_order_for_pages, counting up from order. */
  function MaxOrder(pages: nat, order: nat): (r: nat)
    requires order <= MAX_ORDER && Pow2(order) <= pages
    ensures order <= r <= MAX_ORDER && Pow2(r) <= pages
    ensures r == MAX_ORDER || Pow2(r + 1) > pages
    decreases MAX_ORDER - order, pages
  {
    if order == MAX_ORDER || Pow2(order + 1) > pages then order else MaxOrder(pages, order + 1)
  }

  /** The largest order from order downwards at which page is aligned. */
  function AlignOrder(page: nat, order: nat): (r: nat)
    ensures r <= order && Aligned(page, r)
    ensures forall j :: r < j <= order ==> !Aligned(page, j)
    decreases order, page
  {
    if Aligned(page, order) then order else AlignOrder(page, order - 1)
  }

  lemma {:induction false} ShrinkFits(r: nat, k: nat, pages: nat)
    requires r <= k && Pow2(k) <= pages
    ensures Pow2(r) <= pages
  {
    Pow2Grows(r, k);
  }

  function FitOrder(page: nat, remaining: nat): (r: nat)
    requires remaining > 0
    ensures r <= MAX_ORDER && Pow2(r) <= remaining && Aligned(page, r)
    ensures r < MAX_ORDER ==> !Aligned(page, r + 1) || Pow2(r + 1) > remaining
  {
    var m := MaxOrder(remaining, 0);
    var r := AlignOrder(page, m);
    ShrinkFits(r, m, remaining);
    r
  }

  function AddFreeRange(s: Pool, page: nat, remaining: nat): (r: Pool)
    requires Shape(s) && page + remaining <= MAX_PAGES
    ensures Shape(r)
    decreases remaining
  {
    if remaining == 0 then s
    else
      var k := FitOrder(page, remaining);
      AddFreeRange(AddFree(s, page, k), page + Pow2(k), remaining - Pow2(k))
  }

  function PageUp(a: nat): nat { (a + 4096 - 1) / 4096 * 4096 }
  function PageDown(a: nat): nat { a / 4096 * 4096 }

  function EmptyPool(base: nat, total: nat): Pool {
    Pool(base, total, 0,
         seq(MAX_ORDER + 1, _ => []), seq(MAX_PAGES, _ => INVALID),
         seq(MAX_PAGES, _ => Unused), seq(MAX_PAGES, _ => 0))
  }

  /** g_base and g_total_pages, with the 64-bit wrap of both sums in pmm_init. */
  function InitBase(base: nat): nat {
    PageDown((base + 4096 - 1) % 0x1_0000_0000_0000_0000)
  }

  function InitTotal(base: nat, size: nat): nat {
    var end := (base + size) % 0x1_0000_0000_0000_0000;
    if end < base || InitBase(base) >= end then 0
    else
      var pages := (end - InitBase(base)) / 4096;
      if pages > MAX_PAGES then MAX_PAGES else pages
  }

  function SeededPool(base: nat, size: nat): Pool {
    var total := InitTotal(base, size);
    AddFreeRange(EmptyPool(InitBase(base), total), 0, total)
  }
}
