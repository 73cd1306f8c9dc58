/** The operations of kernel/mm/vmm.c as functions over memory, the frame pool and the heap cursor. */
module VmOps {
  import opened Options
  import opened BuddyPool
  import opened BuddyOps
  import opened BuddyTheorems
  import opened PoolApi
  import opened PageWords
  import opened PageTables

  const HEAP_BASE: nat := 0x4420_0000
  const HEAP_LIMIT: nat := 0x5420_0000

  /** vmm_range_end. */
  function RangeEnd(base: nat, size: nat): Option<nat> {
    if base > 0xFFFF_FFFF_FFFF_FFFF - size then None else Some(base + size)
  }

  /** The heap window that vmm_init lays out above the kernel image and a guard, for a slide of the image. */
  function HeapWindow(slide: nat): Option<(nat, nat)> {
    var image := RangeEnd(0x4000_0000 + slide, 0x400_0000);
    if image == None then None
    else
      var start := RangeEnd(image.value, 0x20_0000);
      if start == None then None
      else
        var end := RangeEnd(start.value, 0x1000_0000);
        if end == None then None else Some((start.value, end.value))
  }

  datatype Vm = Vm(mem: Memory, root: nat, pool: Pool, heapNext: nat)

  function EmptyTable(): seq<nat> { seq(512, _ => 0) }

  lemma {:induction false} AllocKeepsValid(pool: Pool)
    requires Valid(pool)
    ensures Valid(AllocPage(pool).0)
  {
    hide AllocFrom;
    AllocBlockExact(pool, 0);
  }

  /** pmm_alloc_page, with 0 for the null pointer. */
  function AllocFrame(s: Vm): (r: (Vm, nat))
    requires Valid(s.pool)
    ensures Valid(r.0.pool)
  {
    AllocKeepsValid(s.pool);
    var (pool, a) := AllocPage(s.pool);
    (s.(pool := pool), match a case None => 0 case Some(f) => f)
  }

  /** vmm_split_large_pd_entry. */
  function SplitEntry(s: Vm, pd: nat, i: nat): (r: (Vm, bool))
    requires Valid(s.pool)
    ensures Valid(r.0.pool)
  {
    var e := Word(s.mem, pd, i);
    if !Present(e) || !Large(e) then (s, false)
    else
      var (t, a) := AllocFrame(s);
      if a == 0 then (t, false)
      else (t.(mem := Linked(t.mem, pd, i, a, SplitTable(e), TableEntry(a, PermOf(e).user))), true)
  }

  /** vmm_get_or_create_next_table. */
  function NextTable(s: Vm, table: nat, i: nat): (r: (Vm, Option<nat>))
    requires Valid(s.pool)
    ensures Valid(r.0.pool)
  {
    var e := Word(s.mem, table, i);
    if Present(e) then
      if Large(e) then (s, None) else (s, Some(Phys(e)))
    else
      var (t, a) := AllocFrame(s);
      if a == 0 then (t, None)
      else (t.(mem := Linked(t.mem, table, i, a, EmptyTable(), TableEntry(a, false))), Some(a))
  }

  /** The last level of vmm_walk_to_pt with create set, where a 2 MiB entry in the way is split. */
  function LastTable(s: Vm, pd: nat, i: nat): (r: (Vm, Option<nat>))
    requires Valid(s.pool)
    ensures Valid(r.0.pool)
  {
    var (s3, pt) := NextTable(s, pd, i);
    if pt != None then (s3, pt)
    else
      var e := Word(s3.mem, pd, i);
      if Present(e) && Large(e) then
        var (s4, ok) := SplitEntry(s3, pd, i);
        if ok then NextTable(s4, pd, i) else (s4, None)
      else (s3, None)
  }

  /** vmm_walk_to_pt with create set: the lowest-level table for v. */
  function WalkCreate(s: Vm, x: Index): (r: (Vm, Option<nat>))
    requires Valid(s.pool)
    ensures Valid(r.0.pool)
  {
    if s.root == 0 then (s, None)
    else
      var (s1, pdpt) := NextTable(s, s.root, x.l4);
      if pdpt == None then (s1, None)
      else
        var (s2, pd) := NextTable(s1, pdpt.value, x.l3);
        if pd == None then (s2, None) else LastTable(s2, pd.value, x.l2)
  }

  /** vmm_walk_to_pt without create. */
  function WalkExisting(s: Vm, x: Index): (r: (Vm, Option<nat>))
    requires Valid(s.pool)
    ensures Valid(r.0.pool)
  {
    var e4 := Word(s.mem, s.root, x.l4);
    if s.root == 0 || !Present(e4) || Large(e4) then (s, None)
    else
      var e3 := Word(s.mem, Phys(e4), x.l3);
      if !Present(e3) || Large(e3) then (s, None)
      else
        var pd := Phys(e3);
        var e2 := Word(s.mem, pd, x.l2);
        if !Present(e2) then (s, None)
        else if Large(e2) then
          var (t, ok) := SplitEntry(s, pd, x.l2);
          if ok then (t, Some(Phys(Word(t.mem, pd, x.l2)))) else (t, None)
        else (s, Some(Phys(e2)))
  }

  function MapPage(s: Vm, v: nat, phys: nat, flags: nat): (r: (Vm, bool))
    requires Valid(s.pool)
    ensures Valid(r.0.pool)
  {
    if v % 4096 != 0 || phys % 4096 != 0 then (s, false)
    else
      var x := IndexOf(v);
      var (t, pt) := WalkCreate(s, x);
      if pt == None || Present(Word(t.mem, pt.value, x.l1)) then (t, false)
      else (t.(mem := Put(t.mem, pt.value, x.l1, PageEntry(phys, PermOf(flags)))), true)
  }

  function UnmapPage(s: Vm, v: nat): (r: (Vm, bool))
    requires Valid(s.pool)
    ensures Valid(r.0.pool)
  {
    if v % 4096 != 0 then (s, false)
    else
      var x := IndexOf(v);
      var (t, pt) := WalkExisting(s, x);
      if pt == None || !Present(Word(t.mem, pt.value, x.l1)) then (t, false)
      else (t.(mem := Put(t.mem, pt.value, x.l1, 0)), true)
  }

  // ---- the joint invariant of tables and frame pool

  ghost predicate FreeFrame(pool: Pool, f: nat) {
    exists p: nat :: p < pool.total && f == AddrOf(pool, p) && ClassOf(pool, p) == Free
  }

  ghost predicate NodeOf(s: Vm, f: nat) {
    IsNode(s.mem, s.root, f)
  }

  /** Large entries of page directories have a 2 MiB aligned address. */
  ghost predicate MidAligned(mem: Memory, root: nat) {
    forall p, f, i: nat {:trigger Is(mem, root, p, f), Word(mem, f, i)} ::
      Is(mem, root, p, f) && Depth(p) == 2 && i < 512 && Present(Word(mem, f, i)) && Large(Word(mem, f, i)) ==>
        Phys(Word(mem, f, i)) % 0x20_0000 == 0
  }

  /** Bit 7 of a level-4 entry, which the architecture reserves, is clear. */
  ghost predicate TopSmall(mem: Memory, root: nat) {
    forall i: nat {:trigger Word(mem, root, i)} :: i < 512 && Present(Word(mem, root, i)) ==> !Large(Word(mem, root, i))
  }

  /** Tables form a tree, none of them is a free frame, and frames are addressable by entries. */
  ghost predicate Sound(s: Vm) {
    && Ready(s.pool) && s.pool.base + s.pool.total * 4096 <= 0x10_0000_0000_0000
    && Tree(s.mem, s.root)
    && MidAligned(s.mem, s.root) && TopSmall(s.mem, s.root)
    && (forall f {:trigger NodeOf(s, f)} :: NodeOf(s, f) ==> !FreeFrame(s.pool, f))
    && HEAP_BASE <= s.heapNext <= HEAP_LIMIT && s.heapNext % 4096 == 0
  }

  ghost predicate NewNode(s: Vm, t: Vm, f: nat) {
    NodeOf(t, f) && !NodeOf(s, f)
  }

  /** Tables were only added, each in a frame that was free; the frames in held, free before, are now taken and are
      no tables; no other page changed hands. */
  ghost predicate Held(s: Vm, t: Vm, held: set<nat>) {
    && t.root == s.root && t.heapNext == s.heapNext && SamePages(s.pool, t.pool)
    && (forall p, f {:trigger Is(t.mem, t.root, p, f)} :: Is(s.mem, s.root, p, f) ==> Is(t.mem, t.root, p, f))
    && (forall f {:trigger NewNode(s, t, f)} :: NewNode(s, t, f) ==> FreeFrame(s.pool, f))
    && (forall f :: f in held ==> FreeFrame(s.pool, f) && !NodeOf(t, f))
    && (forall p: nat {:trigger ClassOf(t.pool, p)} :: p < s.pool.total ==>
          ClassOf(t.pool, p) == if NewNode(s, t, AddrOf(s.pool, p)) || AddrOf(s.pool, p) in held then Allocated
                                else ClassOf(s.pool, p))
  }

  ghost predicate Grew(s: Vm, t: Vm) {
    Held(s, t, {})
  }

  ghost predicate SameMeaning(s: Vm, t: Vm) {
    forall v: nat {:trigger Query(t.mem, t.root, v)} :: Query(t.mem, t.root, v) == Query(s.mem, s.root, v)
  }

  /** Nothing a client can observe through translation changed. */
  ghost predicate Quiet(s: Vm, t: Vm) {
    Sound(t) && Grew(s, t) && SameMeaning(s, t)
  }
}
