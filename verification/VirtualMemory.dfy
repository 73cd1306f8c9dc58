/** kernel/mm/vmm.c as it runs: table words, the frame allocator and the heap cursor are updated in place.
    Each method is proved to take the state View() to the one its function in VmOps or KernelHeap gives. */
module VirtualMemory {
  import opened Options
  import opened BuddyPool
  import opened PoolApi
  import opened PageWords
  import opened PageTables
  import opened VmOps
  import opened KernelHeap
  import opened PhysicalMemory

  lemma {:induction false} NextTableRoot(s: Vm, table: nat, i: nat)
    requires Valid(s.pool)
    ensures NextTable(s, table, i).0.root == s.root && SplitEntry(s, table, i).0.root == s.root
  {
    hide AllocPage, Valid;
  }

  /** The operations never move the top-level table. */
  lemma {:induction false} RootStays(s: Vm, v: nat)
    requires Valid(s.pool)
    ensures VmOps.UnmapPage(s, v).0.root == s.root
    ensures forall phys, flags :: VmOps.MapPage(s, v, phys, flags).0.root == s.root
  {
    hide NextTable, SplitEntry, Valid;
    var x := IndexOf(v);
    var s1 := NextTable(s, s.root, x.l4);
    NextTableRoot(s, s.root, x.l4);
    if s1.1 != None {
      NextTableRoot(s1.0, s1.1.value, x.l3);
      var s2 := NextTable(s1.0, s1.1.value, x.l3);
      if s2.1 != None {
        LastTableRoot(s2.0, s2.1.value, x.l2);
      }
    }
    NextTableRoot(s, Phys(Word(s.mem, Phys(Word(s.mem, s.root, x.l4)), x.l3)), x.l2);
  }

  lemma {:induction false} LastTableRoot(s: Vm, pd: nat, i: nat)
    requires Valid(s.pool)
    ensures LastTable(s, pd, i).0.root == s.root
  {
    hide NextTable, SplitEntry, Valid;
    NextTableRoot(s, pd, i);
    var s3 := NextTable(s, pd, i).0;
    NextTableRoot(s3, pd, i);
    NextTableRoot(SplitEntry(s3, pd, i).0, pd, i);
  }

  lemma {:induction false} MapRunRoot(s: Vm, cur: nat, n: nat, flags: nat)
    requires Valid(s.pool)
    ensures MapRun(s, cur, n, flags).0.root == s.root
    ensures |MapRun(s, cur, n, flags).1| <= n
    decreases n
  {
    hide VmOps.MapPage, Valid;
    if n > 0 {
      var (t, a) := VmOps.AllocFrame(s);
      RootStays(t, cur);
      var (u, ok) := VmOps.MapPage(t, cur, a, flags);
      MapRunRoot(u, cur + 4096, n - 1, flags);
    }
  }

  /** The loop of vmm_split_large_pd_entry over the new table. */
  method FillChildren(zeroed: seq<nat>, pde: nat) returns (table: seq<nat>)
    requires |zeroed| == 512
    ensures table == SplitTable(pde)
  {
    hide PageEntry, HugeBase, PermOf;
    table := zeroed;
    var j := 0;
    while j < 512
      invariant j <= 512 && |table| == 512 && forall k :: 0 <= k < j ==> table[k] == SplitChild(pde, k)
    {
      table := table[j := PageEntry(HugeBase(pde) + j * 4096, PermOf(pde))];
      j := j + 1;
    }
    assert table == SplitTable(pde);
  }

  class Vmm {
    var mem: Memory
    var root: nat
    const pmm: Pmm
    var heapNext: nat

    ghost predicate Wired()
      reads this, pmm, pmm.Repr()
    {
      this !in pmm.Repr() && pmm.Wired() && Valid(pmm.View())
    }

    ghost function View(): Vm
      reads this, pmm, pmm.Repr()
    {
      Vm(mem, root, pmm.View(), heapNext)
    }

    ghost function Repr(): set<object> {
      {this} + pmm.Repr()
    }

    constructor (pmm: Pmm, mem: Memory, root: nat)
      requires pmm.Wired() && Valid(pmm.View())
      ensures this.pmm == pmm && Wired() && View() == Vm(mem, root, pmm.View(), HEAP_BASE)
    {
      this.pmm := pmm;
      this.mem, this.root, this.heapNext := mem, root, HEAP_BASE;
    }

    /** pmm_alloc_page seen as a pointer: 0 when no page is left. */
    method AllocFrame() returns (a: nat)
      requires Wired()
      modifies pmm.Repr()
      ensures Wired() && (View(), a) == VmOps.AllocFrame(old(View()))
    {
      AllocKeepsValid(pmm.View());
      var r := pmm.AllocPage();
      a := match r case None => 0 case Some(f) => f;
    }

    /** vmm_zero_page. */
    method ZeroPage(f: nat)
      modifies this`mem
      ensures mem == old(mem)[f := EmptyTable()]
    {
      var table: seq<nat> := [];
      while |table| < 512
        invariant |table| <= 512 && forall j :: 0 <= j < |table| ==> table[j] == 0
      {
        table := table + [0];
      }
      assert table == EmptyTable();
      mem := mem[f := table];
    }

    method SplitLargePdEntry(pd: nat, i: nat) returns (ok: bool)
      requires Wired()
      modifies Repr()
      ensures Wired() && (View(), ok) == SplitEntry(old(View()), pd, i)
    {
      var pde := Word(mem, pd, i);
      if !Present(pde) || !Large(pde) {
        return false;
      }
      var pt := AllocFrame();
      if pt == 0 {
        return false;
      }
      ghost var mem0 := mem;
      ZeroPage(pt);
      var table := FillChildren(mem[pt], pde);
      mem := mem[pt := table];
      assert mem == mem0[pt := table];
      mem := Put(mem, pd, i, TableEntry(pt, PermOf(pde).user));
      ok := true;
    }

    method GetOrCreateNextTable(table: nat, i: nat) returns (next: Option<nat>)
      requires Wired()
      modifies Repr()
      ensures Wired() && (View(), next) == NextTable(old(View()), table, i)
    {
      var entry := Word(mem, table, i);
      if Present(entry) {
        if Large(entry) {
          return None;
        }
        return Some(Phys(entry));
      }
      var f := AllocFrame();
      if f == 0 {
        return None;
      }
      ZeroPage(f);
      mem := Put(mem, table, i, TableEntry(f, false));
      next := Some(f);
    }

    method WalkToPt(v: nat, create: bool) returns (pt: Option<nat>)
      requires Wired()
      modifies Repr()
      ensures Wired()
      ensures (View(), pt) == if create then WalkCreate(old(View()), IndexOf(v)) else WalkExisting(old(View()), IndexOf(v))
    {
      if root == 0 {
        return None;
      }
      var x := IndexOf(v);
      if create {
        pt := CreateToPt(x);
      } else {
        pt := FindPt(x);
      }
    }

    method CreateToPt(x: Index) returns (pt: Option<nat>)
      requires Wired() && root != 0
      modifies Repr()
      ensures Wired() && (View(), pt) == WalkCreate(old(View()), x)
    {
      var pdpt := GetOrCreateNextTable(root, x.l4);
      if pdpt == None {
        return None;
      }
      var pd := GetOrCreateNextTable(pdpt.value, x.l3);
      if pd == None {
        return None;
      }
      pt := LastLevel(pd.value, x.l2);
    }

    method LastLevel(pd: nat, i: nat) returns (pt: Option<nat>)
      requires Wired()
      modifies Repr()
      ensures Wired() && (View(), pt) == LastTable(old(View()), pd, i)
    {
      pt := GetOrCreateNextTable(pd, i);
      if pt == None {
        if Present(Word(mem, pd, i)) && Large(Word(mem, pd, i)) {
          var ok := SplitLargePdEntry(pd, i);
          if ok {
            pt := GetOrCreateNextTable(pd, i);
          }
        }
      }
    }

    method FindPt(x: Index) returns (pt: Option<nat>)
      requires Wired() && root != 0
      modifies Repr()
      ensures Wired() && (View(), pt) == WalkExisting(old(View()), x)
    {
      var e4 := Word(mem, root, x.l4);
      if !Present(e4) || Large(e4) {
        return None;
      }
      var e3 := Word(mem, Phys(e4), x.l3);
      if !Present(e3) || Large(e3) {
        return None;
      }
      var pd := Phys(e3);
      if !Present(Word(mem, pd, x.l2)) {
        return None;
      }
      if Large(Word(mem, pd, x.l2)) {
        var ok := SplitLargePdEntry(pd, x.l2);
        if !ok {
          return None;
        }
      }
      pt := Some(Phys(Word(mem, pd, x.l2)));
    }

    method MapPage(v: nat, phys: nat, flags: nat) returns (ok: bool)
      requires Wired()
      modifies Repr()
      ensures Wired() && (View(), ok) == VmOps.MapPage(old(View()), v, phys, flags)
    {
      hide WalkCreate, WalkExisting;
      if v % 4096 != 0 || phys % 4096 != 0 {
        return false;
      }
      var pt := WalkToPt(v, true);
      if pt == None {
        return false;
      }
      var i := IndexOf(v).l1;
      if Present(Word(mem, pt.value, i)) {
        return false;
      }
      mem := Put(mem, pt.value, i, PageEntry(phys, PermOf(flags)));
      ok := true;
    }

    method UnmapPage(v: nat) returns (ok: bool)
      requires Wired()
      modifies Repr()
      ensures Wired() && (View(), ok) == VmOps.UnmapPage(old(View()), v)
    {
      hide WalkCreate, WalkExisting;
      if v % 4096 != 0 {
        return false;
      }
      var pt := WalkToPt(v, false);
      if pt == None {
        return false;
      }
      var i := IndexOf(v).l1;
      if !Present(Word(mem, pt.value, i)) {
        return false;
      }
      mem := Put(mem, pt.value, i, 0);
      ok := true;
    }

    method QueryMapping(v: nat) returns (r: Option<Mapping>)
      ensures r == if root == 0 then None else Query(mem, root, v)
    {
      if root == 0 {
        return None;
      }
      var x := IndexOf(v);
      var pml4e := Word(mem, root, x.l4);
      if !Present(pml4e) {
        return None;
      }
      var pdpte := Word(mem, Phys(pml4e), x.l3);
      if !Present(pdpte) {
        return None;
      }
      if Large(pdpte) {
        return Some(Mapping(Or(Phys(pdpte), v % 0x4000_0000), PermOf(pdpte)));
      }
      var pde := Word(mem, Phys(pdpte), x.l2);
      if !Present(pde) {
        return None;
      }
      if Large(pde) {
        return Some(Mapping(Or(Phys(pde), v % 0x20_0000), PermOf(pde)));
      }
      var pte := Word(mem, Phys(pde), x.l1);
      if !Present(pte) {
        return None;
      }
      return Some(Mapping(Or(Phys(pte), v % 4096), PermOf(pte)));
    }

    /** vmm_translate: the same walk, without the permissions. */
    method Translate(v: nat) returns (r: Option<nat>)
      ensures r == if root == 0 then None else PageTables.Translate(mem, root, v)
    {
      var m := QueryMapping(v);
      r := match m case None => None case Some(p) => Some(p.phys);
    }

    /** The mapping loop of vmm_alloc_kernel_pages: fs are the frames mapped before it stopped. */
    method MapFresh(start: nat, count: nat, flags: nat) returns (current: nat, ghost fs: seq<nat>)
      requires Wired()
      modifies Repr()
      ensures Wired() && (View(), fs) == MapRun(old(View()), start, count, flags) && current == start + |fs| * 4096
    {
      hide VmOps.AllocFrame, VmOps.MapPage, KernelHeap.Release, Valid;
      ghost var s0 := View();
      fs := [];
      current := start;
      var i := 0;
      assert [] + MapRun(s0, start, count, flags).1 == MapRun(s0, start, count, flags).1;
      while i < count
        invariant i <= count && Wired() && |fs| == i && current == start + i * 4096
        invariant MapRun(s0, start, count, flags)
               == (MapRun(View(), current, count - i, flags).0, fs + MapRun(View(), current, count - i, flags).1)
      {
        assert fs + [] == fs;
        var page := AllocFrame();
        if page == 0 {
          return;
        }
        var ok := MapPage(current, page, flags);
        if !ok {
          FreeFrame(page);
          return;
        }
        ghost var rest := MapRun(View(), current + 4096, count - i - 1, flags).1;
        assert fs + ([page] + rest) == (fs + [page]) + rest;
        fs := fs + [page];
        current := current + 4096;
        i := i + 1;
      }
      assert fs + [] == fs;
    }

    method FreeFrame(a: nat)
      requires Wired()
      modifies pmm.Repr()
      ensures Wired() && View() == Release(old(View()), a)
    {
      FreeKeepsValid(pmm.View(), a);
      pmm.FreePage(a);
    }

    /** The clean-up loop of vmm_alloc_kernel_pages. */
    method UnmapFresh(start: nat, current: nat, ghost n: nat)
      requires Wired() && current == start + n * 4096 && root != 0
      modifies Repr()
      ensures Wired() && View() == Rollback(old(View()), start, n)
    {
      hide VmOps.UnmapPage, KernelHeap.Release, Valid, PageTables.Translate;
      ghost var s0 := View();
      ghost var left := n;
      var addr := start;
      while addr < current
        invariant Wired() && root != 0 && addr + left * 4096 == current
        invariant Rollback(View(), addr, left) == Rollback(s0, start, n)
      {
        var phys := Translate(addr);
        if phys != None {
          RootStays(View(), addr);
          var _ := UnmapPage(addr);
          FreeFrame(Phys(phys.value));
        }
        addr := addr + 4096;
        left := left - 1;
      }
    }

    method AllocKernelPages(count: nat, flags: nat) returns (r: Option<nat>)
      requires Wired()
      modifies Repr()
      ensures Wired() && (View(), r) == KernelHeap.AllocKernelPages(old(View()), count, flags)
    {
      hide MapRun, Rollback, Valid, Or;
      if count == 0 || root == 0 {
        return None;
      }
      var start := heapNext;
      var bytes := count * 4096 % 0x1_0000_0000_0000_0000;
      if bytes / 4096 != count {
        return None;
      }
      if start > 0x1_0000_0000_0000_0000 - 1 - bytes {
        return None;
      }
      var end := start + bytes;
      if start < HEAP_BASE || end > HEAP_LIMIT {
        return None;
      }
      WholePages(count);
      MapRunRoot(View(), start, count, Or(flags, 2));
      var current, fs := MapFresh(start, count, Or(flags, 2));
      if current != end {
        UnmapFresh(start, current, |fs|);
        return None;
      }
      heapNext := current;
      r := Some(start);
    }
  }
}
