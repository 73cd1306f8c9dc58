/** Why vmm_alloc_kernel_pages fails: the request does not fit the window, a page of it is already mapped, or the pool
    has no more than the requested number of frames left. */
module HeapFailure {
  import opened Counting
  import opened Options
  import opened BuddyPool
  import opened PageWords
  import opened PageTables
  import opened VmOps
  import opened VmProofs
  import opened KernelHeap
  import opened VmRuns

  lemma {:induction false} ReleaseGains(s: Vm, t: Vm, held: set<nat>, a: nat)
    requires Sound(s) && Sound(t) && Held(s, t, held) && a in held
    ensures Valid(t.pool) && Release(t, a).pool.free == t.pool.free + 1
  {
    SoundParts(t);
    hide Sound, Held, Valid;
    ReleaseHeld(s, t, held, a);
    var u := Release(t, a);
    TablesCost(s, t, held);
    TablesCost(s, u, held - {a});
    assert NewTables(s, u) == NewTables(s, t);
  }

  /** Undoing one page gives the pool at most one frame back: a split on the way may have cost one. */
  lemma {:induction false} UndoGains(s: Vm, t: Vm, cur: nat, fs: seq<nat>, perm: Perm)
    requires Sound(s) && Pending(s, t, cur, fs, perm) && t.root != 0 && fs != []
    ensures Valid(t.pool) && Release(UnmapPage(t, cur).0, fs[0]).pool.free <= t.pool.free + 1
  {
    hide Sound, Held, Pending, UnmapPage, UnmapRefines, Release, Valid;
    FirstUnmaps(s, t, cur, fs, perm);
    PendingHeld(s, t, cur, fs, perm);
    var t1 := UnmapPage(t, cur).0;
    UnmapParts(t, t1, cur);
    var none: set<nat> := {};
    HeldTrans(s, t, t1, Elements(fs), none);
    assert Elements(fs) + none == Elements(fs);
    assert fs[0] in Elements(fs);
    ReleaseGains(s, t1, Elements(fs), fs[0]);
    TablesCost(t, t1, none);
  }

  lemma {:induction false} UnmapParts(t: Vm, t1: Vm, v: nat)
    requires UnmapRefines(t, t1, true, v)
    ensures Sound(t1) && Held(t, t1, {})
  {
  }

  lemma {:induction false} RollbackGains(s: Vm, t: Vm, cur: nat, fs: seq<nat>, perm: Perm)
    requires Sound(s) && Pending(s, t, cur, fs, perm) && t.root != 0
    ensures Valid(t.pool) && Rollback(t, cur, |fs|).pool.free <= t.pool.free + |fs|
    decreases |fs|
  {
    hide Valid, Sound, Pending, UnmapPage, Release, Translate, Phys;
    PendingSound(s, t, cur, fs, perm);
    SoundParts(t);
    if fs != [] {
      UndoFirst(s, t, cur, fs, perm);
      UndoGains(s, t, cur, fs, perm);
      var u := Release(UnmapPage(t, cur).0, fs[0]);
      RollbackGains(s, u, cur + 4096, fs[1..], perm);
    }
  }

  /** The first page of a run cannot be mapped: it is mapped already, or no frame is left for a table. */
  lemma {:induction false} FirstStops(s: Vm, t: Vm, u: Vm, cur: nat, a: nat, flags: nat)
    requires Sound(s) && Held(s, t, {a}) && SameMeaning(s, t) && MapRefines(t, u, false, cur, a, flags)
    requires cur % 4096 == 0 && a % 4096 == 0 && t.root != 0
    ensures Valid(u.pool) && (Release(u, a).pool.free <= 1 || Query(s.mem, s.root, cur) != None)
  {
    SoundParts(u);
    hide Held, Sound, Query, PermOf, Release, Valid;
    var none: set<nat> := {};
    HeldTrans(s, t, u, {a}, none);
    assert {a} + none == {a};
    ReleaseGains(s, u, {a}, a);
    assert Query(t.mem, t.root, cur) == Query(s.mem, s.root, cur);
  }

  /** The mapping loop stops early only at a page that was mapped before, or with at most one frame left. */
  lemma {:induction false} RunStops(s: Vm, cur: nat, n: nat, flags: nat)
    requires Sound(s) && s.root != 0 && cur % 4096 == 0 && cur + n * 4096 <= 0x1_0000_0000_0000
    ensures Valid(s.pool)
    ensures var (t, fs) := MapRun(s, cur, n, flags);
            |fs| < n ==> t.pool.free <= 1 || Query(s.mem, s.root, cur + |fs| * 4096) != None
    decreases n
  {
    hide Valid, AllocFrame, MapPage, Release, Sound, Held, SameMeaning, PermOf, MapRefines, Query;
    SoundParts(s);
    if n > 0 {
      AllocFrameTakes(s);
      var (t, a) := AllocFrame(s);
      if s.pool.free != 0 {
        TookSound(s, t, a);
        MapExact(t, cur, a, flags);
        var (u, ok) := MapPage(t, cur, a, flags);
        if !ok {
          FirstStops(s, t, u, cur, a, flags);
        } else {
          MapParts(t, u, cur, a, flags);
          RunStops(u, cur + 4096, n - 1, flags);
          var fs := MapRun(u, cur + 4096, n - 1, flags).1;
          if |fs| < n - 1 {
            LaterPage(s, t, u, cur, a, flags, |fs|);
          }
        }
      }
    }
  }

  lemma {:induction false} MapParts(t: Vm, u: Vm, cur: nat, a: nat, flags: nat)
    requires MapRefines(t, u, true, cur, a, flags)
    ensures Sound(u) && u.root == t.root
  {
  }

  lemma {:induction false} LaterPage(s: Vm, t: Vm, u: Vm, cur: nat, a: nat, flags: nat, k: nat)
    requires SameMeaning(s, t) && MapRefines(t, u, true, cur, a, flags)
    requires cur % 4096 == 0 && cur + (k + 2) * 4096 <= 0x1_0000_0000_0000
    ensures Query(u.mem, u.root, cur + 4096 + k * 4096) == Query(s.mem, s.root, cur + (k + 1) * 4096)
  {
    hide Sound, Held, Query, PermOf, SamePage;
    var v := cur + (k + 1) * 4096;
    assert v == cur + 4096 + k * 4096;
    PagesApart(v, cur);
    assert Query(t.mem, t.root, v) == Query(s.mem, s.root, v);
  }

  /** A request is refused only when it is empty, no tables are set up, it does not fit the heap window, one of its
      pages is already mapped, or no more frames than it asks for are left once everything is given back. */
  lemma {:induction false} HeapFails(s: Vm, count: nat, flags: nat)
    requires Sound(s)
    ensures Valid(s.pool)
    ensures var (t, r) := AllocKernelPages(s, count, flags);
            r == None ==> count == 0 || s.root == 0 || s.heapNext + count * 4096 > 0x5420_0000
                          || t.pool.free <= count
                          || exists i: nat :: i < count && Query(s.mem, s.root, s.heapNext + i * 4096) != None
  {
    hide Valid, MapRun, Rollback, Sound, Quiet, PermOf, Or, Pending, Query;
    SoundParts(s);
    var (start, bytes) := (s.heapNext, count * 4096 % 0x1_0000_0000_0000_0000);
    if count > 0 && s.root != 0 && start + count * 4096 <= HEAP_LIMIT {
      assert bytes == count * 4096;
      MapRunPends(s, start, count, Or(flags, 2));
      RunStops(s, start, count, Or(flags, 2));
      var (t, fs) := MapRun(s, start, count, Or(flags, 2));
      if |fs| < count {
        PendingSound(s, t, start, fs, PermOf(Or(flags, 2)));
        RollbackGains(s, t, start, fs, PermOf(Or(flags, 2)));
      }
    }
  }
}
