/** vmm_alloc_kernel_pages: a run of fresh pages is mapped completely or not at all. */
module KernelHeap {
  import opened Counting
  import opened Options
  import opened Arith
  import opened BuddyPool
  import opened BuddyOps
  import opened PoolApi
  import opened PageWords
  import opened PageTables
  import opened VmOps
  import opened VmProofs

  lemma {:induction false} FreeKeepsValid(pool: Pool, addr: nat)
    requires Valid(pool)
    ensures Valid(FreePage(pool, addr))
  {
    hide MergeUp;
    match FreeIndex(pool, addr)
    case None =>
    case Some(page) =>
      DetachTaken(pool, page);
      FreeBlockFrees(ClearHead(pool, page), page, pool.order[page]);
  }

  function Release(s: Vm, addr: nat): (t: Vm)
    requires Valid(s.pool)
    ensures Valid(t.pool)
  {
    FreeKeepsValid(s.pool, addr);
    s.(pool := FreePage(s.pool, addr))
  }

  /** The mapping loop: maps up to n pages from cur on, each to a fresh frame; also returns those frames. */
  function MapRun(s: Vm, cur: nat, n: nat, flags: nat): (r: (Vm, seq<nat>))
    requires Valid(s.pool)
    ensures Valid(r.0.pool)
    decreases n
  {
    if n == 0 then (s, [])
    else
      var (t, a) := AllocFrame(s);
      if a == 0 then (t, [])
      else
        var (u, ok) := MapPage(t, cur, a, flags);
        if !ok then (Release(u, a), [])
        else
          var (w, fs) := MapRun(u, cur + 4096, n - 1, flags);
          (w, [a] + fs)
  }

  /** Handing out a frame: the tables stay as they are and the frame is no table. */
  lemma {:induction false} TookSound(s: Vm, t: Vm, a: nat)
    requires Sound(s) && Took(s, t, a)
    ensures Sound(t) && Held(s, t, {a}) && SameMeaning(s, t)
  {
    hide ClassOf, Tree, Query, Ready, Is, MidAligned, TopSmall;
    forall f
      ensures NodeOf(t, f) <==> NodeOf(s, f)
      ensures NodeOf(t, f) ==> !FreeFrame(t.pool, f)
    {
      TookLeaves(s, t, a, f);
      assert NodeOf(s, f) ==> !FreeFrame(s.pool, f);
    }
    assert !NodeOf(t, a);
    assert forall f :: !NewNode(s, t, f);
  }

  /** Giving back a held frame undoes its allocation. */
  lemma {:induction false} ReleaseHeld(s: Vm, t: Vm, held: set<nat>, a: nat)
    requires Sound(t) && Held(s, t, held) && a in held
    ensures var u := Release(t, a);
            Sound(u) && Held(s, u, held - {a}) && SameMeaning(t, u)
  {
    hide Tree, Query, Is, MidAligned, TopSmall, FreePage, ClassOf;
    FreePageExact(t.pool, a);
    var u := Release(t, a);
    forall f
      ensures NodeOf(u, f) <==> NodeOf(t, f)
      ensures NewNode(s, u, f) <==> NewNode(s, t, f)
      ensures NodeOf(u, f) ==> !FreeFrame(u.pool, f)
    {
      if NodeOf(t, f) && FreeFrame(u.pool, f) {
        var p: nat :| p < u.pool.total && f == AddrOf(u.pool, p) && ClassOf(u.pool, p) == Free;
        NodeNotFreed(t, u, a, f, p);
        assert false;
      }
    }
    var q: nat :| q < s.pool.total && a == AddrOf(s.pool, q) && ClassOf(s.pool, q) == Free;
    forall p: nat | p < s.pool.total
      ensures ClassOf(u.pool, p) == if NewNode(s, u, AddrOf(s.pool, p)) || AddrOf(s.pool, p) in held - {a} then Allocated
                                    else ClassOf(s.pool, p)
    {
      assert AddrOf(t.pool, p) == AddrOf(s.pool, p);
      assert AddrOf(s.pool, p) == a ==> p == q;
      assert !NodeOf(t, a);
    }
  }

  lemma {:induction false} NodeNotFreed(t: Vm, u: Vm, a: nat, f: nat, p: nat)
    requires Sound(t) && NodeOf(t, f) && p < t.pool.total && f == AddrOf(u.pool, p) && SamePages(t.pool, u.pool) && !NodeOf(t, a)
    requires ClassOf(u.pool, p) == if a == AddrOf(t.pool, p) && ClassOf(t.pool, p) == Allocated then Free else ClassOf(t.pool, p)
    ensures ClassOf(u.pool, p) != Free
  {
    hide Tree, MidAligned, TopSmall, IsNode, ClassOf, Ready;
    assert f == AddrOf(t.pool, p);
    assert !FreeFrame(t.pool, f);
  }

  // ---- pages


  /** Two addresses index the same 4 KiB entry exactly when bits 12..47 agree. */
  lemma {:induction false} SamePageIff(u: nat, v: nat)
    ensures SamePage(u, v) <==> u / 4096 % 0x10_0000_0000 == v / 4096 % 0x10_0000_0000
  {
    PageDigits(u);
    PageDigits(v);
  }

  lemma {:induction false} PageDigits(v: nat)
    ensures var x := IndexOf(v);
            v / 4096 % 0x10_0000_0000 == ((x.l4 * 512 + x.l3) * 512 + x.l2) * 512 + x.l1
  {
    var q := v / 4096;
    var q2 := q / 512;
    var q3 := q2 / 512;
    var q4 := q3 / 512;
    var q5 := q4 / 512;
    var r := v % 4096;
    Quotient(0x20_0000, q2, q % 512 * 4096 + r, v);
    Quotient(0x4000_0000, q3, q2 % 512 * 0x20_0000 + q % 512 * 4096 + r, v);
    Quotient(0x80_0000_0000, q4, q3 % 512 * 0x4000_0000 + q2 % 512 * 0x20_0000 + q % 512 * 4096 + r, v);
    Quotient(0x10_0000_0000, q5, ((q4 % 512 * 512 + q3 % 512) * 512 + q2 % 512) * 512 + q % 512, q);
  }

  lemma {:induction false} PagesApart(a: nat, b: nat)
    requires a % 4096 == 0 && b % 4096 == 0 && a < 0x1_0000_0000_0000 && b < 0x1_0000_0000_0000
    ensures SamePage(a, b) <==> a == b
  {
    hide SamePage;
    SamePageIff(a, b);
  }

  /** The mapping of u once pages cur, cur+4096, ... are mapped to fs. */
  function Overlay(was: Option<Mapping>, cur: nat, fs: seq<nat>, perm: Perm, u: nat): Option<Mapping>
    decreases |fs|
  {
    if fs == [] then was
    else if SamePage(u, cur) then Some(Mapping(fs[0] + u % 4096, perm))
    else Overlay(was, cur + 4096, fs[1..], perm, u)
  }

  /** Page i of a run. */
  lemma {:induction false} OverlayHit(was: Option<Mapping>, cur: nat, fs: seq<nat>, perm: Perm, u: nat, i: nat)
    requires i < |fs| && cur % 4096 == 0 && cur + |fs| * 4096 <= 0x1_0000_0000_0000 && SamePage(u, cur + i * 4096)
    ensures Overlay(was, cur, fs, perm, u) == Some(Mapping(fs[i] + u % 4096, perm))
    decreases |fs|
  {
    hide SamePage;
    PagesApart(cur + i * 4096, cur);
    SamePageAlike(u, cur + i * 4096, cur);
    if i > 0 {
      assert cur + i * 4096 == (cur + 4096) + (i - 1) * 4096;
      OverlayHit(was, cur + 4096, fs[1..], perm, u, i - 1);
    }
  }

  lemma {:induction false} SamePageAlike(u: nat, v: nat, w: nat)
    requires SamePage(u, v)
    ensures SamePage(u, w) <==> SamePage(v, w)
    ensures SamePage(w, u) <==> SamePage(w, v)
  {
  }

  lemma {:induction false} OverlayMiss(was: Option<Mapping>, cur: nat, fs: seq<nat>, perm: Perm, u: nat)
    requires forall i :: 0 <= i < |fs| ==> !SamePage(u, cur + i * 4096)
    ensures Overlay(was, cur, fs, perm, u) == was
    decreases |fs|
  {
    hide SamePage;
    if fs != [] {
      assert !SamePage(u, cur + 0 * 4096);
      forall i | 0 <= i < |fs[1..]|
        ensures !SamePage(u, cur + 4096 + i * 4096)
      {
        assert cur + 4096 + i * 4096 == cur + (i + 1) * 4096;
      }
      OverlayMiss(was, cur + 4096, fs[1..], perm, u);
    }
  }

  /** The page before a run is not touched by it. */
  lemma {:induction false} OverlayBefore(was: Option<Mapping>, cur: nat, fs: seq<nat>, perm: Perm, u: nat)
    requires cur % 4096 == 0 && cur + 4096 + |fs| * 4096 <= 0x1_0000_0000_0000 && SamePage(u, cur)
    ensures Overlay(was, cur + 4096, fs, perm, u) == was
  {
    hide SamePage, Overlay;
    forall i | 0 <= i < |fs|
      ensures !SamePage(u, cur + 4096 + i * 4096)
    {
      PagesApart(cur, cur + 4096 + i * 4096);
      SamePageAlike(u, cur, cur + 4096 + i * 4096);
    }
    OverlayMiss(was, cur + 4096, fs, perm, u);
  }

  ghost predicate Fresh(fs: seq<nat>) {
    Distinct(fs) && forall i :: 0 <= i < |fs| ==> fs[i] % 4096 == 0 && fs[i] < 0x10_0000_0000_0000
  }

  /** Page i of the run was unmapped in s and has its table in t. */
  ghost predicate PageAt(s: Vm, t: Vm, cur: nat, i: nat) {
    Query(s.mem, s.root, cur + i * 4096) == None && HasTable(t, cur + i * 4096)
  }

  /** t is s with the pages from cur on, unmapped in s, mapped to the frames fs taken from the pool. */
  ghost predicate Pending(s: Vm, t: Vm, cur: nat, fs: seq<nat>, perm: Perm) {
    && Sound(t) && Held(s, t, Elements(fs)) && Fresh(fs)
    && cur % 4096 == 0 && cur + |fs| * 4096 <= 0x1_0000_0000_0000
    && (forall u: nat {:trigger Query(t.mem, t.root, u)} ::
          Query(t.mem, t.root, u) == Overlay(Query(s.mem, s.root, u), cur, fs, perm, u))
    && (forall i {:trigger PageAt(s, t, cur, i)} :: 0 <= i < |fs| ==> PageAt(s, t, cur, i))
  }

  lemma {:induction false} MapRunPends(s: Vm, cur: nat, n: nat, flags: nat)
    requires Sound(s) && cur % 4096 == 0 && cur + n * 4096 <= 0x1_0000_0000_0000
    ensures var (t, fs) := MapRun(s, cur, n, flags);
            |fs| <= n && Pending(s, t, cur, fs, PermOf(flags))
    decreases n, 1
  {
    hide Valid, AllocFrame, MapPage, Release, Sound, Held, Pending, SameMeaning, PermOf, MapRefines, Ready, TopSmall;
    SoundParts(s);
    NothingPends(s, cur, PermOf(flags));
    if n > 0 {
      AllocFrameTakes(s);
      var (t, a) := AllocFrame(s);
      if s.pool.free != 0 {
        TookSound(s, t, a);
        MapExact(t, cur, a, flags);
        var (u, ok) := MapPage(t, cur, a, flags);
        if !ok {
          MapFailed(s, t, u, cur, a, flags);
        } else {
          MapRest(s, t, u, cur, flags, a, cur + 4096, n - 1);
        }
      }
    }
  }

  lemma {:induction false} NothingPends(s: Vm, cur: nat, perm: Perm)
    requires Sound(s) && cur % 4096 == 0 && cur <= 0x1_0000_0000_0000
    ensures Pending(s, s, cur, [], perm)
  {
    hide Sound, Query;
    assert Elements([]) == {};
  }

  lemma {:induction false} MapFailed(s: Vm, t: Vm, u: Vm, cur: nat, a: nat, flags: nat)
    requires Held(s, t, {a}) && SameMeaning(s, t) && MapRefines(t, u, false, cur, a, flags)
    requires cur % 4096 == 0 && cur <= 0x1_0000_0000_0000
    ensures Valid(u.pool) && Pending(s, Release(u, a), cur, [], PermOf(flags))
  {
    assert Valid(u.pool);
    hide Release, Held, Sound, Query, PermOf;
    var none: set<nat> := {};
    HeldTrans(s, t, u, {a}, none);
    assert {a} + none == {a};
    ReleaseHeld(s, u, {a}, a);
    assert {a} - {a} == none;
    assert Elements([]) == none;
    forall v: nat
      ensures Query(Release(u, a).mem, Release(u, a).root, v) == Query(s.mem, s.root, v)
    {
      assert Query(u.mem, u.root, v) == Query(t.mem, t.root, v);
    }
  }

  lemma {:induction false} RefinesParts(t: Vm, u: Vm, ok: bool, cur: nat, a: nat, flags: nat)
    requires MapRefines(t, u, ok, cur, a, flags)
    ensures Sound(u) && Valid(u.pool) && (ok ==> cur % 4096 == 0)
  {
  }

  lemma {:induction false} MapRest(s: Vm, t: Vm, u: Vm, cur: nat, flags: nat, a: nat, next: nat, m: nat)
    requires Held(s, t, {a}) && SameMeaning(s, t) && MapRefines(t, u, true, cur, a, flags)
    requires next == cur + 4096 && next + m * 4096 <= 0x1_0000_0000_0000 && a % 4096 == 0 && a < 0x10_0000_0000_0000
    ensures Valid(u.pool)
    ensures var (w, fs) := MapRun(u, next, m, flags);
            |fs| <= m && Pending(s, w, cur, [a] + fs, PermOf(flags))
    decreases m + 1, 0
  {
    hide *;
    RefinesParts(t, u, true, cur, a, flags);
    MapRunPends(u, next, m, flags);
    PendsMore(s, t, u, MapRun(u, next, m, flags).0, cur, MapRun(u, next, m, flags).1, flags, a);
  }

  /** Mapping one page and then a run from the next page on is mapping the longer run. */
  lemma {:induction false} PendsMore(s: Vm, t: Vm, u: Vm, w: Vm, cur: nat, fs: seq<nat>, flags: nat, a: nat)
    requires Held(s, t, {a}) && SameMeaning(s, t) && MapRefines(t, u, true, cur, a, flags)
    requires a % 4096 == 0 && a < 0x10_0000_0000_0000 && Pending(u, w, cur + 4096, fs, PermOf(flags))
    ensures Pending(s, w, cur, [a] + fs, PermOf(flags))
  {
    hide Sound, Query, PermOf, ClassOf, SamePage, IsNode;
    var none: set<nat> := {};
    HeldTrans(s, t, u, {a}, none);
    assert {a} + none == {a};
    HeldFresh(s, u, w, a, fs);
    PendsQuery(s, t, u, w, cur, fs, flags, a);
    PendsPages(s, t, u, w, cur, fs, flags, a);
  }

  lemma {:induction false} HeldFresh(s: Vm, u: Vm, w: Vm, a: nat, fs: seq<nat>)
    requires Held(s, u, {a}) && Held(u, w, Elements(fs)) && Fresh(fs) && a % 4096 == 0 && a < 0x10_0000_0000_0000
    ensures Held(s, w, Elements([a] + fs)) && Fresh([a] + fs)
  {
    hide ClassOf, IsNode;
    HeldTrans(s, u, w, {a}, Elements(fs));
    assert Elements([a] + fs) == {a} + Elements(fs);
    var q: nat :| q < s.pool.total && a == AddrOf(s.pool, q);
    assert ClassOf(u.pool, q) == Allocated && AddrOf(u.pool, q) == a;
    forall i | 0 <= i < |fs|
      ensures fs[i] != a
    {
      assert fs[i] in Elements(fs);
      var p: nat :| p < u.pool.total && fs[i] == AddrOf(u.pool, p) && ClassOf(u.pool, p) == Free;
    }
  }

  lemma {:induction false} PendsQuery(s: Vm, t: Vm, u: Vm, w: Vm, cur: nat, fs: seq<nat>, flags: nat, a: nat)
    requires SameMeaning(s, t) && MapRefines(t, u, true, cur, a, flags) && a % 4096 == 0 && a < 0x10_0000_0000_0000
    requires Pending(u, w, cur + 4096, fs, PermOf(flags))
    ensures forall y: nat {:trigger Query(w.mem, w.root, y)} ::
      Query(w.mem, w.root, y) == Overlay(Query(s.mem, s.root, y), cur, [a] + fs, PermOf(flags), y)
  {
    hide Sound, Query, PermOf, SamePage, Held, Phys, PageAt;
    PhysAligned(a);
    forall y: nat
      ensures Query(w.mem, w.root, y) == Overlay(Query(s.mem, s.root, y), cur, [a] + fs, PermOf(flags), y)
    {
      assert Query(w.mem, w.root, y) == Overlay(Query(u.mem, u.root, y), cur + 4096, fs, PermOf(flags), y);
      assert Query(t.mem, t.root, y) == Query(s.mem, s.root, y);
      assert ([a] + fs)[1..] == fs;
      if SamePage(y, cur) {
        OverlayBefore(Query(u.mem, u.root, y), cur, fs, PermOf(flags), y);
      }
    }
  }

  lemma {:induction false} PendsPages(s: Vm, t: Vm, u: Vm, w: Vm, cur: nat, fs: seq<nat>, flags: nat, a: nat)
    requires SameMeaning(s, t) && MapRefines(t, u, true, cur, a, flags)
    requires Pending(u, w, cur + 4096, fs, PermOf(flags))
    ensures forall i {:trigger PageAt(s, w, cur, i)} :: 0 <= i < |fs| + 1 ==> PageAt(s, w, cur, i)
  {
    hide Sound, Query, PermOf, SamePage, NodeOf, ClassOf, IndexOf;
    forall i | 0 <= i < |fs| + 1
      ensures PageAt(s, w, cur, i)
    {
      var v := cur + i * 4096;
      assert Query(t.mem, t.root, v) == Query(s.mem, s.root, v);
      if i == 0 {
        assert v == cur;
        var f :| Is(u.mem, u.root, P3(IndexOf(cur)), f);
        assert Is(w.mem, w.root, P3(IndexOf(cur)), f);
      } else {
        assert v == cur + 4096 + (i - 1) * 4096;
        assert PageAt(u, w, cur + 4096, i - 1);
        PagesApart(v, cur);
        assert Query(u.mem, u.root, v) == Query(t.mem, t.root, v);
      }
    }
  }

  // ---- undoing a run that could not be completed

  /** The clean-up loop: unmap each page from addr on and give its frame back. */
  function Rollback(s: Vm, addr: nat, n: nat): (t: Vm)
    requires Valid(s.pool)
    ensures Valid(t.pool)
    decreases n
  {
    if n == 0 then s
    else
      match Translate(s.mem, s.root, addr)
      case None => Rollback(s, addr + 4096, n - 1)
      case Some(phys) => Rollback(Release(UnmapPage(s, addr).0, Phys(phys)), addr + 4096, n - 1)
  }

  /** Unmapping and releasing every page of a pending run leaves only the new tables behind. */
  lemma {:induction false} RollbackRestores(s: Vm, t: Vm, cur: nat, fs: seq<nat>, perm: Perm)
    requires Pending(s, t, cur, fs, perm) && t.root != 0
    ensures Valid(t.pool) && Quiet(s, Rollback(t, cur, |fs|))
    decreases |fs|
  {
    hide Valid, Sound, Pending, Quiet, UnmapPage, Release, Translate, Phys, Ready, TopSmall;
    PendingSound(s, t, cur, fs, perm);
    SoundParts(t);
    if fs == [] {
      NothingLeft(s, t, cur, perm);
    } else {
      UndoFirst(s, t, cur, fs, perm);
      var u := Release(UnmapPage(t, cur).0, fs[0]);
      RollbackRestores(s, u, cur + 4096, fs[1..], perm);
    }
  }

  lemma {:induction false} NothingLeft(s: Vm, t: Vm, cur: nat, perm: Perm)
    requires Pending(s, t, cur, [], perm)
    ensures Quiet(s, t)
  {
    hide Sound, Query;
    assert Elements([]) == {};
    forall v: nat
      ensures Query(t.mem, t.root, v) == Query(s.mem, s.root, v)
    {
      assert Query(t.mem, t.root, v) == Overlay(Query(s.mem, s.root, v), cur, [], perm, v);
    }
  }

  /** The first page of a pending run translates to its frame and can be unmapped. */
  lemma {:induction false} FirstUnmaps(s: Vm, t: Vm, cur: nat, fs: seq<nat>, perm: Perm)
    requires Pending(s, t, cur, fs, perm) && t.root != 0 && fs != []
    ensures Valid(t.pool) && Translate(t.mem, t.root, cur) == Some(fs[0]) && Phys(fs[0]) == fs[0]
    ensures UnmapPage(t, cur).1 && UnmapRefines(t, UnmapPage(t, cur).0, true, cur)
  {
    assert Valid(t.pool);
    hide Valid, Sound, Held, Query, UnmapPage, SamePage, Phys;
    assert PageAt(s, t, cur, 0);
    assert Query(t.mem, t.root, cur) == Overlay(Query(s.mem, s.root, cur), cur, fs, perm, cur);
    assert SamePage(cur, cur) by { SamePageIff(cur, cur); }
    PhysAligned(fs[0]);
    UnmapExact(t, cur);
    MappedIsReached(t, cur);
  }

  lemma {:induction false} UndoFirst(s: Vm, t: Vm, cur: nat, fs: seq<nat>, perm: Perm)
    requires Pending(s, t, cur, fs, perm) && t.root != 0 && fs != []
    ensures Valid(t.pool) && Translate(t.mem, t.root, cur) == Some(fs[0]) && Phys(fs[0]) == fs[0]
    ensures var u := Release(UnmapPage(t, cur).0, fs[0]);
            Pending(s, u, cur + 4096, fs[1..], perm) && u.root == t.root
  {
    FirstUnmaps(s, t, cur, fs, perm);
    UndoRest(s, t, UnmapPage(t, cur).0, cur, fs, perm, cur + 4096, fs[1..]);
  }

  lemma {:induction false} UndoRest(s: Vm, t: Vm, t1: Vm, cur: nat, fs: seq<nat>, perm: Perm, next: nat, rest: seq<nat>)
    requires Pending(s, t, cur, fs, perm) && fs != [] && UnmapRefines(t, t1, true, cur)
    requires next == cur + 4096 && rest == fs[1..]
    ensures Valid(t1.pool) && Pending(s, Release(t1, fs[0]), next, rest, perm) && t1.root == t.root
  {
    hide Held, Query, SamePage, ClassOf, Overlay, Fresh, HasTable, Unreached, PageAt, Is, Tree, MidAligned, TopSmall;
    UndoFrames(s, t, t1, fs);
    UndoMeaning(s, t, t1, Release(t1, fs[0]), cur, fs, perm);
    UndoPages(s, t, t1, Release(t1, fs[0]), cur, fs, perm);
    assert t1.root == t.root by { RootKept(t, t1); }
  }

  lemma {:induction false} RootKept(s: Vm, t: Vm)
    requires Grew(s, t)
    ensures t.root == s.root
  {
  }

  /** A mapped page whose lowest-level table exists is within reach of vmm_unmap_page. */
  lemma {:induction false} MappedIsReached(t: Vm, v: nat)
    requires HasTable(t, v) && Query(t.mem, t.root, v) != None && t.root != 0
    ensures !Unreached(t, IndexOf(v))
  {
    hide Walk, Is, IndexOf;
    IndexInRange(v);
    LeafIsMapped(t, v);
    var f :| Is(t.mem, t.root, P3(IndexOf(v)), f);
    WalkAt(t.mem, t.root, IndexOf(v), f);
  }

  lemma {:induction false} UndoFrames(s: Vm, t: Vm, t1: Vm, fs: seq<nat>)
    requires Held(s, t, Elements(fs)) && Grew(t, t1) && Sound(t1) && fs != [] && Fresh(fs)
    ensures Valid(t1.pool) && Sound(Release(t1, fs[0])) && Held(s, Release(t1, fs[0]), Elements(fs[1..])) && Fresh(fs[1..])
    ensures SameMeaning(t1, Release(t1, fs[0])) && Held(t, t1, {})
  {
    assert Valid(t1.pool);
    hide Sound, Held, Release, Query, Fresh;
    var none: set<nat> := {};
    HeldTrans(s, t, t1, Elements(fs), none);
    assert Elements(fs) + none == Elements(fs);
    ReleaseHeld(s, t1, Elements(fs), fs[0]);
    TailFrames(fs);
  }

  lemma {:induction false} TailFrames(fs: seq<nat>)
    requires Fresh(fs) && fs != []
    ensures Elements(fs) - {fs[0]} == Elements(fs[1..]) && Fresh(fs[1..]) && fs[0] in Elements(fs)
  {
    assert fs == [fs[0]] + fs[1..];
    forall f
      ensures f in Elements(fs) - {fs[0]} <==> f in Elements(fs[1..])
    {
    }
  }

  lemma {:induction false} UndoMeaning(s: Vm, t: Vm, t1: Vm, u: Vm, cur: nat, fs: seq<nat>, perm: Perm)
    requires Pending(s, t, cur, fs, perm) && fs != [] && UnmapRefines(t, t1, true, cur) && SameMeaning(t1, u)
    ensures forall y: nat {:trigger Query(u.mem, u.root, y)} ::
      Query(u.mem, u.root, y) == Overlay(Query(s.mem, s.root, y), cur + 4096, fs[1..], perm, y)
  {
    hide Sound, Held, Query, SamePage, Unreached;
    forall y: nat
      ensures Query(u.mem, u.root, y) == Overlay(Query(s.mem, s.root, y), cur + 4096, fs[1..], perm, y)
    {
      assert Query(u.mem, u.root, y) == Query(t1.mem, t1.root, y);
      assert Query(t.mem, t.root, y) == Overlay(Query(s.mem, s.root, y), cur, fs, perm, y);
      if SamePage(y, cur) {
        OverlayBefore(Query(s.mem, s.root, y), cur, fs[1..], perm, y);
        assert PageAt(s, t, cur, 0);
        UnmappedTogether(s, y, cur);
      }
    }
  }

  lemma {:induction false} UnmappedTogether(s: Vm, u: nat, v: nat)
    requires SamePage(u, v) && Query(s.mem, s.root, v) == None
    ensures Query(s.mem, s.root, u) == None
  {
  }

  lemma {:induction false} UndoPages(s: Vm, t: Vm, t1: Vm, u: Vm, cur: nat, fs: seq<nat>, perm: Perm)
    requires Pending(s, t, cur, fs, perm) && fs != [] && Grew(t, t1) && u.mem == t1.mem && u.root == t1.root
    ensures forall i {:trigger PageAt(s, u, cur + 4096, i)} :: 0 <= i < |fs[1..]| ==> PageAt(s, u, cur + 4096, i)
  {
    hide Sound, Query, ClassOf, IndexOf, NodeOf;
    var next := cur + 4096;
    forall i | 0 <= i < |fs[1..]|
      ensures PageAt(s, u, next, i)
    {
      assert PageAt(s, t, cur, i + 1);
      assert cur + 4096 + i * 4096 == cur + (i + 1) * 4096;
      var v := cur + (i + 1) * 4096;
      var f :| Is(t.mem, t.root, P3(IndexOf(v)), f);
      assert Is(u.mem, u.root, P3(IndexOf(v)), f);
    }
  }

  // ---- vmm_alloc_kernel_pages

  function AllocKernelPages(s: Vm, count: nat, flags: nat): (Vm, Option<nat>)
    requires Valid(s.pool)
  {
    var start := s.heapNext;
    var bytes := count * 4096 % 0x1_0000_0000_0000_0000;
    if count == 0 || s.root == 0 || bytes / 4096 != count || start > 0x1_0000_0000_0000_0000 - 1 - bytes then (s, None)
    else
      var end := start + bytes;
      if start < HEAP_BASE || end > HEAP_LIMIT then (s, None)
      else
        var (t, fs) := MapRun(s, start, count, Or(flags, 2));
        if |fs| != count then (Rollback(t, start, |fs|), None)
        else (t.(heapNext := end), Some(start))
  }

  /** The frames behind a successful vmm_alloc_kernel_pages. */
  function HeapFrames(s: Vm, count: nat, flags: nat): seq<nat>
    requires Valid(s.pool)
  {
    MapRun(s, s.heapNext, count, Or(flags, 2)).1
  }

  lemma {:induction false} OrWritable(f: nat)
    ensures PermOf(Or(f, 2)) == PermOf(f).(writable := true)
  {
    if f > 0 {
      OrHalves(f, 2);
      if f / 2 > 0 {
        OrHalves(f / 2, 1);
      }
      SameUpperBits(Or(f, 2), f);
    }
  }

  lemma {:induction false} SameUpperBits(e: nat, f: nat)
    requires e / 4 == f / 4
    ensures e / 0x8000_0000_0000_0000 == f / 0x8000_0000_0000_0000
  {
    var q := e / 4 / 0x2000_0000_0000_0000;
    var r := e / 4 % 0x2000_0000_0000_0000;
    Quotient(0x8000_0000_0000_0000, q, 4 * r + e % 4, e);
    Quotient(0x8000_0000_0000_0000, q, 4 * r + f % 4, f);
  }

  ghost predicate HeapRefines(s: Vm, t: Vm, r: Option<nat>, count: nat, flags: nat, fs: seq<nat>) {
    match r
    case None => Quiet(s, t)
    case Some(a) =>
      && a == s.heapNext && count > 0 && 0x4420_0000 <= a && t.heapNext == a + count * 4096 <= 0x5420_0000
      && |fs| == count && Sound(t)
      && Pending(s, t.(heapNext := s.heapNext), a, fs, PermOf(flags).(writable := true))
  }

  /** All or nothing: either the whole range, beginning at the heap cursor, is mapped to fresh frames and the cursor
      moves past it, or every translation and the cursor are as before and only new tables have left the pool. */
  lemma {:induction false} HeapAllOrNothing(s: Vm, count: nat, flags: nat)
    requires Sound(s)
    ensures var (t, r) := AllocKernelPages(s, count, flags);
            HeapRefines(s, t, r, count, flags, HeapFrames(s, count, flags))
  {
    hide Valid, MapRun, Rollback, Sound, Quiet, PermOf, Or, Pending, Ready, TopSmall;
    SoundParts(s);
    QuietRefl(s);
    var bytes := count * 4096 % 0x1_0000_0000_0000_0000;
    if count > 0 && s.root != 0 && bytes / 4096 == count && s.heapNext + bytes <= HEAP_LIMIT {
      WholePages(count);
      HeapRun(s, s.heapNext, count, flags, s.heapNext + bytes);
    }
  }

  lemma {:induction false} HeapRun(s: Vm, start: nat, count: nat, flags: nat, end: nat)
    requires Sound(s) && start == s.heapNext && s.root != 0 && count > 0 && end == start + count * 4096 && end <= HEAP_LIMIT
    ensures var (t, fs) := MapRun(s, start, count, Or(flags, 2));
            if |fs| != count then HeapRefines(s, Rollback(t, start, |fs|), None, count, flags, fs)
            else HeapRefines(s, t.(heapNext := end), Some(start), count, flags, fs)
  {
    hide MapRun, Rollback, Valid, Pending, Sound, Quiet, PermOf, Or, Held, Query, Ready, TopSmall;
    SoundParts(s);
    MapRunPends(s, start, count, Or(flags, 2));
    OrWritable(flags);
    var (t, fs) := MapRun(s, start, count, Or(flags, 2));
    PendingSound(s, t, start, fs, PermOf(Or(flags, 2)));
    if |fs| != count {
      RollbackRestores(s, t, start, fs, PermOf(Or(flags, 2)));
    } else {
      CursorMoves(s, t, start, fs, PermOf(Or(flags, 2)), end);
    }
  }

  lemma {:induction false} WholePages(count: nat)
    requires count * 4096 % 0x1_0000_0000_0000_0000 / 4096 == count
    ensures count * 4096 % 0x1_0000_0000_0000_0000 == count * 4096
  {
  }

  lemma {:induction false} PendingSound(s: Vm, t: Vm, cur: nat, fs: seq<nat>, perm: Perm)
    requires Pending(s, t, cur, fs, perm)
    ensures Sound(t) && t.root == s.root && t.heapNext == s.heapNext
  {
    hide Sound;
  }

  lemma {:induction false} CursorMoves(s: Vm, t: Vm, cur: nat, fs: seq<nat>, perm: Perm, end: nat)
    requires Pending(s, t, cur, fs, perm) && HEAP_BASE <= end <= HEAP_LIMIT && end % 4096 == 0
    ensures Sound(t.(heapNext := end)) && t.(heapNext := end).(heapNext := s.heapNext) == t
  {
    hide Tree, MidAligned, TopSmall, Ready, ClassOf, IsNode, Query;
    var u := t.(heapNext := end);
    forall f
      ensures NodeOf(u, f) <==> NodeOf(t, f)
    {
    }
  }

  /** Success, page by page: page i of the range reads as the i-th fresh frame, writable; every address outside the
      range reads as before; the frames are pairwise distinct, were free, and none of them is a table. */
  lemma {:induction false} HeapPages(s: Vm, count: nat, flags: nat, i: nat, j: nat, u: nat)
    requires Sound(s) && AllocKernelPages(s, count, flags).1 != None
    ensures var t := AllocKernelPages(s, count, flags).0;
            var fs := HeapFrames(s, count, flags);
            var a := s.heapNext;
            |fs| == count
            && (i < j < count ==> fs[i] != fs[j])
            && (i < count ==> FreeFrame(s.pool, fs[i]) && !NodeOf(t, fs[i]))
            && (i < count && SamePage(u, a + i * 4096) ==>
                  Query(t.mem, t.root, u) == Some(Mapping(fs[i] + u % 4096, PermOf(flags).(writable := true))))
            && ((forall k :: 0 <= k < count ==> !SamePage(u, a + k * 4096)) ==>
                  Query(t.mem, t.root, u) == Query(s.mem, s.root, u))
  {
    hide Valid, AllocKernelPages, HeapFrames, Sound, Query, PermOf, SamePage, Ready, TopSmall, ClassOf, Is, IsNode;
    SoundParts(s);
    HeapAllOrNothing(s, count, flags);
    var t := AllocKernelPages(s, count, flags).0;
    var fs := HeapFrames(s, count, flags);
    var u1 := t.(heapNext := s.heapNext);
    var perm := PermOf(flags).(writable := true);
    assert Query(u1.mem, u1.root, u) == Overlay(Query(s.mem, s.root, u), s.heapNext, fs, perm, u);
    if i < count {
      assert fs[i] in Elements(fs);
      assert NodeOf(u1, fs[i]) <==> NodeOf(t, fs[i]);
      if SamePage(u, s.heapNext + i * 4096) {
        OverlayHit(Query(s.mem, s.root, u), s.heapNext, fs, perm, u, i);
      }
    }
    if forall k :: 0 <= k < count ==> !SamePage(u, s.heapNext + k * 4096) {
      OverlayMiss(Query(s.mem, s.root, u), s.heapNext, fs, perm, u);
    }
  }
}
