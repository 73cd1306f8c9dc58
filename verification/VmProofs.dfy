/** Each step of the page-table operations keeps the joint invariant and the meaning of every address. */
module VmProofs {
  import opened Options
  import opened BuddyPool
  import opened BuddyOps
  import opened PoolApi
  import opened PageWords
  import opened PageTables
  import opened VmOps

  lemma {:induction false} SoundParts(s: Vm)
    requires Sound(s)
    ensures Ready(s.pool) && Valid(s.pool) && TopSmall(s.mem, s.root)
    ensures HEAP_BASE <= s.heapNext <= HEAP_LIMIT && s.heapNext % 4096 == 0
  {
  }

  /** s and t differ only in that the free frame a was handed out. */
  ghost predicate Took(s: Vm, t: Vm, a: nat) {
    && t == s.(pool := t.pool) && Ready(t.pool) && SamePages(s.pool, t.pool)
    && FreeFrame(s.pool, a) && 0 < a < 0x10_0000_0000_0000 && a % 4096 == 0
    && (forall p: nat {:trigger ClassOf(t.pool, p)} :: p < s.pool.total ==>
          ClassOf(t.pool, p) == if a == AddrOf(s.pool, p) then Allocated else ClassOf(s.pool, p))
  }

  lemma {:induction false} AllocFrameTakes(s: Vm)
    requires Sound(s)
    ensures var (t, a) := AllocFrame(s);
            if s.pool.free == 0 then t == s && a == 0 else Took(s, t, a)
  {
    hide AllocPage;
    AllocPageExact(s.pool);
    var (t, a) := AllocFrame(s);
    if s.pool.free != 0 {
      var q: nat :| 0 < q < s.pool.total && a == AddrOf(s.pool, q) && ClassOf(s.pool, q) == Free
                    && ClassOf(t.pool, q) == Allocated && SameOutside(s.pool, t.pool, q, 1) && Ready(t.pool);
      forall p: nat | p < s.pool.total
        ensures ClassOf(t.pool, p) == if a == AddrOf(s.pool, p) then Allocated else ClassOf(s.pool, p)
      {
      }
    }
  }

  /** A frame still free after another one was taken was free before. */
  lemma {:induction false} TookLeaves(s: Vm, t: Vm, a: nat, f: nat)
    requires Took(s, t, a)
    ensures FreeFrame(t.pool, f) ==> FreeFrame(s.pool, f) && f != a
  {
    if FreeFrame(t.pool, f) {
      var p: nat :| p < t.pool.total && f == AddrOf(t.pool, p) && ClassOf(t.pool, p) == Free;
      assert f == AddrOf(s.pool, p);
      assert ClassOf(s.pool, p) == Free && f != a;
    }
  }

  /** Linking the frame just taken keeps the invariant, and that frame is the one new table. */
  lemma {:induction false} LinkSound(s: Vm, t: Vm, u: Vm, p: Path, f: nat, i: nat, a: nat, tbl: seq<nat>, w: nat)
    requires Sound(s) && Took(s, t, a) && Linkable(s.mem, s.root, p, f, i, a, tbl, w)
    requires u == t.(mem := Linked(s.mem, f, i, a, tbl, w))
    ensures Sound(u) && Grew(s, u) && Is(u.mem, u.root, Down(p, i), a)
  {
    hide Linkable, NodeAt, Present, Large, Phys, Linked, Ready, ClassOf, FreeFrame;
    LinkTree(s.mem, s.root, p, f, i, a, tbl, w);
    LinkKeepsNodes(s, u, p, f, i, a, tbl, w);
    LinkMidAligned(s.mem, s.root, p, f, i, a, tbl, w);
    LinkTopSmall(s.mem, s.root, p, f, i, a, tbl, w);
    forall g
      ensures NewNode(s, u, g) <==> g == a
      ensures NodeOf(u, g) ==> !FreeFrame(u.pool, g)
    {
      TookLeaves(s, t, a, g);
      assert NodeOf(s, g) ==> !FreeFrame(s.pool, g);
      assert NodeOf(s, a) ==> !FreeFrame(s.pool, a);
    }
  }

  lemma {:induction false} LinkKeepsNodes(s: Vm, u: Vm, p: Path, f: nat, i: nat, a: nat, tbl: seq<nat>, w: nat)
    requires Linkable(s.mem, s.root, p, f, i, a, tbl, w)
    requires u.mem == Linked(s.mem, f, i, a, tbl, w) && u.root == s.root
    ensures Is(u.mem, u.root, Down(p, i), a)
    ensures forall q, g :: Is(s.mem, s.root, q, g) ==> Is(u.mem, u.root, q, g)
  {
    hide NodeAt, Present, Large, Phys, Linked;
    forall q | IsPath(q)
      ensures NodeAt(u.mem, u.root, q) == if q == Down(p, i) then Some(a) else NodeAt(s.mem, s.root, q)
    {
      LinkNodes(s.mem, s.root, p, f, i, a, tbl, w, q);
    }
    assert IsPath(Down(p, i));
  }

  lemma {:induction false} LinkMidAligned(mem: Memory, root: nat, p: Path, f: nat, i: nat, a: nat, tbl: seq<nat>, w: nat)
    requires MidAligned(mem, root) && Linkable(mem, root, p, f, i, a, tbl, w)
    ensures MidAligned(Linked(mem, f, i, a, tbl, w), root)
  {
    hide NodeAt, Present, Large, Phys;
    var m := Linked(mem, f, i, a, tbl, w);
    assert Table(mem, f);
    forall q, g, j: nat | Is(m, root, q, g) && Depth(q) == 2 && j < 512 && Present(Word(m, g, j)) && Large(Word(m, g, j))
      ensures Phys(Word(m, g, j)) % 0x20_0000 == 0
    {
      LinkNodes(mem, root, p, f, i, a, tbl, w, q);
      if q != Down(p, i) {
        assert Is(mem, root, q, g);
        assert Word(m, g, j) == if g == f && j == i then w else Word(mem, g, j);
      }
    }
  }

  lemma {:induction false} LinkTopSmall(mem: Memory, root: nat, p: Path, f: nat, i: nat, a: nat, tbl: seq<nat>, w: nat)
    requires TopSmall(mem, root) && Linkable(mem, root, p, f, i, a, tbl, w)
    ensures TopSmall(Linked(mem, f, i, a, tbl, w), root)
  {
    hide NodeAt, Present, Large, Phys;
    var m := Linked(mem, f, i, a, tbl, w);
    assert Table(mem, f);
    assert a != root by { RootIs(mem, root); assert Is(mem, root, Root, root); }
    forall j: nat | j < 512 && Present(Word(m, root, j))
      ensures !Large(Word(m, root, j))
    {
      assert Word(m, root, j) == if root == f && j == i then w else Word(mem, root, j);
    }
  }

  lemma {:induction false} QuietTrans(s: Vm, u: Vm, t: Vm)
    requires Quiet(s, u) && Quiet(u, t)
    ensures Quiet(s, t)
  {
    hide Sound, ClassOf, FreeFrame, Query;
    var none: set<nat> := {};
    HeldTrans(s, u, t, none, none);
    assert none + none == none;
    forall v: nat
      ensures Query(t.mem, t.root, v) == Query(s.mem, s.root, v)
    {
      assert Query(t.mem, t.root, v) == Query(u.mem, u.root, v);
    }
  }

  lemma {:induction false} HeldTrans(s: Vm, u: Vm, t: Vm, a: set<nat>, b: set<nat>)
    requires Held(s, u, a) && Held(u, t, b)
    ensures Held(s, t, a + b)
  {
    hide ClassOf, Is;
    HeldNodes(s, u, a);
    HeldNodes(u, t, b);
    forall f | FreeFrame(u.pool, f)
      ensures FreeFrame(s.pool, f) && f !in a && !NewNode(s, u, f)
    {
      var p: nat :| p < u.pool.total && f == AddrOf(u.pool, p) && ClassOf(u.pool, p) == Free;
      assert f == AddrOf(s.pool, p) && ClassOf(s.pool, p) == Free;
    }
    forall f
      ensures NewNode(s, t, f) <==> NewNode(s, u, f) || NewNode(u, t, f)
      ensures f in a ==> !NodeOf(t, f)
    {
      if f in a && NewNode(u, t, f) {
        assert false;
      }
    }
    forall p: nat | p < s.pool.total
      ensures ClassOf(t.pool, p) == if NewNode(s, t, AddrOf(s.pool, p)) || AddrOf(s.pool, p) in a + b then Allocated
                                    else ClassOf(s.pool, p)
    {
      assert AddrOf(u.pool, p) == AddrOf(s.pool, p);
      var f := AddrOf(s.pool, p);
      assert NewNode(s, t, f) <==> NewNode(s, u, f) || NewNode(u, t, f);
    }
  }

  lemma {:induction false} HeldNodes(s: Vm, t: Vm, held: set<nat>)
    requires Held(s, t, held)
    ensures forall f :: NodeOf(s, f) ==> NodeOf(t, f)
  {
    forall f | NodeOf(s, f)
      ensures NodeOf(t, f)
    {
      var p :| Is(s.mem, s.root, p, f);
      assert Is(t.mem, t.root, p, f);
    }
  }

  lemma {:induction false} QuietRefl(s: Vm)
    requires Sound(s)
    ensures Quiet(s, s)
  {
  }

  lemma {:induction false} IndexInRange(v: nat)
    ensures Indices(IndexOf(v))
  {
  }

  lemma {:induction false} SameWalksSameMeaning(s: Vm, t: Vm)
    requires t.root == s.root
    requires forall x :: Indices(x) ==> Walk(t.mem, t.root, x) == Walk(s.mem, s.root, x)
    ensures SameMeaning(s, t)
  {
    hide IndexOf, Meaning, Walk, Indices;
    forall v: nat
      ensures Query(t.mem, t.root, v) == Query(s.mem, s.root, v)
    {
      IndexInRange(v);
    }
  }

  // ---- vmm_get_or_create_next_table

  lemma {:induction false} FreshLinkable(s: Vm, t: Vm, p: Path, f: nat, i: nat, a: nat, tbl: seq<nat>, user: bool)
    requires Sound(s) && Took(s, t, a) && Is(s.mem, s.root, p, f) && Depth(p) < 3 && i < 512 && |tbl| == 512
    requires NodeAt(s.mem, s.root, Down(p, i)) == None
    requires Depth(p) == 2 || forall j :: 0 <= j < 512 ==> !Present(tbl[j])
    ensures Linkable(s.mem, s.root, p, f, i, a, tbl, TableEntry(a, user))
  {
    hide NodeAt, Present, Large, Phys, TableEntry;
    TableEntryDecodes(a, user);
    PhysAligned(a);
    assert NodeOf(s, a) ==> !FreeFrame(s.pool, a);
  }

  lemma {:induction false} NextTableQuiet(s: Vm, p: Path, f: nat, i: nat)
    requires Sound(s) && Is(s.mem, s.root, p, f) && Depth(p) < 3 && i < 512
    ensures var (t, r) := NextTable(s, f, i);
            Quiet(s, t)
            && (r != None ==> Is(t.mem, t.root, Down(p, i), r.value))
            && (r == None ==> t == s && (s.pool.free == 0 || (Present(Word(s.mem, f, i)) && Large(Word(s.mem, f, i)))))
  {
    hide Large, Phys, TableEntry, AllocFrame, Sound, Quiet, Valid;
    SoundParts(s);
    var e := Word(s.mem, f, i);
    assert IsPath(Down(p, i));
    QuietRefl(s);
    if !Present(e) {
      AllocFrameTakes(s);
      var (t, a) := AllocFrame(s);
      if s.pool.free != 0 {
        NewTableQuiet(s, t, p, f, i, a);
      }
    }
  }

  lemma {:induction false} NewTableQuiet(s: Vm, t: Vm, p: Path, f: nat, i: nat, a: nat)
    requires Sound(s) && Is(s.mem, s.root, p, f) && Depth(p) < 3 && i < 512 && !Present(Word(s.mem, f, i)) && Took(s, t, a)
    ensures var u := t.(mem := Linked(t.mem, f, i, a, EmptyTable(), TableEntry(a, false)));
            Quiet(s, u) && Is(u.mem, u.root, Down(p, i), a)
  {
    hide Large, Phys, TableEntry, Linked, Walk, Is, Grew, Sound, Linkable;
    var w := TableEntry(a, false);
    var u := t.(mem := Linked(t.mem, f, i, a, EmptyTable(), w));
    assert NodeAt(s.mem, s.root, Down(p, i)) == None by { EntryAbsent(s.mem, s.root, p, f, i); }
    FreshLinkable(s, t, p, f, i, a, EmptyTable(), false);
    LinkSound(s, t, u, p, f, i, a, EmptyTable(), w);
    forall x | Indices(x)
      ensures Walk(u.mem, u.root, x) == Walk(s.mem, s.root, x)
    {
      LinkEmptyWalks(s.mem, s.root, p, f, i, a, EmptyTable(), w, x);
    }
    SameWalksSameMeaning(s, u);
  }

  lemma {:induction false} EntryAbsent(mem: Memory, root: nat, p: Path, f: nat, i: nat)
    requires Is(mem, root, p, f)
    ensures !Present(Word(mem, f, i)) ==> NodeAt(mem, root, Down(p, i)) == None
    ensures p != Root && Large(Word(mem, f, i)) ==> NodeAt(mem, root, Down(p, i)) == None
  {
    hide Present, Large, Phys, Word;
  }

  // ---- permissions of the entries that link tables

  /** What the processor grants through two entries on one walk. */
  function Both(p: Perm, q: Perm): Perm {
    Perm(p.writable && q.writable, p.user && q.user, p.noExec || q.noExec)
  }

  /** A new table is linked writable, for the kernel alone, and executable. */
  lemma {:induction false} NextTableRights(s: Vm, p: Path, f: nat, i: nat)
    requires Sound(s) && Is(s.mem, s.root, p, f) && i < 512 && !Present(Word(s.mem, f, i))
    ensures var (t, r) := NextTable(s, f, i);
            r != None ==> PermOf(Word(t.mem, f, i)) == Perm(true, false, false)
  {
    hide Phys, TableEntry, AllocFrame, Valid, Ready, MidAligned, TopSmall;
    SoundParts(s);
    AllocFrameTakes(s);
    var (t, a) := AllocFrame(s);
    if s.pool.free != 0 {
      TableEntryDecodes(a, false);
      assert Table(s.mem, f);
      assert NodeOf(s, f) ==> !FreeFrame(s.pool, f);
    }
  }

  /** Through the link and any child of a split entry the processor grants exactly what the entry granted. */
  lemma {:induction false} SplitRights(s: Vm, p: Path, pd: nat, i: nat, k: nat)
    requires Sound(s) && Is(s.mem, s.root, p, pd) && Depth(p) == 2 && i < 512 && k < 512 && SplitEntry(s, pd, i).1
    ensures var (e, w) := (Word(s.mem, pd, i), Word(SplitEntry(s, pd, i).0.mem, pd, i));
            Both(PermOf(w), PermOf(SplitTable(e)[k])) == PermOf(e)
  {
    hide Present, Large, Phys, PermOf, TableEntry, AllocFrame, Sound, Quiet, Valid, Linked;
    SoundParts(s);
    var e := Word(s.mem, pd, i);
    AllocFrameTakes(s);
    var (t, a) := AllocFrame(s);
    SplitQuiet(s, t, p, pd, i, a);
    TableEntryDecodes(a, PermOf(e).user);
    EntryDecodes(HugeBase(e) + k * 4096, PermOf(e));
  }

  // ---- vmm_split_large_pd_entry

  lemma {:induction false} SplitEntryQuiet(s: Vm, p: Path, pd: nat, i: nat)
    requires Sound(s) && Is(s.mem, s.root, p, pd) && Depth(p) == 2 && i < 512
    ensures var (t, ok) := SplitEntry(s, pd, i);
            var e := Word(t.mem, pd, i);
            Quiet(s, t)
            && (ok ==> Present(e) && !Large(e) && Is(t.mem, t.root, Down(p, i), Phys(e)))
            && (!ok ==> t == s && (s.pool.free == 0 || !Present(e) || !Large(e)))
  {
    hide Present, Large, Phys, TableEntry, AllocFrame, Sound, Quiet, Valid, Linked, SplitTable;
    SoundParts(s);
    var e := Word(s.mem, pd, i);
    QuietRefl(s);
    if Present(e) && Large(e) {
      AllocFrameTakes(s);
      var (t, a) := AllocFrame(s);
      if s.pool.free != 0 {
        SplitQuiet(s, t, p, pd, i, a);
      }
    }
  }

  lemma {:induction false} SplitQuiet(s: Vm, t: Vm, p: Path, pd: nat, i: nat, a: nat)
    requires Sound(s) && Is(s.mem, s.root, p, pd) && Depth(p) == 2 && i < 512 && Took(s, t, a)
    requires Present(Word(s.mem, pd, i)) && Large(Word(s.mem, pd, i))
    ensures var e := Word(s.mem, pd, i);
            var w := TableEntry(a, PermOf(e).user);
            var u := t.(mem := Linked(t.mem, pd, i, a, SplitTable(e), w));
            Quiet(s, u) && Is(u.mem, u.root, Down(p, i), a)
            && Word(u.mem, pd, i) == w && Present(w) && !Large(w) && Phys(w) == a
  {
    hide Present, Large, Phys, TableEntry, NodeAt, Walk, Grew, PermOf, SplitChild;
    var e := Word(s.mem, pd, i);
    var tbl, w := SplitTable(e), TableEntry(a, PermOf(e).user);
    var u := t.(mem := Linked(t.mem, pd, i, a, tbl, w));
    assert p != Root by { assert Depth(Root) == 0; }
    EntryAbsent(s.mem, s.root, p, pd, i);
    FreshLinkable(s, t, p, pd, i, a, tbl, PermOf(e).user);
    LinkSound(s, t, u, p, pd, i, a, tbl, w);
    SplitSameMeaning(s, u, p, pd, i, a, w);
    assert Table(s.mem, pd);
    assert NodeOf(s, pd) && NodeOf(s, pd) ==> !FreeFrame(s.pool, pd);
    assert pd != a;
  }

  lemma {:induction false} SplitSameMeaning(s: Vm, u: Vm, p: Path, pd: nat, i: nat, a: nat, w: nat)
    requires Sound(s) && Depth(p) == 2 && u.root == s.root
    requires Present(Word(s.mem, pd, i)) && Large(Word(s.mem, pd, i))
    requires Linkable(s.mem, s.root, p, pd, i, a, SplitTable(Word(s.mem, pd, i)), w)
    requires u.mem == Linked(s.mem, pd, i, a, SplitTable(Word(s.mem, pd, i)), w)
    ensures SameMeaning(s, u)
  {
    hide Present, Large, Phys, NodeAt, Walk, PermOf, SplitChild, Linked, IndexOf;
    var e := Word(s.mem, pd, i);
    var tbl := SplitTable(e);
    assert Phys(e) % 0x20_0000 == 0;
    forall j | 0 <= j < 512
      ensures Present(tbl[j])
    {
      SplitChildDecodes(e, j);
    }
    forall v: nat
      ensures Query(u.mem, u.root, v) == Query(s.mem, s.root, v)
    {
      IndexInRange(v);
      SplitWalks(s.mem, s.root, p, pd, i, a, tbl, w, IndexOf(v));
      SplitMeans(e, v);
    }
  }

  // ---- vmm_walk_to_pt

  lemma {:induction false} WalkAt(mem: Memory, root: nat, x: Index, f: nat)
    requires Indices(x)
    ensures Is(mem, root, P2(x), f) && Present(Word(mem, f, x.l2)) && Large(Word(mem, f, x.l2)) ==>
      Walk(mem, root, x) == Mid(Word(mem, f, x.l2))
    ensures Is(mem, root, P1(x), f) && Present(Word(mem, f, x.l3)) && Large(Word(mem, f, x.l3)) ==>
      Walk(mem, root, x) == Giant(Word(mem, f, x.l3))
    ensures Is(mem, root, P3(x), f) ==>
      Walk(mem, root, x) == if Present(Word(mem, f, x.l1)) then Small(Word(mem, f, x.l1)) else NoLeaf
  {
    hide Present, Large, Phys, Word;
    WalkIsLeafVia(mem, root, x);
  }

  /** Why vmm_walk_to_pt with create could not reach a lowest-level table. */
  ghost predicate Blocked(s: Vm, t: Vm, x: Index) {
    s.root == 0 || t.pool.free == 0 || Walk(t.mem, t.root, x).Giant?
  }

  lemma {:induction false} LastTableQuiet(s: Vm, x: Index, pd: nat)
    requires Sound(s) && Indices(x) && Is(s.mem, s.root, P2(x), pd)
    ensures var (t, r) := LastTable(s, pd, x.l2);
            Quiet(s, t) && (r != None ==> Is(t.mem, t.root, P3(x), r.value)) && (r == None ==> t.pool.free == 0)
  {
    hide Present, Large, Phys, Sound, Quiet, NextTable, SplitEntry, Is, Valid;
    SoundParts(s);
    PrefixPaths(x);
    NextTableQuiet(s, P2(x), pd, x.l2);
    var (s3, pt) := NextTable(s, pd, x.l2);
    if pt == None && Present(Word(s3.mem, pd, x.l2)) && Large(Word(s3.mem, pd, x.l2)) {
      SplitEntryQuiet(s3, P2(x), pd, x.l2);
      var (s4, ok) := SplitEntry(s3, pd, x.l2);
      if ok {
        SplitThenNext(s3, s4, x, pd);
      }
    }
  }

  lemma {:induction false} SplitThenNext(s: Vm, t: Vm, x: Index, pd: nat)
    requires Quiet(s, t) && Present(Word(t.mem, pd, x.l2)) && !Large(Word(t.mem, pd, x.l2))
    ensures Valid(t.pool) && NextTable(t, pd, x.l2) == (t, Some(Phys(Word(t.mem, pd, x.l2))))
  {
    hide Present, Large, Phys;
  }

  lemma {:induction false} RootIs(mem: Memory, root: nat)
    ensures Is(mem, root, Root, root)
  {
  }

  lemma {:induction false} WalkCreateQuiet(s: Vm, x: Index)
    requires Sound(s) && Indices(x)
    ensures var (t, r) := WalkCreate(s, x);
            Quiet(s, t) && (r != None ==> Is(t.mem, t.root, P3(x), r.value)) && (r == None ==> Blocked(s, t, x))
  {
    hide Present, Large, Phys, Sound, NextTable, LastTable, Is, Valid, Grew, SameMeaning, Walk;
    SoundParts(s);
    QuietRefl(s);
    RootIs(s.mem, s.root);
    PrefixPaths(x);
    if s.root != 0 {
      NextTableQuiet(s, Root, s.root, x.l4);
      var (s1, pdpt) := NextTable(s, s.root, x.l4);
      if pdpt != None {
        NextTableQuiet(s1, P1(x), pdpt.value, x.l3);
        WalkAt(s1.mem, s1.root, x, pdpt.value);
        var (s2, pd) := NextTable(s1, pdpt.value, x.l3);
        if pd != None {
          QuietTrans(s, s1, s2);
          LastTableQuiet(s2, x, pd.value);
          QuietTrans(s, s2, LastTable(s2, pd.value, x.l2).0);
        }
      }
    }
  }

  /** Why vmm_walk_to_pt without create could not reach a lowest-level table. */
  ghost predicate Unreached(s: Vm, x: Index) {
    var l := Walk(s.mem, s.root, x);
    s.root == 0 || l == NoLeaf || l.Giant? || (l.Mid? && s.pool.free == 0)
  }

  lemma {:induction false} WalkExistingQuiet(s: Vm, x: Index)
    requires Sound(s) && Indices(x)
    ensures var (t, r) := WalkExisting(s, x);
            Quiet(s, t) && (r != None ==> Is(t.mem, t.root, P3(x), r.value)) && (r == None ==> Unreached(s, x))
  {
    hide Present, Large, Phys, Sound, SplitEntry, Valid, Grew, SameMeaning, NodeAt;
    SoundParts(s);
    QuietRefl(s);
    RootIs(s.mem, s.root);
    PrefixPaths(x);
    Descend(s.mem, s.root, Root, s.root, x.l4);
    var e4 := Word(s.mem, s.root, x.l4);
    if s.root != 0 && Present(e4) && !Large(e4) {
      Descend(s.mem, s.root, P1(x), Phys(e4), x.l3);
      var e3 := Word(s.mem, Phys(e4), x.l3);
      if Present(e3) && !Large(e3) {
        Descend(s.mem, s.root, P2(x), Phys(e3), x.l2);
        if Present(Word(s.mem, Phys(e3), x.l2)) && Large(Word(s.mem, Phys(e3), x.l2)) {
          SplitEntryQuiet(s, P2(x), Phys(e3), x.l2);
        }
      }
    }
  }

  lemma {:induction false} Descend(mem: Memory, root: nat, p: Path, f: nat, i: nat)
    requires Is(mem, root, p, f) && Depth(p) < 3 && i < 512
    ensures Present(Word(mem, f, i)) && !Large(Word(mem, f, i)) ==> Is(mem, root, Down(p, i), Phys(Word(mem, f, i)))
  {
    hide Present, Large, Phys, Word;
  }

  // ---- vmm_map_page and vmm_unmap_page

  /** u and v lie in the same virtual page as far as the walk can tell. */
  predicate SamePage(u: nat, v: nat) {
    IndexOf(u) == IndexOf(v)
  }

  /** The table that holds the 4 KiB entry for v exists. */
  ghost predicate HasTable(s: Vm, v: nat) {
    exists f :: Is(s.mem, s.root, P3(IndexOf(v)), f)
  }

  /** Success maps exactly the page of v to phys with the requested permissions, and v was unmapped before; failure
      leaves the meaning of every address, and happens only for the reasons listed. */
  ghost predicate MapRefines(s: Vm, t: Vm, ok: bool, v: nat, phys: nat, flags: nat) {
    && Sound(t) && Grew(s, t)
    && (ok ==> v % 4096 == 0 && phys % 4096 == 0 && Query(s.mem, s.root, v) == None && HasTable(t, v))
    && (forall u: nat {:trigger Query(t.mem, t.root, u)} ::
          Query(t.mem, t.root, u) == if ok && SamePage(u, v) then Some(Mapping(Phys(phys) + u % 4096, PermOf(flags)))
                                     else Query(s.mem, s.root, u))
    && (!ok ==> v % 4096 != 0 || phys % 4096 != 0 || Query(s.mem, s.root, v) != None || s.root == 0 || t.pool.free == 0)
  }

  lemma {:induction false} MapExact(s: Vm, v: nat, phys: nat, flags: nat)
    requires Sound(s)
    ensures var (t, ok) := MapPage(s, v, phys, flags);
            MapRefines(s, t, ok, v, phys, flags)
  {
    hide Present, Large, Phys, PermOf, Sound, WalkCreate, Valid, Grew, Is, Walk, Put, Word, PageEntry, IndexOf, Meaning;
    SoundParts(s);
    QuietRefl(s);
    var x := IndexOf(v);
    IndexInRange(v);
    if v % 4096 == 0 && phys % 4096 == 0 {
      WalkCreateQuiet(s, x);
      var (t, pt) := WalkCreate(s, x);
      if pt != None {
        WalkAt(t.mem, t.root, x, pt.value);
        assert Query(t.mem, t.root, v) == Query(s.mem, s.root, v);
        LeafIsMapped(t, v);
        if !Present(Word(t.mem, pt.value, x.l1)) {
          MapLeaf(s, t, v, phys, flags, pt.value);
        }
      } else {
        LeafIsMapped(t, v);
        assert Query(t.mem, t.root, v) == Query(s.mem, s.root, v);
      }
    }
  }

  /** A write to a lowest-level table keeps the invariant and changes only the walk it stands for. */
  lemma {:induction false} LeafPut(s: Vm, t: Vm, u: Vm, x: Index, f: nat, w: nat)
    requires Sound(t) && Grew(s, t) && Indices(x) && Is(t.mem, t.root, P3(x), f) && u == t.(mem := Put(t.mem, f, x.l1, w))
    ensures Sound(u) && Grew(s, u) && Is(u.mem, u.root, P3(x), f)
    ensures forall y {:trigger Walk(u.mem, u.root, y)} :: Indices(y) ==>
      Walk(u.mem, u.root, y) == if y == x then (if Present(w) then Small(w) else NoLeaf) else Walk(t.mem, t.root, y)
  {
    hide Present, Large, Phys, NodeAt, Walk, Ready, ClassOf, FreeFrame, Put, Word;
    PrefixPaths(x);
    assert Table(t.mem, f);
    LeafWriteTree(t.mem, t.root, P3(x), f, x.l1, w);
    LeafPutMidAligned(t.mem, t.root, P3(x), f, x.l1, w);
    LeafPutTopSmall(t.mem, t.root, P3(x), f, x.l1, w);
    forall g
      ensures NodeOf(u, g) <==> NodeOf(t, g)
      ensures NewNode(s, u, g) <==> NewNode(s, t, g)
    {
    }
    forall y | Indices(y)
      ensures Walk(u.mem, u.root, y) == if y == x then (if Present(w) then Small(w) else NoLeaf) else Walk(t.mem, t.root, y)
    {
      LeafWriteWalks(t.mem, t.root, P3(x), f, x.l1, w, y);
    }
  }

  lemma {:induction false} LeafPutMidAligned(mem: Memory, root: nat, p: Path, f: nat, i: nat, w: nat)
    requires Tree(mem, root) && MidAligned(mem, root) && Is(mem, root, p, f) && Depth(p) == 3 && i < 512
    ensures MidAligned(Put(mem, f, i, w), root)
  {
    hide NodeAt, Present, Large, Phys, Is;
    var m := Put(mem, f, i, w);
    assert Table(mem, f);
    LeafWriteTree(mem, root, p, f, i, w);
    forall q, g, j: nat | Is(m, root, q, g) && Depth(q) == 2 && j < 512 && Present(Word(m, g, j)) && Large(Word(m, g, j))
      ensures Phys(Word(m, g, j)) % 0x20_0000 == 0
    {
      assert Is(mem, root, q, g);
      assert g != f;
      assert Word(m, g, j) == Word(mem, g, j);
    }
  }

  lemma {:induction false} LeafPutTopSmall(mem: Memory, root: nat, p: Path, f: nat, i: nat, w: nat)
    requires Tree(mem, root) && TopSmall(mem, root) && Is(mem, root, p, f) && Depth(p) == 3
    ensures TopSmall(Put(mem, f, i, w), root)
  {
    hide NodeAt, Present, Large, Phys, Is;
    RootIs(mem, root);
    assert Depth(Root) == 0;
    assert f != root;
    assert forall j: nat :: Word(Put(mem, f, i, w), root, j) == Word(mem, root, j);
  }

  lemma {:induction false} LeafIsMapped(t: Vm, v: nat)
    ensures Query(t.mem, t.root, v) == None <==> Walk(t.mem, t.root, IndexOf(v)) == NoLeaf
  {
  }

  lemma {:induction false} MapLeaf(s: Vm, t: Vm, v: nat, phys: nat, flags: nat, f: nat)
    requires Quiet(s, t) && v % 4096 == 0 && phys % 4096 == 0
    requires Is(t.mem, t.root, P3(IndexOf(v)), f) && !Present(Word(t.mem, f, IndexOf(v).l1))
    ensures MapRefines(s, t.(mem := Put(t.mem, f, IndexOf(v).l1, PageEntry(phys, PermOf(flags)))), true, v, phys, flags)
  {
    hide Present, Large, Phys, PermOf, Is, Walk, Put, PageEntry, IndexOf;
    var x := IndexOf(v);
    var w := PageEntry(phys, PermOf(flags));
    var u := t.(mem := Put(t.mem, f, x.l1, w));
    IndexInRange(v);
    WalkAt(t.mem, t.root, x, f);
    LeafIsMapped(t, v);
    assert Query(t.mem, t.root, v) == Query(s.mem, s.root, v);
    LeafPut(s, t, u, x, f, w);
    EntryDecodes(phys, PermOf(flags));
    forall y: nat
      ensures Query(u.mem, u.root, y) == if SamePage(y, v) then Some(Mapping(Phys(phys) + y % 4096, PermOf(flags)))
                                         else Query(s.mem, s.root, y)
    {
      assert Query(t.mem, t.root, y) == Query(s.mem, s.root, y);
      IndexInRange(y);
      SmallMeaning(w, y);
    }
  }

  /** Success unmaps exactly the page of v, which was mapped; failure leaves the meaning of every address, and happens
      only for the reasons listed. */
  ghost predicate UnmapRefines(s: Vm, t: Vm, ok: bool, v: nat) {
    && Sound(t) && Grew(s, t)
    && (ok ==> v % 4096 == 0 && Query(s.mem, s.root, v) != None)
    && (forall u: nat {:trigger Query(t.mem, t.root, u)} ::
          Query(t.mem, t.root, u) == if ok && SamePage(u, v) then None else Query(s.mem, s.root, u))
    && (!ok ==> v % 4096 != 0 || Unreached(s, IndexOf(v)))
  }

  lemma {:induction false} UnmapExact(s: Vm, v: nat)
    requires Sound(s)
    ensures var (t, ok) := UnmapPage(s, v);
            UnmapRefines(s, t, ok, v)
  {
    hide Present, Large, Phys, PermOf, Sound, WalkExisting, Valid, Grew, Is, Walk, Put, Word, IndexOf, Meaning;
    SoundParts(s);
    QuietRefl(s);
    var x := IndexOf(v);
    IndexInRange(v);
    if v % 4096 == 0 {
      WalkExistingQuiet(s, x);
      var (t, pt) := WalkExisting(s, x);
      assert Query(t.mem, t.root, v) == Query(s.mem, s.root, v);
      LeafIsMapped(s, v);
      LeafIsMapped(t, v);
      if pt != None {
        WalkAt(t.mem, t.root, x, pt.value);
        if Present(Word(t.mem, pt.value, x.l1)) {
          UnmapLeaf(s, t, v, pt.value);
        }
      }
    }
  }

  lemma {:induction false} UnmapLeaf(s: Vm, t: Vm, v: nat, f: nat)
    requires Quiet(s, t) && v % 4096 == 0 && Query(s.mem, s.root, v) != None
    requires Is(t.mem, t.root, P3(IndexOf(v)), f)
    ensures UnmapRefines(s, t.(mem := Put(t.mem, f, IndexOf(v).l1, 0)), true, v)
  {
    assert !Present(0);
    hide Present, Large, Phys, PermOf, Is, Walk, Put, IndexOf;
    var x := IndexOf(v);
    var u := t.(mem := Put(t.mem, f, x.l1, 0));
    IndexInRange(v);
    LeafPut(s, t, u, x, f, 0);
    forall y: nat
      ensures Query(u.mem, u.root, y) == if SamePage(y, v) then None else Query(s.mem, s.root, y)
    {
      assert Query(t.mem, t.root, y) == Query(s.mem, s.root, y);
      IndexInRange(y);
    }
  }
}
