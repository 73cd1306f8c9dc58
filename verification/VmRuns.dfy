/** Frames and page tables over whole runs: tables, client frames, heap frames and free frames never overlap. */
module VmRuns {
  import opened Counting
  import opened Options
  import opened Arith
  import opened BuddyPool
  import opened BuddyOps
  import opened PoolApi
  import opened PageWords
  import opened PageTables
  import opened VmOps
  import opened VmProofs
  import opened KernelHeap

  /** The virtual-memory state with the frames given to clients, the frames behind the kernel heap, and the heap
      ranges handed out, oldest first. */
  datatype Machine = Machine(vm: Vm, owned: set<nat>, heapFrames: set<nat>, ranges: seq<(nat, nat)>)

  datatype Op =
    | ClientAlloc
    | ClientFree(f: nat)
    | ClientWrite(f: nat, words: seq<nat>)
    | Map(v: nat, phys: nat, flags: nat)
    | Unmap(v: nat)
    | HeapAlloc(count: nat, flags: nat)
    | Reserve(base: nat, size: nat)

  /** Clients free and write only frames they were given. */
  predicate Enabled(m: Machine, op: Op) {
    match op
    case ClientFree(f) => f in m.owned
    case ClientWrite(f, _) => f in m.owned
    case Reserve(base, size) => base < 0x1_0000_0000_0000_0000 && size < 0x1_0000_0000_0000_0000
    case _ => true
  }

  ghost function Step(m: Machine, op: Op): Machine
    requires Ready(m.vm.pool)
    requires Enabled(m, op)
  {
    match op
    case ClientAlloc =>
      var (t, a) := AllocFrame(m.vm);
      m.(vm := t, owned := if a == 0 then m.owned else m.owned + {a})
    case ClientFree(f) => m.(vm := Release(m.vm, f), owned := m.owned - {f})
    case ClientWrite(f, words) => m.(vm := m.vm.(mem := m.vm.mem[f := words]))
    case Map(v, phys, flags) => m.(vm := MapPage(m.vm, v, phys, flags).0)
    case Unmap(v) => m.(vm := UnmapPage(m.vm, v).0)
    case HeapAlloc(count, flags) =>
      var (t, r) := AllocKernelPages(m.vm, count, flags);
      if r == None then m.(vm := t)
      else m.(vm := t, heapFrames := m.heapFrames + Elements(HeapFrames(m.vm, count, flags)),
              ranges := m.ranges + [(r.value, r.value + count * 4096)])
    case Reserve(base, size) => m.(vm := m.vm.(pool := ReserveRange(m.vm.pool, base, size)))
  }

  /** f is a pool frame that counts as allocated. */
  ghost predicate TakenFrame(pool: Pool, f: nat) {
    exists p: nat :: p < pool.total && f == AddrOf(pool, p) && ClassOf(pool, p) == Allocated
  }

  /** The frames in fs are taken and none of them is a table. */
  ghost predicate Apart(s: Vm, fs: set<nat>) {
    forall f {:trigger f in fs} :: f in fs ==> TakenFrame(s.pool, f) && !NodeOf(s, f)
  }

  /** The heap ranges lie in the heap window below the cursor, in order and without overlap. */
  ghost predicate Stacked(ranges: seq<(nat, nat)>, cursor: nat) {
    && (forall i :: 0 <= i < |ranges| ==> 0x4420_0000 <= ranges[i].0 < ranges[i].1 <= cursor)
    && (forall i, j :: 0 <= i < j < |ranges| ==> ranges[i].1 <= ranges[j].0)
  }

  ghost predicate Inv(m: Machine) {
    && Sound(m.vm)
    && Apart(m.vm, m.owned) && Apart(m.vm, m.heapFrames) && m.owned !! m.heapFrames
    && Stacked(m.ranges, m.vm.heapNext)
  }

  /** A frame is at most one of: free, a table, a client's, behind the heap. */
  lemma {:induction false} OneUse(m: Machine, f: nat)
    requires Inv(m)
    ensures NodeOf(m.vm, f) ==> !FreeFrame(m.vm.pool, f) && f !in m.owned && f !in m.heapFrames
    ensures FreeFrame(m.vm.pool, f) ==> f !in m.owned && f !in m.heapFrames
    ensures f in m.owned ==> f !in m.heapFrames
  {
    if FreeFrame(m.vm.pool, f) {
      FreeNotTaken(m.vm.pool, f);
    }
  }

  lemma {:induction false} FreeNotTaken(pool: Pool, f: nat)
    requires FreeFrame(pool, f)
    ensures !TakenFrame(pool, f)
  {
    hide ClassOf;
    var p: nat :| p < pool.total && f == AddrOf(pool, p) && ClassOf(pool, p) == Free;
    forall q: nat | q < pool.total && f == AddrOf(pool, q)
      ensures ClassOf(pool, q) != Allocated
    {
      assert p == q;
    }
  }

  /** Frames apart from the tables stay so when tables grow and other frames are taken. */
  lemma {:induction false} HeldApart(s: Vm, t: Vm, held: set<nat>, fs: set<nat>)
    requires Sound(s) && Held(s, t, held) && Apart(s, fs)
    ensures Apart(t, fs) && fs !! held && Apart(t, held)
  {
    hide ClassOf, IsNode, Tree, MidAligned, TopSmall, Ready;
    forall f | f in fs
      ensures TakenFrame(t.pool, f) && !NodeOf(t, f) && f !in held
    {
      var p: nat :| p < s.pool.total && f == AddrOf(s.pool, p) && ClassOf(s.pool, p) == Allocated;
      if FreeFrame(s.pool, f) {
        FreeNotTaken(s.pool, f);
        assert false;
      }
      assert !NewNode(s, t, f);
      assert ClassOf(t.pool, p) == Allocated && f == AddrOf(t.pool, p);
    }
    forall f | f in held
      ensures TakenFrame(t.pool, f) && !NodeOf(t, f)
    {
      var p: nat :| p < s.pool.total && f == AddrOf(s.pool, p) && ClassOf(s.pool, p) == Free;
      assert ClassOf(t.pool, p) == Allocated && f == AddrOf(t.pool, p);
    }
  }

  /** Every step that only grows tables and takes frames keeps the invariant. */
  lemma {:induction false} HeldInv(m: Machine, t: Vm, held: set<nat>)
    requires Inv(m) && Sound(t) && Held(m.vm, t, held)
    ensures Inv(m.(vm := t)) && Apart(t, held) && held !! m.owned && held !! m.heapFrames && t.heapNext == m.vm.heapNext
  {
    hide Sound, Apart;
    HeldApart(m.vm, t, held, m.owned);
    HeldApart(m.vm, t, held, m.heapFrames);
  }

  // ---- steps that change only the pool or only client memory

  /** A pool change that frees no table frame keeps the invariant of the tables. */
  lemma {:induction false} PoolSound(s: Vm, t: Vm)
    requires Sound(s) && t == s.(pool := t.pool) && Ready(t.pool) && SamePages(s.pool, t.pool)
    requires forall f {:trigger NodeOf(t, f)} :: NodeOf(s, f) ==> !FreeFrame(t.pool, f)
    ensures Sound(t)
  {
    hide Tree, MidAligned, TopSmall, Ready, ClassOf;
    forall f
      ensures NodeOf(t, f) <==> NodeOf(s, f)
    {
    }
  }

  lemma {:induction false} FreeOwned(m: Machine, f: nat)
    requires Inv(m) && f in m.owned
    ensures Valid(m.vm.pool) && Inv(m.(vm := Release(m.vm, f), owned := m.owned - {f}))
  {
    hide Sound, FreePage, IsNode, Valid, ClassOf, Ready, TopSmall;
    SoundParts(m.vm);
    FreePageExact(m.vm.pool, f);
    var t := Release(m.vm, f);
    forall g
      ensures NodeOf(t, g) <==> NodeOf(m.vm, g)
      ensures NodeOf(m.vm, g) ==> !FreeFrame(t.pool, g)
      ensures TakenFrame(m.vm.pool, g) && g != f ==> TakenFrame(t.pool, g)
    {
      if FreeFrame(t.pool, g) && g != f {
        WasFree(m.vm.pool, t.pool, f, g);
      }
      if NodeOf(m.vm, g) {
        NodeNotFree(m.vm, g);
      }
      if TakenFrame(m.vm.pool, g) && g != f {
        var p: nat :| p < m.vm.pool.total && g == AddrOf(m.vm.pool, p) && ClassOf(m.vm.pool, p) == Allocated;
        assert g == AddrOf(t.pool, p) && ClassOf(t.pool, p) == Allocated;
      }
    }
    PoolSound(m.vm, t);
  }

  lemma {:induction false} NodeNotFree(s: Vm, f: nat)
    requires Sound(s) && NodeOf(s, f)
    ensures !FreeFrame(s.pool, f)
  {
  }

  lemma {:induction false} WasFree(a: Pool, b: Pool, f: nat, g: nat)
    requires SamePages(a, b) && g != f && FreeFrame(b, g)
    requires forall p: nat {:trigger ClassOf(b, p)} :: p < a.total ==>
      ClassOf(b, p) == if f == AddrOf(a, p) && ClassOf(a, p) == Allocated then Free else ClassOf(a, p)
    ensures FreeFrame(a, g)
  {
    hide ClassOf;
    var p: nat :| p < b.total && g == AddrOf(b, p) && ClassOf(b, p) == Free;
    assert g == AddrOf(a, p) && ClassOf(a, p) == Free;
  }

  lemma {:induction false} ReserveInv(m: Machine, base: nat, size: nat)
    requires Inv(m) && base < 0x1_0000_0000_0000_0000 && size < 0x1_0000_0000_0000_0000
    ensures Valid(m.vm.pool) && Inv(m.(vm := m.vm.(pool := ReserveRange(m.vm.pool, base, size))))
  {
    hide Sound, ReserveRange, IsNode, Valid, ClassOf, Ready, TopSmall, Overlaps;
    SoundParts(m.vm);
    ReserveRangeExact(m.vm.pool, base, size);
    var t := m.vm.(pool := ReserveRange(m.vm.pool, base, size));
    forall g
      ensures NodeOf(t, g) <==> NodeOf(m.vm, g)
      ensures NodeOf(m.vm, g) ==> !FreeFrame(t.pool, g)
      ensures TakenFrame(m.vm.pool, g) ==> TakenFrame(t.pool, g)
    {
      if NodeOf(m.vm, g) {
        NodeNotFree(m.vm, g);
        forall p: nat | p < t.pool.total && g == AddrOf(t.pool, p)
          ensures ClassOf(t.pool, p) != Free
        {
          assert g == AddrOf(m.vm.pool, p);
        }
      }
      if TakenFrame(m.vm.pool, g) {
        var p: nat :| p < m.vm.pool.total && g == AddrOf(m.vm.pool, p) && ClassOf(m.vm.pool, p) == Allocated;
        assert g == AddrOf(t.pool, p) && ClassOf(t.pool, p) == Allocated;
      }
    }
    PoolSound(m.vm, t);
  }

  /** Writing a frame that is no table changes no walk and keeps the invariant. */
  lemma {:induction false} WriteSound(s: Vm, g: nat, words: seq<nat>)
    requires Sound(s) && !NodeOf(s, g)
    ensures var t := s.(mem := s.mem[g := words]);
            Sound(t) && SameMeaning(s, t) && (forall f :: NodeOf(t, f) <==> NodeOf(s, f))
  {
    hide NodeAt, Present, Large, Phys, Ready, ClassOf, FreeFrame, Walk;
    var t := s.(mem := s.mem[g := words]);
    forall q, f
      ensures Is(t.mem, t.root, q, f) <==> Is(s.mem, s.root, q, f)
      ensures Is(s.mem, s.root, q, f) ==> f != g
    {
      if IsPath(q) {
        WriteOutside(s.mem, s.root, g, words, q);
      }
    }
    RootIs(s.mem, s.root);
    assert s.root != g;
    assert forall f :: NodeOf(t, f) <==> NodeOf(s, f);
    forall f, i: nat | f != g
      ensures Word(t.mem, f, i) == Word(s.mem, f, i)
    {
    }
    forall x | Indices(x)
      ensures Walk(t.mem, t.root, x) == Walk(s.mem, s.root, x)
    {
      WriteOutsideWalks(s.mem, s.root, g, words, x);
    }
    SameWalksSameMeaning(s, t);
  }

  lemma {:induction false} WriteOutsideWalks(mem: Memory, root: nat, g: nat, t: seq<nat>, x: Index)
    requires !IsNode(mem, root, g) && Indices(x)
    ensures Walk(mem[g := t], root, x) == Walk(mem, root, x)
  {
    hide NodeAt, Present, Large, Phys;
    PrefixPaths(x);
    WalkIsLeafVia(mem, root, x);
    WalkIsLeafVia(mem[g := t], root, x);
    WriteOutside(mem, root, g, t, P1(x));
    WriteOutside(mem, root, g, t, P2(x));
    WriteOutside(mem, root, g, t, P3(x));
    NeverNode(mem, root, g, x);
  }

  // ---- every step

  lemma {:induction false} HeapInv(m: Machine, count: nat, flags: nat)
    requires Inv(m)
    ensures Ready(m.vm.pool) && Inv(Step(m, HeapAlloc(count, flags)))
  {
    hide Sound, AllocKernelPages, HeapFrames, Ready, Valid, TopSmall, PermOf, Apart, Held, Pending, Quiet;
    SoundParts(m.vm);
    HeapAllOrNothing(m.vm, count, flags);
    var (t, r) := AllocKernelPages(m.vm, count, flags);
    var fs := HeapFrames(m.vm, count, flags);
    if r == None {
      QuietHeld(m.vm, t);
      HeldInv(m, t, {});
    } else {
      var u := t.(heapNext := m.vm.heapNext);
      PendingHeld(m.vm, u, r.value, fs, PermOf(flags).(writable := true));
      HeldInv(m, u, Elements(fs));
      MoveApart(u, t, m.owned);
      MoveApart(u, t, m.heapFrames);
      MoveApart(u, t, Elements(fs));
      JoinApart(t, m.heapFrames, Elements(fs));
    }
  }

  lemma {:induction false} QuietHeld(s: Vm, t: Vm)
    requires Quiet(s, t)
    ensures Sound(t) && Held(s, t, {})
  {
    hide Sound, Held;
  }

  lemma {:induction false} PendingHeld(s: Vm, t: Vm, cur: nat, fs: seq<nat>, perm: Perm)
    requires Pending(s, t, cur, fs, perm)
    ensures Sound(t) && Held(s, t, Elements(fs))
  {
    hide Sound, Held;
  }

  lemma {:induction false} MoveApart(s: Vm, t: Vm, fs: set<nat>)
    requires Apart(s, fs) && t.mem == s.mem && t.root == s.root && t.pool == s.pool
    ensures Apart(t, fs)
  {
    hide TakenFrame, IsNode;
  }

  lemma {:induction false} JoinApart(s: Vm, a: set<nat>, b: set<nat>)
    requires Apart(s, a) && Apart(s, b)
    ensures Apart(s, a + b)
  {
    hide TakenFrame, NodeOf;
  }

  lemma {:induction false} ClientAllocInv(m: Machine)
    requires Inv(m)
    ensures Ready(m.vm.pool) && Inv(Step(m, ClientAlloc))
  {
    hide Sound, AllocFrame, Ready, Valid, TopSmall, Apart, Held;
    SoundParts(m.vm);
    AllocFrameTakes(m.vm);
    var (t, a) := AllocFrame(m.vm);
    if m.vm.pool.free != 0 {
      TookSound(m.vm, t, a);
      HeldInv(m, t, {a});
      JoinApart(t, m.owned, {a});
    }
  }

  lemma {:induction false} ClientWriteInv(m: Machine, f: nat, words: seq<nat>)
    requires Inv(m) && f in m.owned
    ensures Ready(m.vm.pool) && Inv(Step(m, ClientWrite(f, words)))
    ensures SameMeaning(m.vm, Step(m, ClientWrite(f, words)).vm)
  {
    hide Sound, Ready, TopSmall, Valid, TakenFrame, IsNode, Query;
    SoundParts(m.vm);
    WriteSound(m.vm, f, words);
  }

  lemma {:induction false} MapInv(m: Machine, v: nat, phys: nat, flags: nat)
    requires Inv(m)
    ensures Ready(m.vm.pool) && Inv(Step(m, Map(v, phys, flags))) && Inv(Step(m, Unmap(v)))
  {
    hide Sound, MapPage, UnmapPage, Ready, Valid, TopSmall, Apart, Held, Query, PermOf, Unreached;
    SoundParts(m.vm);
    MapExact(m.vm, v, phys, flags);
    HeldInv(m, MapPage(m.vm, v, phys, flags).0, {});
    UnmapExact(m.vm, v);
    HeldInv(m, UnmapPage(m.vm, v).0, {});
  }

  lemma {:induction false} StepInv(m: Machine, op: Op)
    requires Inv(m) && Enabled(m, op)
    ensures Ready(m.vm.pool) && Inv(Step(m, op))
  {
    hide Inv, Sound, Ready, Valid, TopSmall, Release, ReserveRange, AllocKernelPages, MapPage, UnmapPage, AllocFrame, HeapFrames;
    InvReady(m);
    match op
    case ClientAlloc => ClientAllocInv(m);
    case ClientFree(f) => FreeOwned(m, f);
    case ClientWrite(f, words) => ClientWriteInv(m, f, words);
    case Map(v, phys, flags) => MapInv(m, v, phys, flags);
    case Unmap(v) => MapInv(m, v, 0, 0);
    case HeapAlloc(count, flags) => HeapInv(m, count, flags);
    case Reserve(base, size) => ReserveInv(m, base, size);
  }

  lemma {:induction false} InvReady(m: Machine)
    requires Inv(m)
    ensures Ready(m.vm.pool)
  {
    hide Sound, Ready, Valid, TopSmall;
    SoundParts(m.vm);
  }

  /** Each state follows from the one before. A step is defined on ready pools; that every state has one is proved. */
  ghost predicate Run(ms: seq<Machine>, ops: seq<Op>) {
    && |ms| == |ops| + 1
    && (forall i :: 0 <= i < |ops| ==> Enabled(ms[i], ops[i]))
    && (forall i :: 0 <= i < |ops| ==> (Ready(ms[i].vm.pool) ==> ms[i + 1] == Step(ms[i], ops[i])))
  }

  /** In every state of every run that starts well: the tables are a tree, no table is free, a client's or behind the
      heap, and the heap ranges handed out lie in the window without overlap. */
  lemma {:induction false} RunInv(ms: seq<Machine>, ops: seq<Op>, k: nat)
    requires Run(ms, ops) && Inv(ms[0]) && k < |ms|
    ensures Inv(ms[k])
  {
    hide Inv, Step, Ready;
    if k > 0 {
      RunInv(ms, ops, k - 1);
      InvReady(ms[k - 1]);
      assert ms[k - 1 + 1] == Step(ms[k - 1], ops[k - 1]);
      StepInv(ms[k - 1], ops[k - 1]);
    }
  }

  // ---- what the pool pays

  ghost function NewTables(s: Vm, t: Vm): set<nat> {
    set f | f in t.mem && NewNode(s, t, f)
  }

  /** The pool pays one frame for each new table and each frame held, and nothing else. */
  lemma {:induction false} TablesCost(s: Vm, t: Vm, held: set<nat>)
    requires Sound(s) && Sound(t) && Held(s, t, held)
    ensures s.pool.free == t.pool.free + |NewTables(s, t)| + |held|
  {
    hide Sound, Ready, TopSmall, ClassOf, IsNode, Valid;
    SoundParts(s);
    SoundParts(t);
    Conservation(s.pool);
    Conservation(t.pool);
    var gone := set p | 0 <= p < s.pool.total && (NewNode(s, t, AddrOf(s.pool, p)) || AddrOf(s.pool, p) in held);
    GoneFrames(s, t, held, gone);
    CountAddrs(s.pool, gone);
    GonePages(s, t, held, gone);
    assert NewTables(s, t) !! held;
  }

  lemma {:induction false} GoneFrames(s: Vm, t: Vm, held: set<nat>, gone: set<nat>)
    requires Sound(t) && Held(s, t, held)
    requires gone == set p | 0 <= p < s.pool.total && (NewNode(s, t, AddrOf(s.pool, p)) || AddrOf(s.pool, p) in held)
    ensures (set p | p in gone :: AddrOf(s.pool, p)) == NewTables(s, t) + held
  {
    hide Ready, TopSmall, MidAligned, ClassOf;
    forall f
      ensures f in (set p | p in gone :: AddrOf(s.pool, p)) <==> f in NewTables(s, t) + held
    {
      if NewNode(s, t, f) {
        var q :| Is(t.mem, t.root, q, f);
        assert Table(t.mem, f);
      }
      if NewNode(s, t, f) || f in held {
        assert FreeFrame(s.pool, f);
        var p: nat :| p < s.pool.total && f == AddrOf(s.pool, p);
        assert p in gone;
      }
    }
  }

  lemma {:induction false} GonePages(s: Vm, t: Vm, held: set<nat>, gone: set<nat>)
    requires Held(s, t, held)
    requires gone == set p | 0 <= p < s.pool.total && (NewNode(s, t, AddrOf(s.pool, p)) || AddrOf(s.pool, p) in held)
    ensures |Pages(s.pool, Free)| == |Pages(t.pool, Free)| + |gone|
  {
    hide ClassOf, IsNode;
    forall p | p in gone
      ensures ClassOf(s.pool, p) == Free
    {
      var f := AddrOf(s.pool, p);
      assert FreeFrame(s.pool, f);
      var q: nat :| q < s.pool.total && f == AddrOf(s.pool, q) && ClassOf(s.pool, q) == Free;
      assert p == q;
    }
    forall p | 0 <= p < s.pool.total
      ensures p in Pages(s.pool, Free) <==> p in Pages(t.pool, Free) || p in gone
      ensures p in gone ==> p !in Pages(t.pool, Free)
    {
    }
    assert Pages(s.pool, Free) == Pages(t.pool, Free) + gone;
  }

  // ---- the boot state

  /** The tables set up before the kernel runs: one level-4, one level-3 and one page directory at a, a+4096 and
      a+8192, mapping the first GiB with 2 MiB entries. */
  function BootMemory(a: nat): Memory {
    map[a := [TableEntry(a + 4096, false)] + seq(511, _ => 0),
        a + 4096 := [TableEntry(a + 8192, false)] + seq(511, _ => 0),
        a + 8192 := seq(512, i => i * 0x20_0000 + 0x83)]
  }

  lemma {:induction false} BootEntry(i: nat)
    requires i < 512
    ensures var e := i * 0x20_0000 + 0x83;
            Present(e) && Large(e) && Phys(e) % 0x20_0000 == 0
  {
    var e := i * 0x20_0000 + 0x83;
    Quotient(2, i * 0x10_0000 + 0x41, 1, e);
    Quotient(128, i * 0x4000 + 1, 3, e);
    Quotient(2, i * 0x2000, 1, i * 0x4000 + 1);
    Quotient(4096, i * 512, 0x83, e);
    Quotient(0x20_0000, i, 0, i * 512 * 4096);
  }

  lemma {:induction false} BootWords(a: nat, i: nat)
    requires a % 4096 == 0 && a + 12288 <= 0x10_0000_0000_0000 && i < 512
    ensures var m := BootMemory(a);
            && Word(m, a + 8192, i) == i * 0x20_0000 + 0x83
            && (i > 0 ==> !Present(Word(m, a, i)) && !Present(Word(m, a + 4096, i)))
            && Present(Word(m, a, 0)) && !Large(Word(m, a, 0)) && Phys(Word(m, a, 0)) == a + 4096
            && Present(Word(m, a + 4096, 0)) && !Large(Word(m, a + 4096, 0)) && Phys(Word(m, a + 4096, 0)) == a + 8192
  {
    hide TableEntry, Present, Large, Phys;
    NullEntry();
    TableEntryDecodes(a + 4096, false);
    TableEntryDecodes(a + 8192, false);
    PhysAligned(a + 4096);
    PhysAligned(a + 8192);
  }

  lemma {:induction false} NullEntry()
    ensures !Present(0)
  {
  }

  function BootPath(a: nat, p: Path): Option<nat> {
    if p == Root then Some(a)
    else if p == Down(Root, 0) then Some(a + 4096)
    else if p == Down(Down(Root, 0), 0) then Some(a + 8192)
    else None
  }

  lemma {:induction false} BootNodes(a: nat, p: Path)
    requires a % 4096 == 0 && a + 12288 <= 0x10_0000_0000_0000 && IsPath(p)
    ensures NodeAt(BootMemory(a), a, p) == BootPath(a, p)
  {
    hide Present, Large, Phys, BootMemory, Word;
    match p
    case Root =>
    case Down(q, i) =>
      BootNodes(a, q);
      BootWords(a, i);
      BootEntry(i);
  }

  /** With the boot tables inside a reserved range, the machine starts in a sound state. */
  lemma {:induction false} BootSound(a: nat, base: nat, size: nat, kernel: nat, kernelSize: nat)
    requires base < 0x1_0000_0000_0000_0000 && size < 0x1_0000_0000_0000_0000
    requires kernel < 0x1_0000_0000_0000_0000 && kernelSize < 0x1_0000_0000_0000_0000
    requires InitBase(base) + InitTotal(base, size) * 4096 <= 0x10_0000_0000_0000
    requires a % 4096 == 0 && a + 12288 <= 0x10_0000_0000_0000 && kernel <= a && a + 12288 <= kernel + kernelSize
    ensures Ready(Init(base, size))
    ensures var pool := ReserveRange(Init(base, size), kernel, kernelSize);
            Inv(Machine(Vm(BootMemory(a), a, pool, HEAP_BASE), {}, {}, []))
  {
    hide Init, ReserveRange, Ready, ClassOf, NodeAt, BootMemory, Present, Large, Phys, Word;
    InitReady(base, size);
    ReserveRangeExact(Init(base, size), kernel, kernelSize);
    var s := Vm(BootMemory(a), a, ReserveRange(Init(base, size), kernel, kernelSize), HEAP_BASE);
    BootTables(a);
    forall f | NodeOf(s, f)
      ensures !FreeFrame(s.pool, f)
    {
      var p :| Is(s.mem, s.root, p, f);
      BootNodes(a, p);
      forall q: nat | q < s.pool.total && f == AddrOf(s.pool, q)
        ensures ClassOf(s.pool, q) != Free
      {
        assert Overlaps(Init(base, size), q, kernel, kernelSize);
      }
    }
  }

  lemma {:induction false} BootTables(a: nat)
    requires a % 4096 == 0 && a + 12288 <= 0x10_0000_0000_0000
    ensures Tree(BootMemory(a), a) && MidAligned(BootMemory(a), a) && TopSmall(BootMemory(a), a)
  {
    hide NodeAt, Present, Large, Phys, Word, TableEntry;
    var m := BootMemory(a);
    forall p: Path, f: nat
      ensures Is(m, a, p, f) <==> IsPath(p) && BootPath(a, p) == Some(f)
    {
      if IsPath(p) {
        BootNodes(a, p);
      }
    }
    var pd := a + 8192;
    forall i: nat | i < 512
      ensures Present(Word(m, a, i)) ==> !Large(Word(m, a, i))
      ensures Phys(Word(m, pd, i)) % 0x20_0000 == 0
    {
      BootWords(a, i);
      BootEntry(i);
    }
    assert Depth(Root) == 0 && Depth(Down(Root, 0)) == 1;
    assert forall p: Path, f: nat :: Is(m, a, p, f) && Depth(p) == 2 ==> f == pd;
  }

  /** The boot tables map the first GiB to itself, writable for the kernel alone, and nothing else. */
  lemma {:induction false} BootIdentity(a: nat, v: nat)
    requires a % 4096 == 0 && a + 12288 <= 0x10_0000_0000_0000 && v < 0x1_0000_0000_0000
    ensures Query(BootMemory(a), a, v)
            == if v < 0x4000_0000 then Some(Mapping(v, Perm(true, false, false))) else None
  {
    hide BootMemory, Word, Present, Large, Phys, Or, PermOf;
    var (x, i) := (IndexOf(v), v / 0x20_0000 % 512);
    BootWords(a, x.l4);
    BootWords(a, x.l3);
    BootWords(a, i);
    if v < 0x4000_0000 {
      BootEntryReads(i, v);
      assert x.l4 == 0 && x.l3 == 0;
    }
  }

  lemma {:induction false} BootEntryReads(i: nat, v: nat)
    requires v < 0x4000_0000 && i == v / 0x20_0000
    ensures i % 512 == i
    ensures var e := i * 0x20_0000 + 0x83;
            Present(e) && Large(e) && Or(Phys(e), v % 0x20_0000) == v && PermOf(e) == Perm(true, false, false)
  {
    hide Or;
    var e := i * 0x20_0000 + 0x83;
    BootEntry(i);
    Quotient(2, i * 0x10_0000 + 0x41, 1, e);
    Quotient(2, i * 0x8_0000 + 0x20, 1, i * 0x10_0000 + 0x41);
    Quotient(4, i * 0x8_0000 + 0x20, 3, e);
    Quotient(2, i * 0x4_0000 + 0x10, 0, i * 0x8_0000 + 0x20);
    Quotient(4096, i * 512, 0x83, e);
    MidMeaning(e, v);
    Quotient(0x8000_0000_0000_0000, 0, e, e);
  }

  /** The heap window lies above everything the boot tables map. */
  lemma {:induction false} HeapAboveBoot(a: nat, v: nat)
    requires a % 4096 == 0 && a + 12288 <= 0x10_0000_0000_0000 && 0x4420_0000 <= v < 0x5420_0000
    ensures HeapWindow(0) == Some((0x4420_0000, 0x5420_0000)) && Query(BootMemory(a), a, v) == None
  {
    hide Query, BootMemory;
    BootIdentity(a, v);
  }
}
