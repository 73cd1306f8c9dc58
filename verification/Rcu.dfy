/** Read-copy-update (kernel/lib/rcu.c) with the readers, updater and reclaimer of kernel/init/kmain.c: any number of
    readers, every interleaving of their atomic operations and locked sections. */
module Rcu {
  import opened Options
  import opened Counting

  /** One of the 32 pool nodes. */
  type Slot = n: nat | n < 32
  type Flags = s: seq<bool> | |s| == 32 witness seq(32, _ => false)
  type Gens = s: seq<nat> | |s| == 32 witness seq(32, _ => 0)
  type Links = s: seq<Option<Slot>> | |s| == 32 witness seq(32, _ => None)

  datatype ReaderPc =
    | Outside
    | Entered                       // rcu_read_lock returned
    | Holding(node: Option<Slot>)   // rcu_dereference returned node
    | Leaving(node: Option<Slot>)   // rcu_read_unlock loaded a non-zero count, has not subtracted yet

  /** A reader and the newest generation it has looked at. */
  datatype Reader = Reader(pc: ReaderPc, seen: nat)

  datatype UpdaterPc =
    | Waiting
    | Got(node: Slot)
    | Wrote(node: Slot)
    | Ready(node: Slot, prev: Option<Slot>)
    | Published(prev: Option<Slot>)
    | Calling(retired: Slot)        // entered call_rcu
    | Queueing(retired: Slot)       // next cleared, about to take the lock

  datatype ReclaimerPc = Polling | Popped(node: Slot) | Synced(node: Slot) | Freed

  datatype Sys = Sys(
    readers: nat, reader: map<nat, Reader>, updater: UpdaterPc, reclaimer: ReclaimerPc,
    current: Option<Slot>, inUse: Flags, gen: Gens, published: nat, dropped: nat,
    next: Links, head: Option<Slot>, tail: Option<Slot>, queued: nat, completed: nat,
    queue: seq<Slot>)               // history: the callbacks the list holds, oldest first

  /** 64-bit increment and decrement. */
  function Inc(n: nat): nat { (n + 1) % 0x1_0000_0000_0000_0000 }
  function Dec(n: nat): nat { (n + 0xFFFF_FFFF_FFFF_FFFF) % 0x1_0000_0000_0000_0000 }

  function At(s: Sys, i: nat, pc: ReaderPc): Sys
    requires i in s.reader
  {
    s.(reader := s.reader[i := s.reader[i].(pc := pc)])
  }

  predicate ReaderStep(s: Sys, t: Sys, i: nat) {
    i in s.reader &&
    match s.reader[i].pc
    case Outside => t == At(s, i, Entered).(readers := Inc(s.readers))
    case Entered => t == At(s, i, Holding(s.current))
    case Holding(n) =>
      || (n.Some? && t == s.(reader := s.reader[i := Reader(Holding(n), s.gen[n.value])]))
      || t == At(s, i, if s.readers == 0 then Outside else Leaving(n))
    case Leaving(n) => t == At(s, i, Outside).(readers := Dec(s.readers))
  }

  /** demo_rcu_alloc_node takes the first unused node. */
  predicate FirstFree(s: Sys, n: Slot) {
    !s.inUse[n] && forall m: Slot :: m < n ==> s.inUse[m]
  }

  ghost predicate AllocStep(s: Sys, t: Sys) {
    || ((forall n: Slot :: s.inUse[n]) && t == s.(dropped := s.dropped + 1))
    || exists n: Slot :: FirstFree(s, n) && t == s.(inUse := s.inUse[n := true], updater := Got(n))
  }

  /** The locked section of call_rcu. */
  function Append(s: Sys, o: Slot): Sys {
    var u := s.(updater := Waiting, queued := s.queued + 1, tail := Some(o), queue := s.queue + [o]);
    if s.head.None? || s.tail.None? then u.(head := Some(o)) else u.(next := s.next[s.tail.value := Some(o)])
  }

  ghost predicate UpdaterStep(s: Sys, t: Sys) {
    match s.updater
    case Waiting => AllocStep(s, t)
    case Got(n) => t == s.(gen := s.gen[n := s.published + s.dropped + 1], updater := Wrote(n))
    case Wrote(n) => t == s.(updater := Ready(n, s.current))
    case Ready(n, prev) => t == s.(current := Some(n), updater := Published(prev))
    case Published(prev) =>
      t == s.(published := s.published + 1, updater := if prev.None? then Waiting else Calling(prev.value))
    case Calling(o) => t == s.(next := s.next[o := None], updater := Queueing(o))
    case Queueing(o) => t == Append(s, o)
  }

  /** The first locked section of rcu_process_callbacks. */
  function Pop(s: Sys): Sys
    requires s.head.Some?
  {
    var n := s.head.value;
    s.(head := s.next[n], tail := if s.next[n].None? then None else s.tail, next := s.next[n := None],
       queue := if s.queue == [] then [] else s.queue[1..], reclaimer := Popped(n))
  }

  predicate ReclaimerStep(s: Sys, t: Sys) {
    match s.reclaimer
    case Polling => t == if s.head.None? then s else Pop(s)
    case Popped(n) => t == if s.readers != 0 then s else s.(reclaimer := Synced(n))
    case Synced(n) => t == s.(inUse := s.inUse[n := false], reclaimer := Freed)
    case Freed => t == s.(completed := s.completed + 1, reclaimer := Polling)
  }

  datatype Actor = ReaderAct(i: nat) | UpdaterAct | ReclaimerAct

  ghost predicate Step(s: Sys, t: Sys, a: Actor) {
    match a
    case ReaderAct(i) => ReaderStep(s, t, i)
    case UpdaterAct => UpdaterStep(s, t)
    case ReclaimerAct => ReclaimerStep(s, t)
  }

  /** kernel/init/kmain.c:598-605: node 0 published with generation 1, every reader outside. */
  predicate Init(s: Sys) {
    && s.readers == 0 && |s.reader| < 0x1_0000_0000_0000_0000
    && (forall i :: i in s.reader ==> s.reader[i] == Reader(Outside, 0))
    && s.updater == Waiting && s.reclaimer == Polling
    && s.current == Some(0) && s.published == 1 && s.dropped == 0 && s.gen[0] == 1
    && (forall n: Slot :: s.inUse[n] <==> n == 0)
    && s.head == None && s.tail == None && s.queue == [] && s.queued == 0 && s.completed == 0
  }

  ghost predicate Next(s: Sys, t: Sys) {
    exists a :: Step(s, t, a)
  }

  ghost predicate Follows(ss: seq<Sys>, k: nat)
    requires k + 1 < |ss|
  {
    Next(ss[k], ss[k + 1])
  }

  ghost predicate Run(ss: seq<Sys>) {
    && |ss| > 0 && Init(ss[0])
    && forall k {:trigger Follows(ss, k)} :: 0 <= k < |ss| - 1 ==> Follows(ss, k)
  }

  // ---- The invariant ----

  function Inside(s: Sys): set<nat> {
    set i | i in s.reader && s.reader[i].pc != Outside
  }

  /** The reader is in a read section whose dereference returned node n. */
  predicate Holds(s: Sys, i: nat, n: Slot) {
    && i in s.reader
    && (s.reader[i].pc == Holding(Some(n)) || s.reader[i].pc == Leaving(Some(n)))
  }

  predicate IsPrivate(u: UpdaterPc, n: Slot) {
    match u
    case Got(m) => m == n
    case Wrote(m) => m == n
    case Ready(m, _) => m == n
    case _ => false
  }

  predicate IsRetiring(u: UpdaterPc, n: Slot) {
    match u
    case Published(prev) => prev == Some(n)
    case Calling(m) => m == n
    case Queueing(m) => m == n
    case _ => false
  }

  predicate IsDoomed(c: ReclaimerPc, n: Slot) {
    match c
    case Popped(m) => m == n
    case Synced(m) => m == n
    case _ => false
  }

  function One(b: bool): nat { if b then 1 else 0 }

  /** How many parties own node n: unpublished, current, being retired, on the callback list, being reclaimed. */
  function Roles(s: Sys, n: Slot): nat {
    One(IsPrivate(s.updater, n)) + One(s.current == Some(n)) + One(IsRetiring(s.updater, n)) + One(n in s.queue)
    + One(IsDoomed(s.reclaimer, n))
  }

  ghost predicate CountOk(s: Sys) {
    |s.reader| < 0x1_0000_0000_0000_0000 && s.readers == |Inside(s)|
  }

  ghost predicate RolesOk(s: Sys) {
    && (forall n: Slot {:trigger Roles(s, n)} :: Roles(s, n) == One(s.inUse[n]))
    && Distinct(s.queue)
    && (s.updater.Ready? ==> s.updater.prev == s.current)
  }

  predicate LinkedOk(s: Sys) {
    && (s.queue == [] ==> s.head == None && s.tail == None)
    && (s.queue != [] ==> s.head == Some(s.queue[0]) && s.tail == Some(s.queue[|s.queue| - 1])
                          && s.next[s.queue[|s.queue| - 1]] == None)
    && (forall i, j :: 0 <= i < |s.queue| && j == i + 1 < |s.queue| ==> s.next[s.queue[i]] == Some(s.queue[j]))
    && (s.updater.Queueing? ==> s.next[s.updater.retired] == None)
  }

  predicate TallyOk(s: Sys) {
    s.queued == s.completed + |s.queue| + One(s.reclaimer != Polling)
  }

  /** A held node is current, on its way to the callback list, on it, or popped but still waited for. */
  predicate Guarded(s: Sys, n: Slot) {
    s.current == Some(n) || IsRetiring(s.updater, n) || n in s.queue || s.reclaimer == Popped(n)
  }

  ghost predicate HeldOk(s: Sys) {
    forall i: nat, n: Slot {:trigger Holds(s, i, n)} :: Holds(s, i, n) ==> Guarded(s, n)
  }

  function CurGen(s: Sys): nat {
    if s.current.None? then 0 else s.gen[s.current.value]
  }

  ghost predicate GensOk(s: Sys) {
    && CurGen(s) <= s.published + s.dropped + One(s.updater.Published?)
    && (s.updater.Wrote? || s.updater.Ready? ==> s.gen[s.updater.node] == s.published + s.dropped + 1)
    && (forall i: nat :: i in s.reader ==> s.reader[i].seen <= CurGen(s))
    && (forall i: nat, n: Slot {:trigger Holds(s, i, n)} :: Holds(s, i, n) ==> s.reader[i].seen <= s.gen[n] <= CurGen(s))
  }

  ghost predicate Inv(s: Sys) {
    CountOk(s) && RolesOk(s) && LinkedOk(s) && TallyOk(s) && HeldOk(s) && GensOk(s)
  }

  lemma {:induction false} InitInv(s: Sys)
    requires Init(s)
    ensures Inv(s)
  {
    assert Inside(s) == {};
  }

  // ---- Readers ----

  lemma {:induction false} InsideMoves(s: Sys, t: Sys, i: nat)
    requires i in s.reader && i in t.reader && t.reader == s.reader[i := t.reader[i]]
    ensures |Inside(t)| == |Inside(s)| + One(t.reader[i].pc != Outside) - One(s.reader[i].pc != Outside)
    ensures |t.reader| == |s.reader|
    ensures s.reader[i].pc != Outside ==> |Inside(s)| > 0
    ensures |Inside(s)| <= |s.reader| && (s.reader[i].pc == Outside ==> |Inside(s)| < |s.reader|)
  {
    SizeMoves(Inside(s), Inside(t), i);
    SubsetSize(Inside(s), s.reader.Keys);
    assert t.reader.Keys == s.reader.Keys;
    if s.reader[i].pc != Outside {
      assert i in Inside(s);
    } else {
      SubsetSize(Inside(s), s.reader.Keys - {i});
    }
  }

  lemma {:induction false} Wraps(n: nat)
    ensures n + 1 < 0x1_0000_0000_0000_0000 ==> Inc(n) == n + 1
    ensures 0 < n < 0x1_0000_0000_0000_0000 ==> Dec(n) == n - 1
  {
  }

  lemma {:induction false} ReaderCounts(s: Sys, t: Sys, i: nat)
    requires CountOk(s) && ReaderStep(s, t, i)
    ensures CountOk(t)
    ensures t.reader.Keys == s.reader.Keys && t.reader == s.reader[i := t.reader[i]]
    ensures t == s.(readers := t.readers, reader := t.reader)
  {
    hide Inside;
    InsideMoves(s, t, i);
    Wraps(s.readers);
  }

  /** A reader's step changes that reader and the count alone; it comes to hold a node only by dereferencing the
      current one. */
  lemma {:induction false} ReaderHolds(s: Sys, t: Sys, i: nat)
    requires ReaderStep(s, t, i)
    ensures t == s.(readers := t.readers, reader := t.reader)
    ensures forall j: nat {:trigger t.reader[j]} :: j in t.reader ==> j in s.reader && (j != i ==> t.reader[j] == s.reader[j])
    ensures forall j: nat, n: Slot {:trigger Holds(t, j, n)} ::
              Holds(t, j, n) ==> Holds(s, j, n) || (j == i && s.reader[i].pc == Entered && s.current == Some(n))
    ensures t.reader[i].seen == s.reader[i].seen
            || exists n: Slot :: Holds(s, i, n) && t.reader[i].seen == s.gen[n] && t.reader[i].pc == Holding(Some(n))
  {
    if s.reader[i].pc.Holding? && s.reader[i].pc.node.Some? {
      assert Holds(s, i, s.reader[i].pc.node.value);
    }
  }

  lemma {:induction false} ReaderGens(s: Sys, t: Sys, i: nat)
    requires HeldOk(s) && GensOk(s) && ReaderStep(s, t, i)
    ensures HeldOk(t) && GensOk(t)
  {
    hide ReaderStep;
    ReaderHolds(s, t, i);
  }

  lemma {:induction false} ReaderInv(s: Sys, t: Sys, i: nat)
    requires Inv(s) && ReaderStep(s, t, i)
    ensures Inv(t)
  {
    hide CountOk, HeldOk, GensOk;
    ReaderCounts(s, t, i);
    ReaderGens(s, t, i);
    assert forall n: Slot {:trigger Roles(t, n)} :: Roles(t, n) == Roles(s, n);
  }

  // ---- Updater ----

  lemma {:induction false} UpdaterFrame(s: Sys, t: Sys)
    requires UpdaterStep(s, t)
    ensures t.reader == s.reader && t.readers == s.readers && t.reclaimer == s.reclaimer && t.completed == s.completed
    ensures CountOk(s) ==> CountOk(t)
    ensures forall i: nat, n: Slot {:trigger Holds(t, i, n)} :: Holds(t, i, n) <==> Holds(s, i, n)
  {
    assert Inside(t) == Inside(s);
  }

  lemma {:induction false} UpdaterRoles(s: Sys, t: Sys)
    requires RolesOk(s) && UpdaterStep(s, t)
    ensures RolesOk(t)
  {
    if s.updater.Queueing? {
      assert Roles(s, s.updater.retired) <= 1;
      assert s.updater.retired !in s.queue;
    }
    assert forall n: Slot {:trigger Roles(t, n)} :: Roles(s, n) == One(s.inUse[n]) ==> Roles(t, n) == One(t.inUse[n]);
  }

  lemma {:induction false} UpdaterLinks(s: Sys, t: Sys)
    requires RolesOk(s) && LinkedOk(s) && TallyOk(s) && UpdaterStep(s, t)
    ensures LinkedOk(t) && TallyOk(t)
  {
    if s.updater.Calling? || s.updater.Queueing? {
      assert Roles(s, s.updater.retired) <= 1;
      assert s.updater.retired !in s.queue;
    }
  }

  lemma {:induction false} UpdaterHeld(s: Sys, t: Sys)
    requires RolesOk(s) && HeldOk(s) && UpdaterStep(s, t)
    ensures HeldOk(t)
  {
    UpdaterFrame(s, t);
    forall i: nat, n: Slot {:trigger Holds(t, i, n)} | Holds(t, i, n) ensures Guarded(t, n) {
      assert Holds(s, i, n);
      assert Guarded(s, n);
    }
  }

  lemma {:induction false} UpdaterGens(s: Sys, t: Sys)
    requires RolesOk(s) && HeldOk(s) && GensOk(s) && UpdaterStep(s, t)
    ensures GensOk(t)
  {
    UpdaterFrame(s, t);
    if s.updater.Got? {
      var m := s.updater.node;
      assert Roles(s, m) <= 1;
      forall i: nat, n: Slot {:trigger Holds(t, i, n)} | Holds(t, i, n) ensures n != m {
        assert Holds(s, i, n);
        assert Guarded(s, n);
      }
    }
  }

  lemma {:induction false} UpdaterInv(s: Sys, t: Sys)
    requires Inv(s) && UpdaterStep(s, t)
    ensures Inv(t)
  {
    hide UpdaterStep, CountOk, RolesOk, LinkedOk, TallyOk, HeldOk, GensOk;
    UpdaterFrame(s, t);
    UpdaterRoles(s, t);
    UpdaterLinks(s, t);
    UpdaterHeld(s, t);
    UpdaterGens(s, t);
  }

  // ---- Reclaimer ----

  lemma {:induction false} ReclaimerFrame(s: Sys, t: Sys)
    requires ReclaimerStep(s, t)
    ensures t.reader == s.reader && t.readers == s.readers && t.updater == s.updater && t.current == s.current
    ensures t.gen == s.gen && t.published == s.published && t.dropped == s.dropped
    ensures CountOk(s) ==> CountOk(t)
    ensures forall i: nat, n: Slot {:trigger Holds(t, i, n)} :: Holds(t, i, n) <==> Holds(s, i, n)
  {
    assert Inside(t) == Inside(s);
  }

  lemma {:induction false} ReclaimerRoles(s: Sys, t: Sys)
    requires RolesOk(s) && LinkedOk(s) && ReclaimerStep(s, t)
    ensures RolesOk(t)
  {
    if s.reclaimer.Polling? && s.head.Some? {
      assert s.queue == [s.queue[0]] + s.queue[1..];
      assert s.queue[0] !in s.queue[1..];
    }
    assert forall n: Slot {:trigger Roles(t, n)} :: Roles(s, n) == One(s.inUse[n]) ==> Roles(t, n) == One(t.inUse[n]);
  }

  lemma {:induction false} ReclaimerLinks(s: Sys, t: Sys)
    requires RolesOk(s) && LinkedOk(s) && TallyOk(s) && ReclaimerStep(s, t)
    ensures LinkedOk(t) && TallyOk(t)
  {
    if s.reclaimer.Polling? && |s.queue| > 1 {
      assert s.next[s.queue[0]] == Some(s.queue[1]);
      assert s.queue[1..][0] == s.queue[1];
    }
    if s.updater.Queueing? && s.reclaimer.Polling? && s.head.Some? {
      assert Roles(s, s.updater.retired) <= 1;
    }
  }

  /** Waiting for the count to reach zero lets no held node through. */
  lemma {:induction false} ReclaimerHeld(s: Sys, t: Sys)
    requires CountOk(s) && LinkedOk(s) && HeldOk(s) && ReclaimerStep(s, t)
    ensures HeldOk(t)
  {
    ReclaimerFrame(s, t);
    forall i: nat, n: Slot {:trigger Holds(t, i, n)} | Holds(t, i, n) ensures Guarded(t, n) {
      assert Holds(s, i, n);
      assert Guarded(s, n);
      assert i in Inside(s);
      if s.reclaimer.Polling? && s.head.Some? {
        assert s.queue == [s.queue[0]] + s.queue[1..];
      }
    }
  }

  lemma {:induction false} ReclaimerInv(s: Sys, t: Sys)
    requires Inv(s) && ReclaimerStep(s, t)
    ensures Inv(t)
  {
    hide ReclaimerStep, CountOk, RolesOk, LinkedOk, TallyOk, HeldOk;
    ReclaimerFrame(s, t);
    ReclaimerRoles(s, t);
    ReclaimerLinks(s, t);
    ReclaimerHeld(s, t);
  }

  // ---- Whole runs ----

  lemma {:induction false} StepInv(s: Sys, t: Sys, a: Actor)
    requires Inv(s) && Step(s, t, a)
    ensures Inv(t)
  {
    hide Inv, ReaderStep, UpdaterStep, ReclaimerStep;
    match a
    case ReaderAct(i) => ReaderInv(s, t, i);
    case UpdaterAct => UpdaterInv(s, t);
    case ReclaimerAct => ReclaimerInv(s, t);
  }

  lemma {:induction false} RunInv(ss: seq<Sys>, k: nat)
    requires Run(ss) && k < |ss|
    ensures Inv(ss[k])
  {
    hide Inv, Init, Step;
    if k == 0 {
      InitInv(ss[0]);
    } else {
      RunInv(ss, k - 1);
      assert Follows(ss, k - 1);
      var a :| Step(ss[k - 1], ss[k], a);
      StepInv(ss[k - 1], ss[k], a);
    }
  }

  /** No step of any party frees, reallocates or rewrites a node that some reader holds. */
  lemma {:induction false} HeldIsStable(s: Sys, t: Sys, a: Actor, i: nat, n: Slot)
    requires Inv(s) && Step(s, t, a) && Holds(s, i, n)
    ensures s.inUse[n] && t.inUse[n] && t.gen[n] == s.gen[n] && !FirstFree(s, n)
    ensures s.readers != 0
  {
    assert Guarded(s, n);
    assert Roles(s, n) == One(s.inUse[n]);
    assert i in Inside(s);
  }

  /** From its dereference until it leaves, a reader's node stays allocated and keeps its generation. */
  lemma {:induction false} ReadSectionSafe(ss: seq<Sys>, j: nat, k: nat, i: nat, n: Slot)
    requires Run(ss) && j <= k < |ss|
    requires forall m :: j <= m <= k ==> Holds(ss[m], i, n)
    ensures ss[k].inUse[n] && ss[k].gen[n] == ss[j].gen[n] && !FirstFree(ss[k], n) && ss[k].readers != 0
    decreases k
  {
    hide Inv, Init, Step;
    RunInv(ss, k);
    HeldNow(ss[k], i, n);
    if j < k {
      RunInv(ss, k - 1);
      ReadSectionSafe(ss, j, k - 1, i, n);
      assert Follows(ss, k - 1);
      var a :| Step(ss[k - 1], ss[k], a);
      HeldIsStable(ss[k - 1], ss[k], a, i, n);
    }
  }

  lemma {:induction false} HeldNow(s: Sys, i: nat, n: Slot)
    requires Inv(s) && Holds(s, i, n)
    ensures s.inUse[n] && s.readers != 0
  {
    assert Guarded(s, n);
    assert Roles(s, n) == One(s.inUse[n]);
    assert i in Inside(s);
  }

  lemma {:induction false} SeenStep(s: Sys, t: Sys, a: Actor, i: nat)
    requires Inv(s) && Step(s, t, a) && i in s.reader
    ensures i in t.reader && s.reader[i].seen <= t.reader[i].seen
  {
    hide CountOk, RolesOk, LinkedOk, TallyOk, HeldOk, CurGen;
    match a
    case UpdaterAct => UpdaterFrame(s, t);
    case ReclaimerAct => ReclaimerFrame(s, t);
    case ReaderAct(j) =>
    if j == i && s.reader[i].pc.Holding? && s.reader[i].pc.node.Some? {
      assert Holds(s, i, s.reader[i].pc.node.value);
    }
  }

  /** The generations a reader looks at never decrease, over the whole run. */
  lemma {:induction false} GenerationsGrow(ss: seq<Sys>, j: nat, k: nat, i: nat)
    requires Run(ss) && j <= k < |ss| && i in ss[j].reader
    ensures i in ss[k].reader && ss[j].reader[i].seen <= ss[k].reader[i].seen
    decreases k
  {
    hide Inv, Init, Step;
    if j < k {
      GenerationsGrow(ss, j, k - 1, i);
      RunInv(ss, k - 1);
      assert Follows(ss, k - 1);
      var a :| Step(ss[k - 1], ss[k], a);
      SeenStep(ss[k - 1], ss[k], a, i);
    }
  }

  /** Every allocated node has exactly one owner; once updater and reclaimer are idle and the list is empty, the
      published node is the only one in use and every queued callback has completed. */
  lemma {:induction false} NothingLeaks(ss: seq<Sys>, k: nat, n: Slot)
    requires Run(ss) && k < |ss|
    ensures ss[k].inUse[n] <==> Roles(ss[k], n) == 1
    ensures ss[k].readers == |Inside(ss[k])|
    ensures ss[k].queued == ss[k].completed + |ss[k].queue| + One(ss[k].reclaimer != Polling)
    ensures ss[k].updater == Waiting && ss[k].reclaimer == Polling && ss[k].head == None
            ==> (ss[k].inUse[n] <==> ss[k].current == Some(n)) && ss[k].queued == ss[k].completed
  {
    RunInv(ss, k);
  }
}
