/** Whole runs of the scheduler: the state invariant, fairness exactly when no task becomes ready late, and how far
    fairness fails otherwise. */
module SchedulerRuns {
  import opened Options
  import opened Scheduling
  import opened SchedulerProofs

  /** The scheduler's state and the slots whose creation is under way between two locked sections. */
  datatype Machine = Machine(s: Sched, creating: set<nat>)

  datatype Op =
    | Begin | Abort(i: Slot) | Finish(i: Slot)
    | Wait(w: nat) | Wake(w: nat) | WakeEvery(w: nat)
    | Irq | Resched | Dispatch | GiveUp | Leave

  predicate Enabled(m: Machine, op: Op) {
    match op
    case Abort(i) => i in m.creating
    case Finish(i) => i in m.creating
    case Wait(w) => w < |m.s.waits|
    case Wake(w) => w < |m.s.waits|
    case WakeEvery(w) => w < |m.s.waits|
    case _ => true
  }

  function Step(m: Machine, op: Op): Machine
    requires Enabled(m, op)
  {
    match op
    case Begin =>
      var (t, slot) := CreateBegin(m.s);
      Machine(t, if slot.None? then m.creating else m.creating + {slot.value})
    case Abort(i) => Machine(CreateAbort(m.s, i), m.creating - {i})
    case Finish(i) => Machine(CreateFinish(m.s, i).0, m.creating - {i})
    case Wait(w) => m.(s := WaitOn(m.s, w).0)
    case Wake(w) => m.(s := WakeOne(m.s, w).0)
    case WakeEvery(w) => m.(s := WakeAll(m.s, w).0)
    case Irq => m.(s := Timer(m.s))
    case Resched => m.(s := m.s.(need := true))
    case Dispatch => m.(s := RunNext(m.s).0)
    case GiveUp => m.(s := Yield(m.s))
    case Leave => m.(s := Exit(m.s).0)
  }

  ghost predicate Good(m: Machine) {
    Inv(m.s, m.creating)
  }

  lemma {:induction false} StepInv(m: Machine, op: Op)
    requires Good(m) && Enabled(m, op)
    ensures Good(Step(m, op))
  {
    hide Inv, CreateBegin, CreateAbort, CreateFinish, WaitOn, WakeOne, WakeAll, Tick, Preempt, RunNext, Yield, Exit;
    match op
    case Begin => BeginInv(m.s, m.creating);
    case Abort(i) => AbortInv(m.s, m.creating, i);
    case Finish(i) => FinishInv(m.s, m.creating, i);
    case Wait(w) => WaitInv(m.s, m.creating, w);
    case Wake(w) => WakeInv(m.s, m.creating, w);
    case WakeEvery(w) => WakeAllExact(m.s, m.creating, w);
    case Irq =>
      TickInv(m.s, m.creating);
      PreemptInv(Tick(m.s), m.creating);
    case Resched => ReschedInv(m.s, m.creating);
    case Dispatch => DispatchInv(m.s, m.creating);
    case GiveUp => YieldInv(m.s, m.creating);
    case Leave => ExitInv(m.s, m.creating);
  }

  lemma {:induction false} ReschedInv(s: Sched, creating: set<nat>)
    requires Inv(s, creating)
    ensures Inv(s.(need := true), creating)
  {
    hide WaitsOk;
    WaitsSame(s, s.(need := true), creating);
  }

  ghost predicate Run(ms: seq<Machine>, ops: seq<Op>) {
    && |ms| == |ops| + 1
    && (exists queues: nat :: ms[0] == Machine(Start(queues), {}))
    && forall k {:trigger ops[k]} :: 0 <= k < |ops| ==> Enabled(ms[k], ops[k]) && ms[k + 1] == Step(ms[k], ops[k])
  }

  /** In every state of every run the ready queue is exactly the ready tasks, at most one task runs, and every blocked
      task waits in exactly one queue or is being created. */
  lemma {:induction false} RunInv(ms: seq<Machine>, ops: seq<Op>, k: nat)
    requires Run(ms, ops) && k < |ms|
    ensures Good(ms[k])
  {
    hide Good, Step;
    if k == 0 {
      var queues: nat :| ms[0] == Machine(Start(queues), {});
      StartGood(queues);
    } else {
      RunInv(ms, ops, k - 1);
      StepInv(ms[k - 1], ops[k - 1]);
    }
  }

  lemma {:induction false} StartGood(queues: nat)
    ensures Good(Machine(Start(queues), {})) && Fair(Start(queues))
  {
    StartInv(queues);
  }

  // ---- Fairness

  predicate Runnable(s: Sched, i: Slot) {
    s.tasks[i].state == Ready || s.tasks[i].state == Running
  }

  /** Every runnable task is at g_cfs_min_vruntime or one behind it; a running task that is not behind leaves none. */
  predicate Fair(s: Sched) {
    && (forall i: Slot {:trigger s.tasks[i]} ::
          Runnable(s, i) ==> s.tasks[i].vruntime <= s.minVruntime <= s.tasks[i].vruntime + 1)
    && (forall i: Slot {:trigger s.tasks[i]} ::
          s.tasks[i].state == Ready && Ahead(s) ==> s.tasks[i].vruntime == s.minVruntime)
  }

  predicate Ahead(s: Sched) {
    s.current.Some? && s.tasks[s.current.value].vruntime == s.minVruntime
  }

  /** Task i may become ready without falling behind the others. */
  predicate OnTime(s: Sched, i: Slot) {
    s.tasks[i].vruntime == s.minVruntime || (s.tasks[i].vruntime + 1 == s.minVruntime && !Ahead(s))
  }

  /** A blocked task that becomes ready keeps the state fair exactly when it is on time. */
  lemma {:induction false} JoinFair(s: Sched, t: Sched, i: Slot)
    requires RunnerOk(s) && Fair(s) && s.tasks[i].state == Blocked
    requires t.tasks == s.tasks[i := s.tasks[i].(state := Ready)] && t.current == s.current
    requires t.minVruntime == s.minVruntime
    ensures Fair(t) <==> OnTime(s, i)
  {
    assert forall j: Slot {:trigger t.tasks[j]} :: j != i ==> t.tasks[j] == s.tasks[j];
    assert s.current != Some(i) by {
      assert s.tasks[i].state != Running;
    }
    assert Runnable(t, i);
  }

  /** Reserving a slot, or giving one back, costs nobody anything. */
  lemma {:induction false} SlotFair(s: Sched, t: Sched, i: Slot, x: Task)
    requires RunnerOk(s) && Fair(s) && !Runnable(s, i) && x.state != Ready && x.state != Running
    requires t.tasks == s.tasks[i := x] && t.current == s.current && t.minVruntime == s.minVruntime
    ensures Fair(t)
  {
    assert forall j: Slot {:trigger t.tasks[j]} :: j != i ==> t.tasks[j] == s.tasks[j];
    assert s.current != Some(i) by {
      assert s.tasks[i].state != Running;
    }
  }

  /** The running task leaves the processor, whatever it becomes. */
  lemma {:induction false} OffFair(s: Sched, t: Sched, st: TaskState)
    requires RunnerOk(s) && Fair(s) && t.minVruntime == s.minVruntime
    requires || (t.current == s.current && t.tasks == s.tasks)
             || (s.current.Some? && t.current.None?
                 && t.tasks == s.tasks[s.current.value := s.tasks[s.current.value].(state := st)])
    ensures Fair(t)
  {
    if t.tasks != s.tasks {
      var c := s.current.value;
      assert forall j: Slot {:trigger t.tasks[j]} :: j != c ==> t.tasks[j] == s.tasks[j];
      assert s.tasks[c].state == Running;
    }
  }

  lemma {:induction false} BeginFair(s: Sched, creating: set<nat>)
    requires Inv(s, creating) && Fair(s)
    ensures Fair(CreateBegin(s).0)
  {
    hide FirstUnused, Fair;
    var (t, slot) := CreateBegin(s);
    if slot.Some? {
      SlotFair(s, t, slot.value, t.tasks[slot.value]);
    }
  }

  lemma {:induction false} AbortFair(s: Sched, creating: set<nat>, i: Slot)
    requires Inv(s, creating) && Fair(s) && i in creating
    ensures Fair(CreateAbort(s, i))
  {
    hide Fair;
    CreatingBlocked(s, creating, i);
    SlotFair(s, CreateAbort(s, i), i, Blank());
  }

  lemma {:induction false} DispatchFair(s: Sched, creating: set<nat>)
    requires Inv(s, creating) && Fair(s)
    ensures Fair(RunNext(s).0)
  {
    hide Best, Kept, WaitsOk;
    var t := RunNext(s).0;
    if RunNext(s).1 {
      var b := t.current.value;
      assert forall j: Slot {:trigger t.tasks[j]} :: j != b ==> t.tasks[j] == s.tasks[j];
      assert Runnable(s, b);
      assert forall j: Slot :: s.tasks[j].state == Ready ==> !Before(s.tasks, j, b);
    }
  }

  /** One timer interrupt: only the running task advances, and it goes back to the queue. */
  lemma {:induction false} TimerFair(s: Sched, creating: set<nat>)
    requires Inv(s, creating) && Fair(s)
    ensures Fair(Timer(s)) && s.minVruntime <= Timer(s).minVruntime <= s.minVruntime + 1
    ensures s.current.Some? ==> Timer(s).current.None? && Timer(s).ticks == s.ticks + 1
  {
    hide WaitsOk;
    RunnerIs(s);
    var t := Timer(s);
    if s.current.Some? {
      var c := s.current.value;
      Room(s, c);
      assert Runnable(s, c);
      assert forall i: Slot {:trigger t.tasks[i]} :: i != c ==> t.tasks[i] == s.tasks[i];
      assert forall i: Slot {:trigger t.tasks[i]} :: i != c && Runnable(s, i) ==> s.tasks[i].state == Ready;
    } else {
      OffFair(s, t, Running);
    }
  }

  /** The guard on what becomes ready: on time, for every task the step makes ready. */
  predicate Prompt(m: Machine, op: Op)
    requires Enabled(m, op)
  {
    match op
    case Finish(i) => OnTime(m.s, i)
    case Wake(w) => m.s.waits[w] != [] && m.s.waits[w][0] < 128 ==> OnTime(m.s, m.s.waits[w][0])
    case WakeEvery(w) => forall i: Slot :: i in m.s.waits[w] ==> OnTime(m.s, i)
    case _ => true
  }

  lemma {:induction false} WakeFair(s: Sched, creating: set<nat>, w: nat)
    requires Inv(s, creating) && Fair(s) && w < |s.waits|
    ensures Fair(WakeOne(s, w).0) <==> (s.waits[w] != [] && s.waits[w][0] < 128 ==> OnTime(s, s.waits[w][0]))
  {
    hide WakeOne, WaitsOk, ReadyOk;
    WakeInv(s, creating, w);
    if s.waits[w] != [] {
      JoinFair(s, Woken(s, w), s.waits[w][0]);
    }
  }

  lemma {:induction false} WakeAllFair(s: Sched, creating: set<nat>, w: nat)
    requires Inv(s, creating) && Fair(s) && w < |s.waits|
    ensures Fair(WakeAll(s, w).0) <==> forall i: Slot :: i in s.waits[w] ==> OnTime(s, i)
  {
    hide WakeAll, ReadyOk;
    WakeAllExact(s, creating, w);
    var t := WakeAll(s, w).0;
    forall i: Slot | i in s.waits[w] ensures s.tasks[i].state == Blocked && Runnable(t, i) && s.current != Some(i) {
      assert Waits(s, w, i);
    }
    assert forall i: Slot {:trigger t.tasks[i]} :: i !in s.waits[w] ==> Runnable(t, i) == Runnable(s, i);
  }

  /** A step from a fair state ends in a fair state if and only if every task it makes ready is on time. */
  lemma {:induction false} StepFair(m: Machine, op: Op)
    requires Good(m) && Fair(m.s) && Enabled(m, op)
    ensures Fair(Step(m, op).s) <==> Prompt(m, op)
    ensures m.s.minVruntime <= Step(m, op).s.minVruntime
  {
    hide Inv, Fair, OnTime, CreateBegin, CreateAbort, CreateFinish, WakeOne, WakeAll, Timer, RunNext;
    StepMin(m, op);
    InvParts(m.s, m.creating);
    match op
    case Begin => BeginFair(m.s, m.creating);
    case Abort(i) => AbortFair(m.s, m.creating, i);
    case Finish(i) =>
      FinishInv(m.s, m.creating, i);
      CreatingBlocked(m.s, m.creating, i);
      JoinFair(m.s, CreateFinish(m.s, i).0, i);
    case Wait(w) => OffFair(m.s, WaitOn(m.s, w).0, Blocked);
    case Wake(w) => WakeFair(m.s, m.creating, w);
    case WakeEvery(w) => WakeAllFair(m.s, m.creating, w);
    case Irq => TimerFair(m.s, m.creating);
    case Resched => OffFair(m.s, m.s.(need := true), Running);
    case Dispatch => DispatchFair(m.s, m.creating);
    case GiveUp => OffFair(m.s, Yield(m.s), Ready);
    case Leave => OffFair(m.s, Exit(m.s).0, Exited);
  }

  lemma {:induction false} InvParts(s: Sched, creating: set<nat>)
    requires Inv(s, creating)
    ensures ReadyOk(s) && RunnerOk(s) && WaitsOk(s, creating) && TidsOk(s)
  {
  }

  lemma {:induction false} StepMin(m: Machine, op: Op)
    requires Good(m) && Fair(m.s) && Enabled(m, op)
    ensures m.s.minVruntime <= Step(m, op).s.minVruntime
  {
    hide Inv, Fair, WakeOne, WakeAll, Timer, Best, Kept, FirstUnused;
    match op
    case Irq => TimerFair(m.s, m.creating);
    case Wake(w) => WakeInv(m.s, m.creating, w);
    case WakeEvery(w) => WakeAllExact(m.s, m.creating, w);
    case _ =>
  }

  /** A run is fair throughout if and only if no task ever becomes ready late. */
  lemma {:induction false} FairRuns(ms: seq<Machine>, ops: seq<Op>, n: nat)
    requires Run(ms, ops) && n < |ms|
    ensures (forall k: nat :: k <= n ==> Fair(ms[k].s)) <==> (forall k: nat :: k < n ==> Prompt(ms[k], ops[k]))
  {
    hide Good, Step, Fair, Prompt;
    if n == 0 {
      var queues: nat :| ms[0] == Machine(Start(queues), {});
      StartGood(queues);
    } else {
      FairRuns(ms, ops, n - 1);
      RunInv(ms, ops, n - 1);
      if Fair(ms[n - 1].s) {
        StepFair(ms[n - 1], ops[n - 1]);
      }
    }
  }

  /** In a fair state no two runnable tasks are more than one tick apart. */
  lemma {:induction false} FairGap(s: Sched, i: Slot, j: Slot)
    requires Fair(s) && Runnable(s, i) && Runnable(s, j)
    ensures -1 <= s.tasks[i].vruntime - s.tasks[j].vruntime <= 1
  {
  }

  /** Ticks are charged to runtime and vruntime alike while a task stays runnable. */
  lemma {:induction false} StepCharges(m: Machine, op: Op, i: Slot)
    requires Good(m) && Enabled(m, op) && Runnable(m.s, i) && Runnable(Step(m, op).s, i)
    ensures Step(m, op).s.tasks[i].runtime - Step(m, op).s.tasks[i].vruntime == m.s.tasks[i].runtime - m.s.tasks[i].vruntime
  {
    hide WakeOne, WakeAll, Best, Kept, FirstUnused;
    match op
    case Wake(w) => WakeInv(m.s, m.creating, w);
    case WakeEvery(w) => WakeAllExact(m.s, m.creating, w);
    case _ =>
  }

  lemma {:induction false} WindowCharges(ms: seq<Machine>, ops: seq<Op>, j: nat, k: nat, i: Slot)
    requires Run(ms, ops) && j <= k < |ms| && forall n: nat :: j <= n <= k ==> Runnable(ms[n].s, i)
    ensures ms[k].s.tasks[i].runtime - ms[k].s.tasks[i].vruntime == ms[j].s.tasks[i].runtime - ms[j].s.tasks[i].vruntime
    decreases k
  {
    hide Good, Step;
    if j < k {
      WindowCharges(ms, ops, j, k - 1, i);
      RunInv(ms, ops, k - 1);
      StepCharges(ms[k - 1], ops[k - 1], i);
    }
  }

  /** Over any window of a prompt run in which two tasks stay runnable, the ticks they get differ by at most two. */
  lemma {:induction false} EqualShares(ms: seq<Machine>, ops: seq<Op>, j: nat, k: nat, a: Slot, b: Slot)
    requires Run(ms, ops) && j <= k < |ms| && forall n: nat :: n < k ==> Prompt(ms[n], ops[n])
    requires forall n: nat :: j <= n <= k ==> Runnable(ms[n].s, a) && Runnable(ms[n].s, b)
    ensures var ta := ms[k].s.tasks[a].runtime - ms[j].s.tasks[a].runtime;
            var tb := ms[k].s.tasks[b].runtime - ms[j].s.tasks[b].runtime;
            -2 <= ta - tb <= 2
  {
    hide Step, Fair, Prompt, Good;
    FairRuns(ms, ops, k);
    WindowCharges(ms, ops, j, k, a);
    WindowCharges(ms, ops, j, k, b);
    FairGap(ms[j].s, a, b);
    FairGap(ms[k].s, a, b);
  }

  /** g_cfs_min_vruntime never decreases over a prompt run. */
  lemma {:induction false} MinGrows(ms: seq<Machine>, ops: seq<Op>, j: nat, k: nat)
    requires Run(ms, ops) && j <= k < |ms| && forall n: nat :: n < k ==> Prompt(ms[n], ops[n])
    ensures ms[j].s.minVruntime <= ms[k].s.minVruntime
    decreases k
  {
    hide Step, Fair, Prompt, Good;
    if j < k {
      MinGrows(ms, ops, j, k - 1);
      FairRuns(ms, ops, k - 1);
      RunInv(ms, ops, k - 1);
      StepFair(ms[k - 1], ops[k - 1]);
    }
  }

  // ---- Fairness from the calls alone

  /** Call k is no wakeup, and publishes a task only right after the call that reserved its slot. */
  predicate Plain(ms: seq<Machine>, ops: seq<Op>, k: nat)
    requires |ms| == |ops| + 1 && k < |ops|
  {
    match ops[k]
    case Finish(i) => k > 0 && ops[k - 1] == Begin && CreateBegin(ms[k - 1].s).1 == Some(i)
    case Wake(_) => false
    case WakeEvery(_) => false
    case _ => true
  }

  lemma {:induction false} PlainIsPrompt(ms: seq<Machine>, ops: seq<Op>, k: nat)
    requires Run(ms, ops) && k < |ops| && Plain(ms, ops, k)
    ensures Prompt(ms[k], ops[k])
  {
    hide FirstUnused;
    if ops[k].Finish? {
      assert ops[k - 1] == Begin;
      assert ms[k - 1 + 1] == Step(ms[k - 1], ops[k - 1]);
    }
  }

  /** Without wakeups, and with each creation as one step: two runnable tasks are never more than one tick apart,
      g_cfs_min_vruntime never decreases, and over any window in which two tasks stay runnable the ticks they get differ
      by at most two. */
  lemma {:induction false} PlainRunsFair(ms: seq<Machine>, ops: seq<Op>, j: nat, k: nat, a: Slot, b: Slot)
    requires Run(ms, ops) && j <= k < |ms| && forall n: nat :: n < k ==> Plain(ms, ops, n)
    ensures Runnable(ms[k].s, a) && Runnable(ms[k].s, b)
            ==> -1 <= ms[k].s.tasks[a].vruntime - ms[k].s.tasks[b].vruntime <= 1
    ensures ms[j].s.minVruntime <= ms[k].s.minVruntime
    ensures (forall n: nat :: j <= n <= k ==> Runnable(ms[n].s, a) && Runnable(ms[n].s, b))
            ==> -2 <= (ms[k].s.tasks[a].runtime - ms[j].s.tasks[a].runtime)
                      - (ms[k].s.tasks[b].runtime - ms[j].s.tasks[b].runtime) <= 2
  {
    hide Step, Fair, Prompt, Plain, Runnable;
    forall n: nat | n < k ensures Prompt(ms[n], ops[n]) {
      PlainIsPrompt(ms, ops, n);
    }
    FairRuns(ms, ops, k);
    MinGrows(ms, ops, j, k);
    if Runnable(ms[k].s, a) && Runnable(ms[k].s, b) {
      FairGap(ms[k].s, a, b);
    }
    if forall n: nat :: j <= n <= k ==> Runnable(ms[n].s, a) && Runnable(ms[n].s, b) {
      EqualShares(ms, ops, j, k, a, b);
    }
  }

  // ---- Exited tasks keep their slot for good

  lemma {:induction false} StepExited(m: Machine, op: Op, i: Slot)
    requires Good(m) && Enabled(m, op) && m.s.tasks[i].state == Exited
    ensures Step(m, op).s.tasks[i] == m.s.tasks[i]
  {
    hide WakeOne, WakeAll, Best, Kept, FirstUnused;
    match op
    case Wake(w) => WakeInv(m.s, m.creating, w);
    case WakeEvery(w) =>
      WakeAllExact(m.s, m.creating, w);
      assert !Waits(m.s, w, i);
    case _ =>
  }

  /** An exited task keeps its slot and its record for the rest of the run: slots of finished tasks are never reused. */
  lemma {:induction false} ExitedForever(ms: seq<Machine>, ops: seq<Op>, j: nat, k: nat, i: Slot)
    requires Run(ms, ops) && j <= k < |ms| && ms[j].s.tasks[i].state == Exited
    ensures ms[k].s.tasks[i] == ms[j].s.tasks[i]
    decreases k
  {
    hide Good, Step;
    if j < k {
      ExitedForever(ms, ops, j, k - 1, i);
      RunInv(ms, ops, k - 1);
      StepExited(ms[k - 1], ops[k - 1], i);
    }
  }

  // ---- How far fairness fails when a task becomes ready late

  /** A table whose first two slots are taken. */
  function Two(x: Task, y: Task): Tasks {
    Start(0).tasks[0 := x][1 := y]
  }

  lemma {:induction false} TwoUpdates(x: Task, y: Task, z: Task)
    ensures Two(x, y)[0 := z] == Two(z, y) && Two(x, y)[1 := z] == Two(x, z)
    ensures Two(x, y)[0] == x && Two(x, y)[1] == y && forall i: Slot {:trigger Two(x, y)[i]} :: i > 1 ==> Two(x, y)[i] == Blank()
  {
  }

  function Created(x: Task, y: Task, ready: Fifo, current: Option<Slot>, nextTid: nat): Machine {
    Machine(Sched(Two(x, y), ready, [[]], current, nextTid, 0, false, 0, 0), {})
  }

  /** Task 0 waits since the start; task 1 has run alone for d ticks. */
  function Alone(d: nat): Machine {
    Machine(Sched(Two(Task(Blocked, 1, 0, 0, 1), Task(Ready, 2, d, d, d)), [1], [[0]], None, 3, d, false, d, d), {})
  }

  lemma {:induction false} Extend(ms: seq<Machine>, ops: seq<Op>, op: Op)
    requires Run(ms, ops) && |ms| == |ops| + 1 && Enabled(ms[|ops|], op)
    ensures Run(ms + [Step(ms[|ops|], op)], ops + [op])
  {
    hide Step;
    var ns, qs := ms + [Step(ms[|ops|], op)], ops + [op];
    forall k {:trigger qs[k]} | 0 <= k < |qs| ensures Enabled(ns[k], qs[k]) && ns[k + 1] == Step(ns[k], qs[k]) {
      if k < |ops| {
        assert qs[k] == ops[k];
      }
    }
  }

  lemma {:induction false} CreateNext(m: Machine, i: Slot)
    requires m.creating == {} && m.s.tasks[i].state == Unused && forall j: Slot :: j < i ==> m.s.tasks[j].state != Unused
    requires |m.s.ready| < 128
    ensures Enabled(Step(m, Begin), Finish(i))
    ensures Step(Step(m, Begin), Finish(i))
            == Machine(m.s.(tasks := m.s.tasks[i := Task(Ready, m.s.nextTid, m.s.minVruntime, 0, 0)],
                            nextTid := m.s.nextTid + 1, ready := m.s.ready + [i]), {})
  {
    hide FirstUnused;
    assert CreateBegin(m.s).1 == Some(i);
    assert {i} - {i} == {};
  }

  lemma {:induction false} DispatchOnly(m: Machine, b: Slot, k: nat)
    requires ReadyOk(m.s) && m.s.current.None? && k < |m.s.ready| && m.s.ready[k] == b
    requires forall j: Slot :: m.s.tasks[j].state == Ready && j != b ==> Before(m.s.tasks, b, j)
    ensures var t := m.s.tasks[b];
            Step(m, Dispatch) == m.(s := m.s.(tasks := m.s.tasks[b := t.(state := Running, switches := t.switches + 1)],
                                              ready := m.s.ready[..k] + m.s.ready[k + 1..], need := false, current := Some(b)))
  {
    hide Best, Kept;
    assert m.s.ready[k] in m.s.ready;
    KeptExact(m.s, k);
    var best := Best(m.s.tasks, 128);
    assert best == Some(b);
  }

  lemma {:induction false} FirstCreated()
    ensures Enabled(Step(Machine(Start(1), {}), Begin), Finish(0))
    ensures Step(Step(Machine(Start(1), {}), Begin), Finish(0)) == Created(Task(Ready, 1, 0, 0, 0), Blank(), [0], None, 2)
  {
    hide Step;
    assert Start(1).tasks == Two(Blank(), Blank());
    assert Start(1).waits == [[]];
    CreateNext(Machine(Start(1), {}), 0);
    TwoUpdates(Blank(), Blank(), Task(Ready, 1, 0, 0, 0));
  }

  lemma {:induction false} SecondCreated()
    ensures var m := Created(Task(Ready, 1, 0, 0, 0), Blank(), [0], None, 2);
            && Enabled(Step(m, Begin), Finish(1))
            && Step(Step(m, Begin), Finish(1)) == Created(Task(Ready, 1, 0, 0, 0), Task(Ready, 2, 0, 0, 0), [0, 1], None, 3)
  {
    hide Step, Two;
    var x := Task(Ready, 1, 0, 0, 0);
    TwoUpdates(x, Blank(), Task(Ready, 2, 0, 0, 0));
    CreateNext(Created(x, Blank(), [0], None, 2), 1);
  }

  lemma {:induction false} FirstDispatched()
    ensures Step(Created(Task(Ready, 1, 0, 0, 0), Task(Ready, 2, 0, 0, 0), [0, 1], None, 3), Dispatch)
            == Created(Task(Running, 1, 0, 0, 1), Task(Ready, 2, 0, 0, 0), [1], Some(0), 3)
  {
    hide Step, Two;
    var x, y := Task(Ready, 1, 0, 0, 0), Task(Ready, 2, 0, 0, 0);
    var m := Created(x, y, [0, 1], None, 3);
    TwoUpdates(x, y, Task(Running, 1, 0, 0, 1));
    DispatchOnly(m, 0, 0);
    assert [0, 1][..0] + [0, 1][1..] == [1];
  }

  lemma {:induction false} FirstWaits()
    ensures var m := Created(Task(Running, 1, 0, 0, 1), Task(Ready, 2, 0, 0, 0), [1], Some(0), 3);
            Enabled(m, Wait(0)) && Step(m, Wait(0)) == Alone(0)
  {
    hide Two;
    TwoUpdates(Task(Running, 1, 0, 0, 1), Task(Ready, 2, 0, 0, 0), Task(Blocked, 1, 0, 0, 1));
    var e: Fifo := [];
    assert e + [0] == [0];
    assert [e][0 := [0]] == [[0]];
  }

  /** Two tasks are created; the first one runs and waits. */
  lemma {:induction false} SetUp() returns (ms: seq<Machine>, ops: seq<Op>)
    ensures Run(ms, ops) && |ms| == |ops| + 1 && ms[|ops|] == Alone(0)
  {
    hide Step, Run, Created, Alone, Two;
    ms, ops := StartRun();
    FirstCreated();
    ms, ops := Then(ms, ops, Begin);
    ms, ops := Then(ms, ops, Finish(0));
    SecondCreated();
    ms, ops := Then(ms, ops, Begin);
    ms, ops := Then(ms, ops, Finish(1));
    FirstDispatched();
    ms, ops := Then(ms, ops, Dispatch);
    FirstWaits();
    ms, ops := Then(ms, ops, Wait(0));
  }

  lemma {:induction false} StartRun() returns (ms: seq<Machine>, ops: seq<Op>)
    ensures Run(ms, ops) && |ms| == |ops| + 1 && ms[|ops|] == Machine(Start(1), {})
  {
    ms, ops := [Machine(Start(1), {})], [];
  }

  lemma {:induction false} Then(ms: seq<Machine>, ops: seq<Op>, op: Op) returns (ns: seq<Machine>, qs: seq<Op>)
    requires Run(ms, ops) && |ms| == |ops| + 1 && Enabled(ms[|ops|], op)
    ensures Run(ns, qs) && |ns| == |qs| + 1 && ns[|qs|] == Step(ms[|ops|], op)
  {
    hide Run;
    Extend(ms, ops, op);
    ns, qs := ms + [Step(ms[|ops|], op)], ops + [op];
  }

  /** Task 1 is dispatched and gets one more tick. */
  lemma {:induction false} OneMoreTick(d: nat)
    ensures Step(Step(Alone(d), Dispatch), Irq) == Alone(d + 1)
  {
    hide Two, Best, Kept;
    var x, y := Task(Blocked, 1, 0, 0, 1), Task(Ready, 2, d, d, d);
    TwoUpdates(x, y, Task(Running, 2, d, d, d + 1));
    DispatchOnly(Alone(d), 1, 0);
    TwoUpdates(x, Task(Running, 2, d, d, d + 1), Task(Running, 2, d + 1, d + 1, d + 1));
    TwoUpdates(x, Task(Running, 2, d + 1, d + 1, d + 1), Task(Ready, 2, d + 1, d + 1, d + 1));
    assert [1][..0] + [1][1..] == [];
  }

  lemma {:induction false} AloneReachable(d: nat) returns (ms: seq<Machine>, ops: seq<Op>)
    ensures Run(ms, ops) && |ms| == |ops| + 1 && ms[|ops|] == Alone(d)
  {
    hide Step, Alone, Run;
    if d == 0 {
      ms, ops := SetUp();
    } else {
      ms, ops := AloneReachable(d - 1);
      ms, ops := Then(ms, ops, Dispatch);
      ms, ops := Then(ms, ops, Irq);
      OneMoreTick(d - 1);
    }
  }

  /** Without the guard the gap is unbounded: for every d some run wakes a task that is d ticks behind another ready one. */
  lemma {:induction false} LateWakeup(d: nat) returns (ms: seq<Machine>, ops: seq<Op>)
    ensures Run(ms, ops) && |ms| == |ops| + 1
    ensures var s := ms[|ops|].s;
            s.tasks[0].state == Ready && s.tasks[1].state == Ready && s.tasks[1].vruntime == s.tasks[0].vruntime + d
  {
    hide Run, Step, Alone;
    ms, ops := AloneReachable(d);
    WokenAlone(d);
    ms, ops := Then(ms, ops, Wake(0));
  }

  lemma {:induction false} WokenAlone(d: nat)
    ensures Enabled(Alone(d), Wake(0))
    ensures var s := Step(Alone(d), Wake(0)).s;
            s.tasks[0].state == Ready && s.tasks[1].state == Ready && s.tasks[1].vruntime == s.tasks[0].vruntime + d
  {
    var s := Alone(d).s;
    assert s.waits[0][0] == 0 && |s.waits[0]| == 1;
  }
}
