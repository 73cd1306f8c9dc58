/** The scheduler of kernel/sched/sched.c as functions on its state, one per locked section. */
module Scheduling {
  import opened Options

  datatype TaskState = Unused | Ready | Running | Blocked | Exited

  datatype Task = Task(state: TaskState, tid: nat, vruntime: nat, runtime: nat, switches: nat)

  /** SCHED_MAX_TASKS and both queue capacities are 128. */
  type Slot = n: nat | n < 128
  type Tasks = ts: seq<Task> | |ts| == 128 witness seq(128, _ => Blank())

  type Fifo = q: seq<nat> | |q| <= 128

  function Blank(): Task { Task(Unused, 0, 0, 0, 0) }

  /** The table of tasks, the ready queue and every wait queue (oldest first), the running task (None while the bootstrap
      task runs), and the scheduler's counters. */
  datatype Sched = Sched(
    tasks: Tasks, ready: Fifo, waits: seq<Fifo>, current: Option<Slot>,
    nextTid: nat, ticks: nat, need: bool, preempts: nat, minVruntime: nat)

  function WithState(s: Sched, i: Slot, st: TaskState): Sched {
    s.(tasks := s.tasks[i := s.tasks[i].(state := st)])
  }

  /** A section may act on the running task, unless it is the bootstrap task. */
  predicate HasRunner(s: Sched) {
    s.current.Some? && s.tasks[s.current.value].state == Running
  }

  // ---- sched_create_kernel_task: reserve a slot; then, after the stack is set up, publish or give back

  function FirstUnused(ts: Tasks, i: nat): (r: Option<Slot>)
    requires i <= 128
    ensures r.Some? ==> i <= r.value && ts[r.value].state == Unused
    ensures forall j: Slot :: i <= j && (r.Some? ==> j < r.value) ==> ts[j].state != Unused
    decreases |ts| - i
  {
    if i == 128 then None
    else if ts[i].state == Unused then Some(i)
    else FirstUnused(ts, i + 1)
  }

  function CreateBegin(s: Sched): (Sched, Option<Slot>) {
    var slot := FirstUnused(s.tasks, 0);
    if slot.None? then (s, None)
    else (s.(tasks := s.tasks[slot.value := Task(Blocked, s.nextTid, s.minVruntime, 0, 0)], nextTid := s.nextTid + 1), slot)
  }

  function CreateAbort(s: Sched, i: Slot): Sched {
    s.(tasks := s.tasks[i := Blank()])
  }

  function CreateFinish(s: Sched, i: Slot): (Sched, bool) {
    if |s.ready| >= 128 then (CreateAbort(s, i), false)
    else (WithState(s, i, Ready).(ready := s.ready + [i]), true)
  }

  // ---- Wait queues

  function WaitOn(s: Sched, w: nat): (Sched, bool)
    requires w < |s.waits|
  {
    if !HasRunner(s) || |s.waits[w]| >= 128 then (s, false)
    else
      var c := s.current.value;
      (WithState(s, c, Blocked).(waits := s.waits[w := s.waits[w] + [c]], current := None), true)
  }

  /** One attempt of sched_wake_one_locked: the new state, whether the search is over, whether a task was woken. */
  function Attempt(s: Sched, w: nat): (r: (Sched, bool, bool))
    requires w < |s.waits|
    ensures |r.0.waits| == |s.waits| && |r.0.waits[w]| <= |s.waits[w]|
    ensures r.2 ==> |r.0.waits[w]| < |s.waits[w]|
  {
    if s.waits[w] == [] then (s, true, false)
    else
      var c := s.waits[w][0];
      var rest := s.waits[w := s.waits[w][1..]];
      if c >= 128 || s.tasks[c].state != Blocked then (s.(waits := rest), false, false)
      else if |s.ready| >= 128 then (s.(waits := s.waits[w := s.waits[w][1..] + [c]]), true, false)
      else (WithState(s, c, Ready).(waits := rest, ready := s.ready + [c], need := true), true, true)
  }

  function WakeFrom(s: Sched, w: nat, attempts: nat): (r: (Sched, bool))
    requires w < |s.waits|
    ensures |r.0.waits| == |s.waits| && |r.0.waits[w]| <= |s.waits[w]|
    ensures r.1 ==> |r.0.waits[w]| < |s.waits[w]|
    decreases attempts
  {
    if attempts == 0 then (s, false)
    else
      var (t, over, woke) := Attempt(s, w);
      if over then (t, woke) else WakeFrom(t, w, attempts - 1)
  }

  function WakeOne(s: Sched, w: nat): (r: (Sched, bool))
    requires w < |s.waits|
    ensures |r.0.waits| == |s.waits| && |r.0.waits[w]| <= |s.waits[w]|
    ensures r.1 ==> |r.0.waits[w]| < |s.waits[w]|
  {
    WakeFrom(s, w, |s.waits[w]|)
  }

  function WakeAll(s: Sched, w: nat): (r: (Sched, nat))
    requires w < |s.waits|
    decreases |s.waits[w]|
  {
    var (t, woke) := WakeOne(s, w);
    if !woke then (t, 0)
    else
      var (u, n) := WakeAll(t, w);
      (u, n + 1)
  }

  lemma {:induction false} WakeAllUnfold(s: Sched, w: nat)
    requires w < |s.waits|
    ensures !WakeOne(s, w).1 ==> WakeAll(s, w) == (WakeOne(s, w).0, 0)
    ensures WakeOne(s, w).1 ==>
              WakeAll(s, w) == (WakeAll(WakeOne(s, w).0, w).0, WakeAll(WakeOne(s, w).0, w).1 + 1)
  {
    hide WakeOne;
  }

  // ---- Timer interrupt

  function Tick(s: Sched): Sched {
    if !HasRunner(s) then s.(ticks := s.ticks + 1)
    else
      var c := s.current.value;
      var v := s.tasks[c].vruntime + 1;
      s.(tasks := s.tasks[c := s.tasks[c].(vruntime := v, runtime := s.tasks[c].runtime + 1)],
         ticks := s.ticks + 1, minVruntime := v, need := true)
  }

  function Preempt(s: Sched): (Sched, bool) {
    if !s.need then (s, false)
    else if !HasRunner(s) || |s.ready| >= 128 then (s.(need := false), false)
    else
      var c := s.current.value;
      (WithState(s, c, Ready).(ready := s.ready + [c], need := false, preempts := s.preempts + 1, current := None), true)
  }

  /** The timer interrupt handler: the tick, then the preemption check, with interrupts off. */
  function Timer(s: Sched): Sched {
    Preempt(Tick(s)).0
  }

  // ---- sched_run, sched_yield, sched_task_exit

  /** Task i is to run before task j. */
  predicate Before(ts: Tasks, i: Slot, j: Slot) {
    ts[i].vruntime < ts[j].vruntime || (ts[i].vruntime == ts[j].vruntime && ts[i].tid < ts[j].tid)
  }

  /** The scan over the first n slots: the ready task that no other ready one is to run before. */
  function Best(ts: Tasks, n: nat): (b: Option<Slot>)
    requires n <= 128
    ensures b.Some? ==> b.value < n && ts[b.value].state == Ready
    ensures forall j: Slot :: j < n && ts[j].state == Ready ==> b.Some? && !Before(ts, j, b.value)
    decreases |ts|, n
  {
    if n == 0 then None
    else
      var b := Best(ts, n - 1);
      if ts[n - 1].state != Ready then b
      else if b.None? || Before(ts, n - 1, b.value) then Some(n - 1)
      else b
  }

  /** The queue entries kept when task b is taken out: still ready, in the same order. */
  function Kept(ts: Tasks, q: seq<nat>, b: Slot): (r: seq<nat>)
    ensures |r| <= |q|
  {
    if q == [] then []
    else
      var c := q[|q| - 1];
      Kept(ts, q[..|q| - 1], b) + if c != b && c < 128 && ts[c].state == Ready then [c] else []
  }

  lemma {:induction false} KeptNext(ts: Tasks, q: seq<nat>, m: nat, b: Slot)
    requires m < |q|
    ensures Kept(ts, q[..m + 1], b)
            == Kept(ts, q[..m], b) + if q[m] != b && q[m] < 128 && ts[q[m]].state == Ready then [q[m]] else []
  {
    assert q[..m + 1][..m] == q[..m];
  }

  lemma {:induction false} KeptNone(ts: Tasks, b: Slot)
    ensures Kept(ts, [], b) == []
  {
  }

  function RunNext(s: Sched): (Sched, bool) {
    var best := Best(s.tasks, 128);
    if s.current.Some? || best.None? then (s, false)
    else
      var b := best.value;
      (s.(tasks := s.tasks[b := s.tasks[b].(state := Running, switches := s.tasks[b].switches + 1)],
          ready := Kept(s.tasks, s.ready, b), need := false, current := Some(b)), true)
  }

  function Yield(s: Sched): Sched {
    if !HasRunner(s) || |s.ready| >= 128 then s
    else
      var c := s.current.value;
      WithState(s, c, Ready).(ready := s.ready + [c], current := None)
  }

  /** sched_task_exit; false stands for the panic of a call without a running task. */
  function Exit(s: Sched): (Sched, bool) {
    if s.current.None? then (s, false)
    else (WithState(s, s.current.value, Exited).(current := None), true)
  }

  function Start(queues: nat): Sched {
    Sched(seq(128, _ => Blank()), [], seq(queues, _ => []), None, 1, 0, false, 0, 0)
  }
}
