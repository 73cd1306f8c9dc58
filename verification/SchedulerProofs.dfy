/** The state invariant of the scheduler: what every locked section keeps and exactly does. */
module SchedulerProofs {
  import opened Options
  import opened Counting
  import opened Scheduling

  // ---- The state invariant

  /** The ready queue holds exactly the ready tasks, once each. */
  ghost predicate ReadyOk(s: Sched) {
    && Distinct(s.ready)
    && (forall i: nat {:trigger i in s.ready} :: i in s.ready ==> i < 128 && s.tasks[i].state == Ready)
    && (forall i: Slot {:trigger s.tasks[i]} :: s.tasks[i].state == Ready ==> i in s.ready)
  }

  /** At most one task is running, and it is the current one. */
  predicate RunnerOk(s: Sched) {
    forall i: Slot {:trigger s.tasks[i]} :: s.tasks[i].state == Running <==> s.current == Some(i)
  }

  predicate Waits(s: Sched, w: nat, i: nat) {
    w < |s.waits| && i in s.waits[w]
  }

  ghost predicate WaitsSomewhere(s: Sched, i: nat) {
    exists w: nat :: Waits(s, w, i)
  }

  /** A blocked task is in exactly one wait queue, once, unless it is still being created. */
  ghost predicate WaitsOk(s: Sched, creating: set<nat>) {
    && (forall w: nat {:trigger s.waits[w]} :: w < |s.waits| ==> Distinct(s.waits[w]))
    && (forall w: nat, i: nat {:trigger Waits(s, w, i)} ::
          Waits(s, w, i) ==> i < 128 && s.tasks[i].state == Blocked && i !in creating)
    && (forall v: nat, w: nat, i: nat {:trigger Waits(s, v, i), Waits(s, w, i)} ::
          Waits(s, v, i) && Waits(s, w, i) ==> v == w)
    && (forall i: nat {:trigger i in creating} :: i in creating ==> i < 128 && s.tasks[i].state == Blocked)
    && (forall i: Slot {:trigger s.tasks[i]} ::
          s.tasks[i].state == Blocked && i !in creating ==> WaitsSomewhere(s, i))
  }

  /** Tasks in use have distinct identifiers below the next one. */
  predicate TidsOk(s: Sched) {
    && s.nextTid > 0
    && (forall i: Slot {:trigger s.tasks[i]} :: s.tasks[i].state != Unused ==> 0 < s.tasks[i].tid < s.nextTid)
    && (forall i: Slot, j: Slot {:trigger s.tasks[i], s.tasks[j]} ::
          i != j && s.tasks[i].state != Unused && s.tasks[j].state != Unused ==> s.tasks[i].tid != s.tasks[j].tid)
  }

  ghost predicate Inv(s: Sched, creating: set<nat>) {
    ReadyOk(s) && RunnerOk(s) && WaitsOk(s, creating) && TidsOk(s)
  }

  /** sched_init: every slot unused, every queue empty, the bootstrap task running, all counters zero and the first
      identifier 1. */
  lemma {:induction false} StartInv(queues: nat)
    ensures Inv(Start(queues), {})
    ensures var s := Start(queues);
            && (forall i: Slot :: s.tasks[i] == Task(Unused, 0, 0, 0, 0))
            && |s.waits| == queues && (forall w: nat :: w < queues ==> s.waits[w] == [])
            && s == Sched(s.tasks, [], s.waits, None, 1, 0, false, 0, 0)
  {
  }

  /** A task outside the ready queue always finds room in it. */
  lemma {:induction false} Room(s: Sched, i: Slot)
    requires ReadyOk(s) && s.tasks[i].state != Ready
    ensures |s.ready| < 128
  {
    assert forall k :: 0 <= k < |s.ready| ==> s.ready[k] in s.ready;
    Pigeonhole(s.ready, 128, i);
  }

  /** Making task i ready and appending it keeps the ready queue exact. */
  lemma {:induction false} ReadyAdded(s: Sched, t: Sched, i: Slot)
    requires ReadyOk(s) && s.tasks[i].state != Ready && t.ready == s.ready + [i] && t.tasks[i].state == Ready
    requires forall j: Slot {:trigger t.tasks[j]} :: j != i ==> t.tasks[j] == s.tasks[j]
    ensures ReadyOk(t)
  {
    assert i !in s.ready;
    assert forall j: nat {:trigger j in t.ready} :: j in t.ready <==> j in s.ready || j == i;
  }

  lemma {:induction false} WaitRoom(s: Sched, creating: set<nat>, w: nat, i: Slot)
    requires WaitsOk(s, creating) && w < |s.waits| && s.tasks[i].state != Blocked
    ensures |s.waits[w]| < 128
  {
    forall k | 0 <= k < |s.waits[w]| ensures s.waits[w][k] < 128 && s.waits[w][k] != i {
      assert Waits(s, w, s.waits[w][k]);
    }
    Pigeonhole(s.waits[w], 128, i);
  }

  /** Waiting is untouched by sections that change no wait queue and no blocked task. */
  lemma {:induction false} WaitsSame(s: Sched, t: Sched, creating: set<nat>)
    requires WaitsOk(s, creating) && t.waits == s.waits
    requires forall i: Slot {:trigger t.tasks[i]} :: (t.tasks[i].state == Blocked) <==> (s.tasks[i].state == Blocked)
    ensures WaitsOk(t, creating)
  {
    forall i: Slot {:trigger t.tasks[i]} | t.tasks[i].state == Blocked && i !in creating ensures WaitsSomewhere(t, i) {
      assert WaitsSomewhere(s, i);
      var w: nat :| Waits(s, w, i);
      assert Waits(t, w, i);
    }
    assert forall w: nat, i: nat {:trigger Waits(t, w, i)} :: Waits(t, w, i) <==> Waits(s, w, i);
  }

  // ---- Creation

  /** The first unused slot is found if there is one; the new task starts at g_cfs_min_vruntime, in no queue. */
  lemma {:induction false} BeginInv(s: Sched, creating: set<nat>)
    requires Inv(s, creating)
    ensures var (t, slot) := CreateBegin(s);
            && Inv(t, if slot.None? then creating else creating + {slot.value}) && (slot.Some? ==> slot.value !in creating)
            && (slot.None? <==> forall i: Slot :: s.tasks[i].state != Unused)
            && (slot.Some? ==> s.tasks[slot.value].state == Unused && forall i: Slot :: i < slot.value ==> s.tasks[i].state != Unused)
            && t == s.(tasks := t.tasks, nextTid := s.nextTid + if slot.Some? then 1 else 0)
            && (forall i: Slot :: t.tasks[i] == if slot == Some(i) then Task(Blocked, s.nextTid, s.minVruntime, 0, 0) else s.tasks[i])
  {
    hide FirstUnused;
    var (t, slot) := CreateBegin(s);
    if slot.Some? {
      var i := slot.value;
      assert s.tasks[i].state == Unused;
      assert forall w: nat, j: nat {:trigger Waits(t, w, j)} :: Waits(t, w, j) <==> Waits(s, w, j);
      forall j: Slot {:trigger t.tasks[j]} | t.tasks[j].state == Blocked && j != i && j !in creating
        ensures WaitsSomewhere(t, j)
      {
        assert s.tasks[j].state == Blocked;
        var w: nat :| Waits(s, w, j);
        assert Waits(t, w, j);
      }
    }
  }

  lemma {:induction false} LeaveCreating(s: Sched, t: Sched, creating: set<nat>, i: Slot)
    requires WaitsOk(s, creating) && i in creating && t.waits == s.waits && t.tasks[i].state != Blocked
    requires forall j: Slot {:trigger t.tasks[j]} :: j != i ==> t.tasks[j] == s.tasks[j]
    ensures WaitsOk(t, creating - {i})
  {
    assert forall w: nat, j: nat {:trigger Waits(t, w, j)} :: Waits(t, w, j) <==> Waits(s, w, j);
    forall j: Slot {:trigger t.tasks[j]} | t.tasks[j].state == Blocked && j !in creating - {i} ensures WaitsSomewhere(t, j) {
      assert s.tasks[j].state == Blocked;
      var w: nat :| Waits(s, w, j);
      assert Waits(t, w, j);
    }
  }

  /** A creation given up leaves no trace but the identifier: the slot is unused, and everything else as before. */
  lemma {:induction false} AbortUndoes(s: Sched)
    requires CreateBegin(s).1.Some?
    ensures var (t, slot) := CreateBegin(s);
            CreateAbort(t, slot.value) == s.(tasks := s.tasks[slot.value := Task(Unused, 0, 0, 0, 0)], nextTid := s.nextTid + 1)
  {
    hide FirstUnused;
    var (t, slot) := CreateBegin(s);
    assert s.tasks[slot.value := Blank()] == t.tasks[slot.value := Blank()];
  }

  lemma {:induction false} AbortInv(s: Sched, creating: set<nat>, i: Slot)
    requires Inv(s, creating) && i in creating
    ensures Inv(CreateAbort(s, i), creating - {i})
    ensures CreateAbort(s, i) == s.(tasks := s.tasks[i := Task(Unused, 0, 0, 0, 0)])
  {
    hide WaitsOk;
    CreatingBlocked(s, creating, i);
    LeaveCreating(s, CreateAbort(s, i), creating, i);
  }

  lemma {:induction false} CreatingBlocked(s: Sched, creating: set<nat>, i: Slot)
    requires WaitsOk(s, creating) && i in creating
    ensures s.tasks[i].state == Blocked
  {
  }

  /** A created task is always published: the ready queue has room. */
  lemma {:induction false} FinishInv(s: Sched, creating: set<nat>, i: Slot)
    requires Inv(s, creating) && i in creating
    ensures var (t, ok) := CreateFinish(s, i);
            && ok && Inv(t, creating - {i})
            && Became(s, t, i, Ready) && t == s.(tasks := t.tasks, ready := s.ready + [i])
  {
    hide WaitsOk;
    CreatingBlocked(s, creating, i);
    Room(s, i);
    ReadyAdded(s, CreateFinish(s, i).0, i);
    LeaveCreating(s, CreateFinish(s, i).0, creating, i);
  }

  // ---- Waiting and waking

  lemma {:induction false} RunnerIs(s: Sched)
    requires RunnerOk(s)
    ensures HasRunner(s) <==> s.current.Some?
  {
  }

  /** The record changes in its state alone. */
  predicate Became(s: Sched, t: Sched, c: Slot, st: TaskState) {
    forall i: Slot {:trigger t.tasks[i]} :: t.tasks[i] == if i == c then s.tasks[c].(state := st) else s.tasks[i]
  }

  /** Waiting succeeds exactly when a task is running, since the wait queue has room: that task is blocked at the end of
      that queue. Otherwise nothing changes. */
  lemma {:induction false} WaitInv(s: Sched, creating: set<nat>, w: nat)
    requires Inv(s, creating) && w < |s.waits|
    ensures var (t, ok) := WaitOn(s, w);
            && Inv(t, creating) && (ok <==> s.current.Some?) && (!ok ==> t == s)
            && (ok ==> |s.waits[w]| < 128 && Became(s, t, s.current.value, Blocked)
                       && t == s.(tasks := t.tasks, current := None, waits := s.waits[w := s.waits[w] + [s.current.value]]))
  {
    RunnerIs(s);
    var (t, ok) := WaitOn(s, w);
    if s.current.Some? {
      var c := s.current.value;
      WaitRoom(s, creating, w, c);
      WaitAdded(s, t, creating, w, c);
    }
  }

  lemma {:induction false} WaitAdded(s: Sched, t: Sched, creating: set<nat>, w: nat, c: Slot)
    requires WaitsOk(s, creating) && w < |s.waits| == |t.waits| && s.tasks[c].state != Blocked && c !in creating
    requires |s.waits[w]| < 128 && t.waits == s.waits[w := s.waits[w] + [c]]
    requires t.tasks == s.tasks[c := s.tasks[c].(state := Blocked)]
    ensures WaitsOk(t, creating)
  {
    assert !Waits(s, w, c);
    assert forall j: nat :: j in t.waits[w] <==> j in s.waits[w] || j == c;
    assert forall v: nat, j: nat {:trigger Waits(t, v, j)} :: Waits(t, v, j) <==> Waits(s, v, j) || (v == w && j == c);
    assert Waits(t, w, c);
    forall j: Slot {:trigger t.tasks[j]} | t.tasks[j].state == Blocked && j !in creating ensures WaitsSomewhere(t, j) {
      if j != c {
        assert s.tasks[j].state == Blocked;
        var v: nat :| Waits(s, v, j);
        assert Waits(t, v, j);
      }
    }
  }

  lemma {:induction false} WaitRemoved(s: Sched, t: Sched, creating: set<nat>, w: nat, c: Slot)
    requires WaitsOk(s, creating) && w < |s.waits| == |t.waits| && s.waits[w] != [] && c == s.waits[w][0]
    requires t.waits == s.waits[w := s.waits[w][1..]] && t.tasks == s.tasks[c := s.tasks[c].(state := Ready)]
    ensures WaitsOk(t, creating)
  {
    assert s.waits[w] == [c] + t.waits[w];
    assert Waits(s, w, c);
    assert c !in t.waits[w];
    assert forall j: nat :: j in t.waits[w] <==> j in s.waits[w] && j != c;
    assert forall v: nat, j: nat {:trigger Waits(t, v, j)} :: Waits(t, v, j) <==> Waits(s, v, j) && j != c;
    forall j: Slot {:trigger t.tasks[j]} | t.tasks[j].state == Blocked && j !in creating ensures WaitsSomewhere(t, j) {
      assert s.tasks[j].state == Blocked;
      var v: nat :| Waits(s, v, j);
      assert Waits(t, v, j);
    }
  }

  function Woken(s: Sched, w: nat): Sched
    requires w < |s.waits| && s.waits[w] != [] && s.waits[w][0] < 128 && |s.ready| < 128
  {
    var c := s.waits[w][0];
    WithState(s, c, Ready).(waits := s.waits[w := s.waits[w][1..]], ready := s.ready + [c], need := true)
  }

  /** Waking takes the oldest waiter to the end of the ready queue and asks for a reschedule; it fails only on an empty
      queue, and then changes nothing. */
  lemma {:induction false} WakeInv(s: Sched, creating: set<nat>, w: nat)
    requires Inv(s, creating) && w < |s.waits|
    ensures s.waits[w] == [] ==> WakeOne(s, w) == (s, false)
    ensures s.waits[w] != [] ==>
              var (t, c) := (WakeOne(s, w).0, s.waits[w][0]);
              && c < 128 && |s.ready| < 128 && Became(s, t, c, Ready)
              && t == s.(tasks := t.tasks, waits := s.waits[w := s.waits[w][1..]], ready := s.ready + [c], need := true)
    ensures s.waits[w] != [] ==>
              && s.waits[w][0] < 128 && s.tasks[s.waits[w][0]].state == Blocked && |s.ready| < 128
              && WakeOne(s, w) == (Woken(s, w), true) && Inv(Woken(s, w), creating)
  {
    if s.waits[w] != [] {
      var c := s.waits[w][0];
      assert Waits(s, w, c);
      Room(s, c);
      var t := Woken(s, w);
      ReadyAdded(s, t, c);
      WaitRemoved(s, t, creating, w, c);
    }
  }

  /** Waking all readies exactly the waiters of that queue, in order, and empties it. */
  lemma {:induction false} WakeAllExact(s: Sched, creating: set<nat>, w: nat)
    requires Inv(s, creating) && w < |s.waits|
    ensures var (t, n) := WakeAll(s, w);
            && Inv(t, creating) && n == |s.waits[w]|
            && t.ready == s.ready + s.waits[w]
            && (forall i: Slot :: t.tasks[i] == if i in s.waits[w] then s.tasks[i].(state := Ready) else s.tasks[i])
            && t == s.(tasks := t.tasks, ready := t.ready, waits := s.waits[w := []], need := s.need || s.waits[w] != [])
    decreases |s.waits[w]|
  {
    hide Inv, WakeOne, WakeAll;
    WakeInv(s, creating, w);
    WakeAllUnfold(s, w);
    if s.waits[w] != [] {
      var t := Woken(s, w);
      assert s.waits[w] == [s.waits[w][0]] + t.waits[w];
      WakeAllExact(t, creating, w);
    } else {
      assert s.waits == s.waits[w := []];
    }
  }

  // ---- Timer

  lemma {:induction false} TickInv(s: Sched, creating: set<nat>)
    requires Inv(s, creating)
    ensures Inv(Tick(s), creating)
  {
    hide WaitsOk;
    WaitsSame(s, Tick(s), creating);
  }

  /** Preemption succeeds exactly when it was requested and a task runs, which goes to the end of the ready queue;
      otherwise only the request is cleared. */
  lemma {:induction false} PreemptInv(s: Sched, creating: set<nat>)
    requires Inv(s, creating)
    ensures var (t, ok) := Preempt(s);
            && Inv(t, creating) && (ok <==> s.need && s.current.Some?) && (!ok ==> t == s.(need := false))
            && (ok ==> |s.ready| < 128 && Became(s, t, s.current.value, Ready)
                       && t == s.(tasks := t.tasks, current := None, ready := s.ready + [s.current.value], need := false,
                                  preempts := s.preempts + 1))
  {
    hide WaitsOk;
    RunnerIs(s);
    if s.need && s.current.Some? {
      Room(s, s.current.value);
      ReadyAdded(s, Preempt(s).0, s.current.value);
    }
    WaitsSame(s, Preempt(s).0, creating);
  }

  /** A timer interrupt charges the running task one tick, moves g_cfs_min_vruntime to it, and puts it at the end of the
      ready queue; nothing else changes but the tick count. */
  lemma {:induction false} TimerExact(s: Sched, creating: set<nat>)
    requires Inv(s, creating)
    ensures var t := Timer(s);
            && t == s.(tasks := t.tasks, ready := t.ready, ticks := s.ticks + 1, need := false, current := None,
                       minVruntime := t.minVruntime, preempts := s.preempts + if s.current.Some? then 1 else 0)
            && t.ready == s.ready + (if s.current.Some? then [s.current.value] else [])
            && t.minVruntime == (if s.current.Some? then s.tasks[s.current.value].vruntime + 1 else s.minVruntime)
            && (forall i: Slot :: var x := s.tasks[i];
                  t.tasks[i] == if s.current == Some(i) then Task(Ready, x.tid, x.vruntime + 1, x.runtime + 1, x.switches) else x)
  {
    hide WaitsOk, TidsOk;
    RunnerIs(s);
    if s.current.Some? {
      Room(s, s.current.value);
    }
  }

  /** Yielding puts the running task at the end of the ready queue and changes nothing else. */
  lemma {:induction false} YieldInv(s: Sched, creating: set<nat>)
    requires Inv(s, creating)
    ensures Inv(Yield(s), creating) && (s.current.None? ==> Yield(s) == s)
    ensures s.current.Some? ==>
              && |s.ready| < 128 && Became(s, Yield(s), s.current.value, Ready)
              && Yield(s) == s.(tasks := Yield(s).tasks, current := None, ready := s.ready + [s.current.value])
  {
    hide WaitsOk;
    RunnerIs(s);
    if s.current.Some? {
      Room(s, s.current.value);
      ReadyAdded(s, Yield(s), s.current.value);
    }
    WaitsSame(s, Yield(s), creating);
  }

  /** Exit succeeds exactly when a task runs: that task becomes exited, in no queue, and no other changes. */
  lemma {:induction false} ExitInv(s: Sched, creating: set<nat>)
    requires Inv(s, creating)
    ensures var (t, ok) := Exit(s);
            && Inv(t, creating) && (ok <==> s.current.Some?) && (!ok ==> t == s)
            && (ok ==> Became(s, t, s.current.value, Exited) && t == s.(tasks := t.tasks, current := None)
                       && s.current.value !in t.ready && forall w: nat :: !Waits(t, w, s.current.value))
  {
    hide WaitsOk;
    RunnerIs(s);
    WaitsSame(s, Exit(s).0, creating);
  }

  // ---- Dispatch

  lemma {:induction false} KeptAll(ts: Tasks, q: seq<nat>, b: Slot)
    requires forall k :: 0 <= k < |q| ==> q[k] < 128 && ts[q[k]].state == Ready && q[k] != b
    ensures Kept(ts, q, b) == q
  {
    if q != [] {
      KeptAll(ts, q[..|q| - 1], b);
    }
  }

  lemma {:induction false} KeptSplit(ts: Tasks, x: seq<nat>, y: seq<nat>, b: Slot)
    ensures Kept(ts, x + y, b) == Kept(ts, x, b) + Kept(ts, y, b)
  {
    if y == [] {
      assert x + y == x;
    } else {
      KeptSplit(ts, x, y[..|y| - 1], b);
      assert (x + y)[..|x + y| - 1] == x + y[..|y| - 1] && (x + y)[|x + y| - 1] == y[|y| - 1];
    }
  }

  lemma {:induction false} ReadyEntries(s: Sched)
    requires ReadyOk(s)
    ensures Distinct(s.ready)
    ensures forall k {:trigger s.ready[k]} :: 0 <= k < |s.ready| ==> s.ready[k] < 128 && s.tasks[s.ready[k]].state == Ready
  {
    assert forall k :: 0 <= k < |s.ready| ==> s.ready[k] in s.ready;
  }

  lemma {:induction false} KeptAround(ts: Tasks, x: seq<nat>, b: Slot, y: seq<nat>)
    requires Kept(ts, x, b) == x && Kept(ts, y, b) == y
    ensures Kept(ts, x + [b] + y, b) == x + y
  {
    hide Kept;
    KeptSplit(ts, x + [b], y, b);
    KeptSplit(ts, x, [b], b);
    KeptOne(ts, b);
  }

  /** Rebuilding the ready queue removes the chosen task and keeps the others in order. */
  lemma {:induction false} KeptExact(s: Sched, k: nat)
    requires ReadyOk(s) && k < |s.ready|
    ensures s.ready[k] < 128 && Kept(s.tasks, s.ready, s.ready[k]) == s.ready[..k] + s.ready[k + 1..]
  {
    hide Kept, ReadyOk;
    ReadyEntries(s);
    var b := s.ready[k];
    var x, y := s.ready[..k], s.ready[k + 1..];
    assert s.ready == x + [b] + y;
    assert forall j :: 0 <= j < |y| ==> y[j] == s.ready[j + k + 1];
    KeptAll(s.tasks, x, b);
    KeptAll(s.tasks, y, b);
    KeptAround(s.tasks, x, b, y);
  }

  /** Taking the running task's entry out keeps the ready queue exact. */
  lemma {:induction false} ReadyRemoved(s: Sched, t: Sched, k: nat)
    requires ReadyOk(s) && k < |s.ready| && s.ready[k] < 128 && t.ready == s.ready[..k] + s.ready[k + 1..]
    requires t.tasks[s.ready[k]].state != Ready
    requires forall j: Slot {:trigger t.tasks[j]} :: j != s.ready[k] ==> t.tasks[j] == s.tasks[j]
    ensures ReadyOk(t)
  {
    var b := s.ready[k];
    var x, y := s.ready[..k], s.ready[k + 1..];
    assert s.ready == x + [b] + y;
    assert b !in x && b !in y;
    assert forall j: nat {:trigger j in t.ready} :: j in t.ready <==> j in s.ready && j != b;
  }

  lemma {:induction false} KeptOne(ts: Tasks, b: Slot)
    ensures Kept(ts, [b], b) == []
  {
    assert [b][..0] == [];
  }

  /** Task b runs, counted as one more switch, and has left the ready queue; no ready task had less vruntime, nor as much
      and a smaller identifier; nothing else changed but the reschedule request. */
  ghost predicate Dispatched(s: Sched, t: Sched, b: Slot) {
    && t == s.(tasks := t.tasks, ready := t.ready, need := false, current := Some(b))
    && t.ready == Without(s.ready, b)
    && (forall i: Slot :: var x := s.tasks[i];
          t.tasks[i] == if i == b then Task(Running, x.tid, x.vruntime, x.runtime, x.switches + 1) else x)
    && forall j: Slot :: j in s.ready && j != b ==>
         s.tasks[b].vruntime < s.tasks[j].vruntime
         || (s.tasks[b].vruntime == s.tasks[j].vruntime && s.tasks[b].tid < s.tasks[j].tid)
  }

  /** Dispatch succeeds exactly when the bootstrap task runs and some task is ready; it takes the one with the least
      (vruntime, tid) out of the ready queue and leaves the others in order. */
  lemma {:induction false} DispatchInv(s: Sched, creating: set<nat>)
    requires Inv(s, creating)
    ensures var (t, ok) := RunNext(s);
            && Inv(t, creating) && (ok <==> s.current.None? && s.ready != [])
            && (!ok ==> t == s)
            && (ok ==> t.current.Some? && t.current.value in s.ready && Dispatched(s, t, t.current.value))
  {
    hide Best, Kept, WaitsOk;
    var (t, ok) := RunNext(s);
    var best := Best(s.tasks, 128);
    if s.ready != [] {
      assert s.ready[0] in s.ready;
    }
    if ok {
      var b := best.value;
      var k: nat :| k < |s.ready| && s.ready[k] == b;
      KeptExact(s, k);
      WithoutAt(s.ready, k);
      ReadyRemoved(s, t, k);
      WaitsSame(s, t, creating);
    }
  }
}
