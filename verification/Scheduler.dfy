/** kernel/sched/sched.c as it stands: a table of tasks and circular queues updated in place. */
module Scheduler {
  import opened Options
  import opened Ring
  import opened Scheduling

  class TaskScheduler {
    const tasks: array<Task>
    const ready: Queue<nat>
    var current: Option<Slot>
    var nextTid: nat
    var ticks: nat
    var need: bool
    var preempts: nat
    var minVruntime: nat
    ghost var waits: seq<Fifo>     // the contents of the kernel's wait queues

    ghost predicate Wired()
      reads this, ready
    {
      tasks.Length == 128 && ready.Valid() && ready.buffer.Length == 128
    }

    ghost function View(): Sched
      requires Wired()
      reads this, tasks, ready, ready.buffer
    {
      Sched(tasks[..], ready.Contents(), waits, current, nextTid, ticks, need, preempts, minVruntime)
    }

    /** q is the wait queue number w. */
    ghost predicate IsWaitQueue(q: Queue<nat>, w: nat)
      reads this, q, q.buffer
    {
      && q.Valid() && q.buffer.Length == 128 && q != ready && q.buffer != ready.buffer
      && w < |waits| && q.Contents() == waits[w]
    }

    /** sched_init. */
    constructor (ghost queues: nat)
      ensures Wired() && View() == Start(queues) && fresh(tasks) && fresh(ready) && fresh(ready.buffer)
    {
      var ts := new Task[128](_ => Blank());
      var q := new Queue<nat>(128);
      tasks, ready := ts, q;
      current, nextTid, ticks, need, preempts, minVruntime := None, 1, 0, false, 0, 0;
      waits := Start(queues).waits;
      new;
      assert tasks[..] == Start(queues).tasks;
    }

    method Put(i: Slot, t: Task)
      requires tasks.Length == 128
      modifies tasks
      ensures tasks[..] == old(tasks[..])[i := t]
    {
      tasks[i] := t;
    }

    method SetState(i: Slot, st: TaskState)
      requires tasks.Length == 128
      modifies tasks
      ensures tasks[..] == old(tasks[..])[i := old(tasks[i]).(state := st)]
    {
      Put(i, tasks[i].(state := st));
    }

    // ---- sched_create_kernel_task

    method CreateBegin() returns (slot: Option<Slot>)
      requires Wired()
      modifies this`nextTid, tasks
      ensures Wired() && (View(), slot) == Scheduling.CreateBegin(old(View()))
    {
      var i := 0;
      while i < 128 && tasks[i].state != Unused
        invariant i <= 128
        invariant FirstUnused(tasks[..], i) == FirstUnused(tasks[..], 0)
      {
        i := i + 1;
      }
      if i == 128 {
        return None;
      }
      Put(i, Task(Blocked, nextTid, minVruntime, 0, 0));
      nextTid := nextTid + 1;
      slot := Some(i);
    }

    method CreateAbort(i: Slot)
      requires Wired()
      modifies tasks
      ensures Wired() && View() == Scheduling.CreateAbort(old(View()), i)
    {
      Put(i, Blank());
    }

    method CreateFinish(i: Slot) returns (ok: bool)
      requires Wired()
      modifies tasks, ready, ready.buffer
      ensures Wired() && (View(), ok) == Scheduling.CreateFinish(old(View()), i)
    {
      hide Items;
      SetState(i, Ready);
      ok := ready.Enqueue(i);
      if !ok {
        Put(i, Blank());
        assert tasks[..] == old(tasks[..])[i := Blank()];
      }
    }

    // ---- Waiting and waking

    method WaitOn(q: Queue<nat>, ghost w: nat) returns (ok: bool)
      requires Wired() && IsWaitQueue(q, w)
      modifies this, tasks, q, q.buffer
      ensures Wired() && IsWaitQueue(q, w) && (View(), ok) == Scheduling.WaitOn(old(View()), w)
    {
      hide Items;
      if current.None? || tasks[current.value].state != Running {
        return false;
      }
      ok := q.Enqueue(current.value);
      if !ok {
        return false;
      }
      waits := waits[w := q.Contents()];
      SetState(current.value, Blocked);
      current := None;
    }

    method WakeAttempt(q: Queue<nat>, ghost w: nat) returns (over: bool, woke: bool)
      requires Wired() && IsWaitQueue(q, w)
      modifies this, tasks, ready, ready.buffer, q, q.buffer
      ensures Wired() && IsWaitQueue(q, w) && (View(), over, woke) == Attempt(old(View()), w)
    {
      hide Items;
      var ok, c := q.Dequeue();
      if !ok {
        return true, false;
      }
      waits := waits[w := q.Contents()];
      if c >= 128 {
        return false, false;
      }
      if tasks[c].state != Blocked {
        return false, false;
      }
      SetState(c, Ready);
      ok := ready.Enqueue(c);
      if !ok {
        SetState(c, Blocked);
        assert tasks[..] == old(tasks[..]);
        ok := q.Enqueue(c);
        waits := waits[w := q.Contents()];
        assert waits == old(waits)[w := old(waits[w])[1..] + [c]];
        return true, false;
      }
      need := true;
      return true, true;
    }

    method WakeOne(q: Queue<nat>, ghost w: nat) returns (woke: bool)
      requires Wired() && IsWaitQueue(q, w)
      modifies this, tasks, ready, ready.buffer, q, q.buffer
      ensures Wired() && IsWaitQueue(q, w) && (View(), woke) == Scheduling.WakeOne(old(View()), w)
    {
      hide Items, Attempt;
      var attempts := q.size;
      while attempts > 0
        invariant Wired() && IsWaitQueue(q, w) && WakeFrom(View(), w, attempts) == Scheduling.WakeOne(old(View()), w)
      {
        attempts := attempts - 1;
        var over, ok := WakeAttempt(q, w);
        if over {
          return ok;
        }
      }
      woke := false;
    }

    method WakeAll(q: Queue<nat>, ghost w: nat) returns (n: nat)
      requires Wired() && IsWaitQueue(q, w)
      modifies this, tasks, ready, ready.buffer, q, q.buffer
      ensures Wired() && IsWaitQueue(q, w) && (View(), n) == Scheduling.WakeAll(old(View()), w)
    {
      hide Items, Scheduling.WakeAll, Scheduling.WakeOne;
      n := 0;
      WakeAllUnfold(View(), w);
      var woke := WakeOne(q, w);
      while woke
        invariant Wired() && IsWaitQueue(q, w)
        invariant woke ==> Scheduling.WakeAll(old(View()), w) == (Scheduling.WakeAll(View(), w).0, Scheduling.WakeAll(View(), w).1 + n + 1)
        invariant !woke ==> Scheduling.WakeAll(old(View()), w) == (View(), n)
        decreases |waits[w]|, woke
      {
        n := n + 1;
        WakeAllUnfold(View(), w);
        woke := WakeOne(q, w);
      }
    }

    // ---- Timer

    method Tick()
      requires Wired()
      modifies this, tasks
      ensures Wired() && View() == Scheduling.Tick(old(View()))
    {
      ticks := ticks + 1;
      if current.Some? && tasks[current.value].state == Running {
        var t := tasks[current.value];
        Put(current.value, t.(runtime := t.runtime + 1, vruntime := t.vruntime + 1));
        minVruntime := tasks[current.value].vruntime;
        need := true;
      }
    }

    method PreemptOnTick() returns (ok: bool)
      requires Wired()
      modifies this, tasks, ready, ready.buffer
      ensures Wired() && (View(), ok) == Scheduling.Preempt(old(View()))
    {
      hide Items;
      if !need {
        return false;
      }
      if current.None? || tasks[current.value].state != Running {
        need := false;
        return false;
      }
      SetState(current.value, Ready);
      ok := ready.Enqueue(current.value);
      if !ok {
        SetState(current.value, Running);
        assert tasks[..] == old(tasks[..]);
        need := false;
        return false;
      }
      need, preempts, current := false, preempts + 1, None;
    }

    // ---- sched_run

    method PickNextReady() returns (best: Option<Slot>)
      requires Wired()
      modifies ready, ready.buffer
      ensures Wired() && best == Best(old(View()).tasks, 128)
      ensures best.None? ==> View() == old(View())
      ensures best.Some? ==> View() == old(View()).(ready := Kept(old(View()).tasks, old(View()).ready, best.value))
    {
      best := ScanReady();
      if best.None? {
        return None;
      }
      var kept, count := DrainOthers(best.value);
      Refill(kept, count);
    }

    /** Empties the ready queue and returns the entries to keep. */
    method DrainOthers(b: Slot) returns (kept: array<nat>, count: nat)
      requires Wired()
      modifies ready
      ensures Wired() && fresh(kept) && count <= kept.Length
      ensures kept[..count] == Kept(old(View()).tasks, old(View()).ready, b)
      ensures View() == old(View()).(ready := [])
    {
      hide Items, Kept, Wrap;
      KeptNone(tasks[..], b);
      kept := new nat[128];
      count := 0;
      var attempts: nat := ready.size;
      ghost var q := ready.Contents();
      ghost var ts: Tasks := tasks[..];
      while attempts > 0
        invariant Wired() && attempts <= |q| && ready.Contents() == q[|q| - attempts..]
        invariant count <= |q| - attempts && kept[..count] == Kept(ts, q[..|q| - attempts], b)
      {
        ghost var m := |q| - attempts;
        attempts := attempts - 1;
        var ok, c := ready.Dequeue();
        KeptNext(ts, q, m, b);
        ghost var k := kept[..count];
        if c != b && c < 128 && tasks[c].state == Ready {
          kept[count] := c;
          count := count + 1;
          assert kept[..count] == k + [c];
        }
      }
      assert q[..|q|] == q;
    }

    method Refill(kept: array<nat>, count: nat)
      requires Wired() && count <= kept.Length && count <= 128 && kept != ready.buffer
      modifies ready, ready.buffer
      ensures Wired() && View() == old(View()).(ready := kept[..count])
    {
      hide Items;
      ready.Clear();
      for i := 0 to count
        invariant Wired() && ready.Contents() == kept[..i]
      {
        var ok := ready.Enqueue(kept[i]);
      }
    }

    /** The scan of the slots for the ready task with the least (vruntime, tid). */
    method ScanReady() returns (best: Option<Slot>)
      requires Wired()
      ensures best == Best(tasks[..], 128)
    {
      best := None;
      ghost var ts: Tasks := tasks[..];
      for i := 0 to 128
        invariant best == Best(ts, i)
      {
        if tasks[i].state != Ready {
          continue;
        }
        if best.None? {
          best := Some(i);
          continue;
        }
        var t, b := tasks[i], tasks[best.value];
        if t.vruntime < b.vruntime || (t.vruntime == b.vruntime && t.tid < b.tid) {
          best := Some(i);
        }
      }
    }

    method RunNext() returns (ok: bool)
      requires Wired()
      modifies this, tasks, ready, ready.buffer
      ensures Wired() && (View(), ok) == Scheduling.RunNext(old(View()))
    {
      hide Items;
      if current.Some? {
        return false;
      }
      var next := PickNextReady();
      if next.None? {
        return false;
      }
      var t := tasks[next.value];
      Put(next.value, t.(state := Running, switches := t.switches + 1));
      need := false;
      current := next;
      ok := true;
    }

    method Yield()
      requires Wired()
      modifies this, tasks, ready, ready.buffer
      ensures Wired() && View() == Scheduling.Yield(old(View()))
    {
      hide Items;
      if current.None? || tasks[current.value].state != Running {
        return;
      }
      SetState(current.value, Ready);
      var ok := ready.Enqueue(current.value);
      if !ok {
        SetState(current.value, Running);
        assert tasks[..] == old(tasks[..]);
        return;
      }
      current := None;
    }

    method Exit() returns (ok: bool)
      requires Wired()
      modifies this, tasks
      ensures Wired() && (View(), ok) == Scheduling.Exit(old(View()))
    {
      if current.None? {
        return false;
      }
      SetState(current.value, Exited);
      current := None;
      ok := true;
    }
  }
}
