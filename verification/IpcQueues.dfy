/** The queued messages and capability transfer of kernel/ipc/ipc.c over kernel/security/capability.c: any number of
    threads, every interleaving of the sections that hold the capability lock or the IPC lock. */
module IpcQueues {
  import opened Options
  import opened Words
  import opened Ring
  import opened IpcArguments
  import opened Capabilities

  /** A capability number and the rights sent with it. */
  datatype Grant = Grant(id: nat, rights: bv16)

  datatype Message = Message(sender: nat, bytes: Payload, grant: Option<Grant>)

  /** IPC_CHANNEL_QUEUE_CAPACITY is 32. */
  type Fifo = q: seq<Message> | |q| <= 32

  datatype Channel = Channel(inUse: bool, queue: Fifo, sent: seq<Message>, received: seq<Message>)   // with its history

  datatype Pc =
    | Idle
    | Sending(id: int, msg: Message)            // arguments checked, capability validated
    | Copying(msg: Message, receiver: nat)      // message taken, capability still to be copied
    | Done(code: int)

  /** The table, the parent each copy was made from, the channels and the threads. */
  datatype Sys = Sys(caps: Table, parent: map<nat, nat>, channels: seq<Channel>, pc: map<nat, Pc>)

  predicate ValidId(s: Sys, id: int) {
    id >= 0 && IndexOf(id) < 16 && IndexOf(id) < |s.channels| && s.channels[IndexOf(id)].inUse
  }

  function At(s: Sys, i: nat, pc: Pc): Sys {
    s.(pc := s.pc[i := pc])
  }

  function Push(q: Fifo, m: Message): (r: (Fifo, int))
    ensures r.1 in {0, -3} && (r.1 == -3 <==> |q| == 32)
    ensures r.1 != 0 ==> r.0 == q
    ensures r.1 == 0 ==> |r.0| == |q| + 1 && q <= r.0 && r.0[|q|] == m
  {
    if |q| >= 32 then (q, -3) else (q + [m], 0)
  }

  function Pull(q: Fifo, capacity: nat): (r: (Fifo, int))
    ensures r.1 in {0, -3, -4} && (r.1 == -3 <==> q == []) && (r.1 == -4 <==> q != [] && |q[0].bytes| > capacity)
    ensures r.1 != 0 ==> r.0 == q
    ensures r.1 == 0 ==> q == [q[0]] + r.0
  {
    if q == [] then (q, -3) else if capacity < |q[0].bytes| then (q, -4) else (q[1..], 0)
  }

  /** The checks before a send: arguments, sender, and the capability under its lock. */
  function SendChecks(s: Sys, running: nat, id: int, payload: Option<seq<Byte>>, tid: nat, grant: Option<Grant>): Pc {
    if grant.Some? && (grant.value.id == 0 || grant.value.rights == 0) then Done(-1)
    else if payload.None? || |payload.value| == 0 || |payload.value| > 64 then Done(-1)
    else
      var sender := ResolveSender(tid, running);
      if sender.None? then Done(-1)
      else if grant.Some? && ValidateTransfer(s.caps, grant.value.id, sender.value, grant.value.rights) != 0 then Done(-4)
      else Sending(id, Message(sender.value, payload.value, grant))
  }

  predicate BeginSend(s: Sys, t: Sys, i: nat, running: nat, id: int, payload: Option<seq<Byte>>, tid: nat, grant: Option<Grant>) {
    t == At(s, i, SendChecks(s, running, id, payload, tid, grant))
  }

  predicate Enqueue(s: Sys, t: Sys, i: nat, id: int, m: Message) {
    if !ValidId(s, id) then t == At(s, i, Done(-2))
    else
      var c := s.channels[IndexOf(id)];
      var (q, code) := Push(c.queue, m);
      if code != 0 then t == At(s, i, Done(code))
      else t == At(s, i, Done(0)).(channels := s.channels[IndexOf(id) := c.(queue := q, sent := c.sent + [m])])
  }

  /** The locked section of a receive; the capability of a message is looked at only when asked for. */
  predicate Receive(s: Sys, t: Sys, i: nat, running: nat, id: int, capacity: nat, nullArgument: bool, wantsGrant: bool) {
    if nullArgument then t == At(s, i, Done(-1))
    else if !ValidId(s, id) then t == At(s, i, Done(-2))
    else
      var c := s.channels[IndexOf(id)];
      var (q, code) := Pull(c.queue, capacity);
      if code != 0 then t == At(s, i, Done(code))
      else
        var m := c.queue[0];
        t == At(s, i, if wantsGrant && m.grant.Some? then Copying(m, running) else Done(0))
             .(channels := s.channels[IndexOf(id) := c.(queue := q, received := c.received + [m])])
  }

  /** capability_copy_for_owner on behalf of the receiver; every failure becomes -5. */
  predicate Copy(s: Sys, t: Sys, i: nat, m: Message, receiver: nat) {
    m.grant.Some? &&
    var (caps, status, copy) := CopyForOwner(s.caps, m.grant.value.id, m.sender, m.grant.value.rights, receiver);
    if status != 0 then t == At(s, i, Done(-5))
    else copy > 0 && m.grant.value.id > 0
         && t == At(s, i, Done(0)).(caps := caps, parent := s.parent[copy - 1 := m.grant.value.id - 1])
  }

  datatype Op =
    | StartSend(i: nat, running: nat, id: int, payload: Option<seq<Byte>>, tid: nat, grant: Option<Grant>)
    | StartReceive(i: nat, running: nat, id: int, capacity: nat, nullArgument: bool, wantsGrant: bool)
    | Continue(i: nat)
    | NewCapability(owner: nat, objectId: nat, rights: bv16)
    | NewChannel(k: nat)

  ghost predicate Step(s: Sys, t: Sys, op: Op) {
    match op
    case StartSend(i, running, id, payload, tid, grant) =>
      i in s.pc && s.pc[i] == Idle && BeginSend(s, t, i, running, id, payload, tid, grant)
    case StartReceive(i, running, id, capacity, nullArgument, wantsGrant) =>
      i in s.pc && s.pc[i] == Idle && Receive(s, t, i, running, id, capacity, nullArgument, wantsGrant)
    case Continue(i) =>
      i in s.pc &&
      (match s.pc[i]
       case Idle => false
       case Sending(id, m) => Enqueue(s, t, i, id, m)
       case Copying(m, receiver) => Copy(s, t, i, m, receiver)
       case Done(_) => t == At(s, i, Idle))
    case NewCapability(owner, objectId, rights) => t == s.(caps := Create(s.caps, owner, objectId, rights).0)
    case NewChannel(k) =>
      k < |s.channels| && !s.channels[k].inUse && t == s.(channels := s.channels[k := s.channels[k].(inUse := true, queue := [])])
  }

  predicate Init(s: Sys) {
    && (forall n: Slot :: s.caps[n].None?) && s.parent == map[]
    && |s.channels| == 16 && (forall k :: 0 <= k < 16 ==> s.channels[k] == Channel(false, [], [], []))
    && (forall i :: i in s.pc ==> s.pc[i] == Idle)
  }

  ghost predicate Next(s: Sys, t: Sys) {
    exists op :: Step(s, t, op)
  }

  ghost predicate Follows(ss: seq<Sys>, k: nat)
    requires k + 1 < |ss|
  {
    Next(ss[k], ss[k + 1])
  }

  ghost predicate Run(ss: seq<Sys>) {
    && |ss| > 0 && Init(ss[0])
    && forall k {:trigger Follows(ss, k)} :: 0 <= k < |ss| - 1 ==> Follows(ss, k)
  }

  // ---- The invariant ----

  /** The sender still holds what it sent. */
  predicate Backed(caps: Table, m: Message) {
    m.grant.Some? ==> Sendable(caps, m.grant.value.id, m.sender, m.grant.value.rights)
  }

  /** Copy n is of its parent p: same object, rights within, from a slot that may be passed on and was filled before. */
  predicate DerivedFrom(caps: Table, n: nat, p: nat) {
    && p < n < 128 && caps[n].Some? && caps[p].Some?
    && caps[n].value.objectId == caps[p].value.objectId && Within(caps[n].value.rights, caps[p].value.rights)
    && caps[p].value.rights & TRANSFER != 0
  }

  predicate CapsOk(caps: Table, parent: map<nat, nat>) {
    && (forall m: Slot, n: Slot {:trigger caps[m], caps[n]} :: m < n && caps[n].Some? ==> caps[m].Some?)
    && (forall n: nat {:trigger n in parent} :: n in parent ==> DerivedFrom(caps, n, parent[n]))
  }

  predicate ChannelOk(caps: Table, c: Channel) {
    && c.sent == c.received + c.queue
    && (forall k :: 0 <= k < |c.queue| ==> Backed(caps, c.queue[k]))
    && (!c.inUse ==> c.queue == [])
  }

  predicate ThreadOk(caps: Table, pc: Pc) {
    match pc
    case Sending(_, m) => Backed(caps, m)
    case Copying(m, _) => m.grant.Some? && Backed(caps, m)
    case _ => true
  }

  ghost predicate Inv(s: Sys) {
    && CapsOk(s.caps, s.parent)
    && |s.channels| == 16
    && (forall k {:trigger s.channels[k]} :: 0 <= k < 16 ==> ChannelOk(s.caps, s.channels[k]))
    && (forall i {:trigger s.pc[i]} :: i in s.pc ==> ThreadOk(s.caps, s.pc[i]))
  }

  /** A slot in use never changes. */
  predicate Grows(a: Table, b: Table) {
    forall n: Slot {:trigger b[n]} :: a[n].Some? ==> b[n] == a[n]
  }

  lemma {:induction false} StillBacked(a: Table, b: Table, m: Message)
    requires Grows(a, b) && Backed(a, m)
    ensures Backed(b, m)
  {
  }

  lemma {:induction false} StillOk(s: Sys, b: Table)
    requires Inv(s) && Grows(s.caps, b)
    ensures forall k {:trigger s.channels[k]} :: 0 <= k < 16 ==> ChannelOk(b, s.channels[k])
    ensures forall i {:trigger s.pc[i]} :: i in s.pc ==> ThreadOk(b, s.pc[i])
  {
    hide Backed, Grows;
    forall m: Message {:trigger Backed(b, m)} | Backed(s.caps, m) ensures Backed(b, m) {
      StillBacked(s.caps, b, m);
    }
  }

  lemma {:induction false} FilledOk(a: Table, parent: map<nat, nat>, n: Slot, c: Capability)
    requires CapsOk(a, parent) && FirstFree(a, 0) == Some(n)
    ensures CapsOk(a[n := Some(c)], parent) && Grows(a, a[n := Some(c)])
  {
    hide FirstFree;
  }

  lemma {:induction false} NewCapabilityInv(s: Sys, t: Sys, owner: nat, objectId: nat, rights: bv16)
    requires Inv(s) && t == s.(caps := Create(s.caps, owner, objectId, rights).0)
    ensures Inv(t) && Grows(s.caps, t.caps)
  {
    hide FirstFree, CapsOk, ChannelOk, ThreadOk;
    var slot := FirstFree(s.caps, 0);
    if rights != 0 && slot.Some? {
      FilledOk(s.caps, s.parent, slot.value, Capability(owner, objectId, rights));
    }
    StillOk(s, t.caps);
  }

  /** A copy fails only when every slot is in use. */
  lemma {:induction false} CopyExact(caps: Table, m: Message, receiver: nat)
    requires m.grant.Some? && Backed(caps, m)
    ensures var (g, slot) := (m.grant.value, FirstFree(caps, 0));
            CopyForOwner(caps, g.id, m.sender, g.rights, receiver)
            == if slot.None? then (caps, -2, 0)
               else (caps[slot.value := Some(Capability(receiver, caps[g.id - 1].value.objectId, g.rights))], 0, (slot.value as nat) + 1)
  {
  }

  lemma {:induction false} CopyInv(s: Sys, t: Sys, i: nat, m: Message, receiver: nat)
    requires Inv(s) && i in s.pc && s.pc[i] == Copying(m, receiver) && Copy(s, t, i, m, receiver)
    ensures Inv(t) && Grows(s.caps, t.caps)
    ensures t.pc[i] == Done(-5) <==> forall n: Slot :: s.caps[n].Some?
  {
    hide FirstFree, ChannelOk;
    assert ThreadOk(s.caps, s.pc[i]);
    CopyExact(s.caps, m, receiver);
    var slot := FirstFree(s.caps, 0);
    if slot.Some? {
      var (n, p) := (slot.value, m.grant.value.id - 1);
      FilledOk(s.caps, s.parent, n, Capability(receiver, s.caps[p].value.objectId, m.grant.value.rights));
      assert p < n;
      assert DerivedFrom(t.caps, n, p);
    }
    StillOk(s, t.caps);
  }

  lemma {:induction false} EnqueueInv(s: Sys, t: Sys, i: nat, id: int, m: Message)
    requires Inv(s) && i in s.pc && s.pc[i] == Sending(id, m) && Enqueue(s, t, i, id, m)
    ensures Inv(t)
  {
    hide CapsOk, Backed;
    assert ThreadOk(s.caps, s.pc[i]);
    if ValidId(s, id) {
      var c := s.channels[IndexOf(id)];
      assert ChannelOk(s.caps, c);
      assert c.received + (c.queue + [m]) == (c.received + c.queue) + [m];
    }
  }

  lemma {:induction false} ReceiveInv(
      s: Sys, t: Sys, i: nat, running: nat, id: int, capacity: nat, nullArgument: bool, wantsGrant: bool)
    requires Inv(s) && i in s.pc && Receive(s, t, i, running, id, capacity, nullArgument, wantsGrant)
    ensures Inv(t)
  {
    hide CapsOk, Backed;
    if ValidId(s, id) {
      var c := s.channels[IndexOf(id)];
      assert ChannelOk(s.caps, c);
      if c.queue != [] {
        assert c.queue == [c.queue[0]] + c.queue[1..];
        assert c.received + c.queue == (c.received + [c.queue[0]]) + c.queue[1..];
      }
    }
  }

  lemma {:induction false} SendChecksOk(
      s: Sys, running: nat, id: int, payload: Option<seq<Byte>>, tid: nat, grant: Option<Grant>)
    ensures ThreadOk(s.caps, SendChecks(s, running, id, payload, tid, grant))
  {
  }

  /** A send passes its checks exactly when the payload fits, the running task speaks for itself, and the capability it
      names is its own, may be passed on and covers the rights sent; what is then to be queued is exactly what was
      given. The code of a refusal is -4 for the capability and -1 for any other argument. */
  lemma {:induction false} SendAccepted(
      s: Sys, running: nat, id: int, payload: Option<seq<Byte>>, tid: nat, grant: Option<Grant>)
    ensures var sender := if tid == 0 then running else tid;
            SendChecks(s, running, id, payload, tid, grant)
            == if !(payload.Some? && 0 < |payload.value| <= 64 && (running == 0 || sender == running)
                    && (grant.Some? ==> grant.value.id > 0 && grant.value.rights != 0)) then Done(-1)
               else if grant.Some? && !Sendable(s.caps, grant.value.id, sender, grant.value.rights) then Done(-4)
               else Sending(id, Message(sender, payload.value, grant))
  {
  }

  lemma {:induction false} StepInv(s: Sys, t: Sys, op: Op)
    requires Inv(s) && Step(s, t, op)
    ensures Inv(t) && Grows(s.caps, t.caps)
  {
    hide CapsOk, ChannelOk, ThreadOk, SendChecks, Enqueue, Receive, Copy, Create;
    match op
    case StartSend(i, running, id, payload, tid, grant) =>
      SendChecksOk(s, running, id, payload, tid, grant);
      ThreadsIdle(s);
    case StartReceive(i, running, id, capacity, nullArgument, wantsGrant) =>
      ReceiveInv(s, t, i, running, id, capacity, nullArgument, wantsGrant);
      ReceiveKeepsCaps(s, t, i, running, id, capacity, nullArgument, wantsGrant);
    case Continue(i) =>
      match s.pc[i] {
        case Sending(id, m) =>
          EnqueueInv(s, t, i, id, m);
          EnqueueKeepsCaps(s, t, i, id, m);
        case Copying(m, receiver) => CopyInv(s, t, i, m, receiver);
        case _ => ThreadsIdle(s);
      }
    case NewCapability(owner, objectId, rights) => NewCapabilityInv(s, t, owner, objectId, rights);
    case NewChannel(k) => NewChannelInv(s, t, k);
  }

  lemma {:induction false} ThreadsIdle(s: Sys)
    ensures ThreadOk(s.caps, Idle)
  {
  }

  lemma {:induction false} EnqueueKeepsCaps(s: Sys, t: Sys, i: nat, id: int, m: Message)
    requires Enqueue(s, t, i, id, m)
    ensures t.caps == s.caps && t.parent == s.parent
  {
  }

  lemma {:induction false} ReceiveKeepsCaps(
      s: Sys, t: Sys, i: nat, running: nat, id: int, capacity: nat, nullArgument: bool, wantsGrant: bool)
    requires Receive(s, t, i, running, id, capacity, nullArgument, wantsGrant)
    ensures t.caps == s.caps && t.parent == s.parent
  {
  }

  lemma {:induction false} NewChannelInv(s: Sys, t: Sys, k: nat)
    requires Inv(s) && k < |s.channels| && !s.channels[k].inUse
    requires t == s.(channels := s.channels[k := s.channels[k].(inUse := true, queue := [])])
    ensures Inv(t)
  {
    hide CapsOk, Backed;
    assert ChannelOk(s.caps, s.channels[k]);
  }

  // ---- Whole runs ----

  lemma {:induction false} InitInv(s: Sys)
    requires Init(s)
    ensures Inv(s)
  {
  }

  lemma {:induction false} RunInv(ss: seq<Sys>, k: nat)
    requires Run(ss) && k < |ss|
    ensures Inv(ss[k])
  {
    hide Inv, Init, Step;
    if k == 0 {
      InitInv(ss[0]);
    } else {
      RunInv(ss, k - 1);
      assert Follows(ss, k - 1);
      var op :| Step(ss[k - 1], ss[k], op);
      StepInv(ss[k - 1], ss[k], op);
    }
  }

  /** Slot a is slot n or one of the capabilities n was derived from. */
  predicate Ancestor(parent: map<nat, nat>, a: nat, n: nat)
    decreases n
  {
    a == n || (n in parent && parent[n] < n && Ancestor(parent, a, parent[n]))
  }

  lemma {:induction false} Confined(caps: Table, parent: map<nat, nat>, a: Slot, n: Slot)
    requires CapsOk(caps, parent) && caps[n].Some? && Ancestor(parent, a, n)
    ensures caps[a].Some? && caps[a].value.objectId == caps[n].value.objectId
    ensures Within(caps[n].value.rights, caps[a].value.rights)
    ensures a != n ==> caps[a].value.rights & TRANSFER != 0
    decreases n
  {
    if a != n {
      assert DerivedFrom(caps, n, parent[n]);
      Confined(caps, parent, a, parent[n]);
      WithinTrans(caps[n].value.rights, caps[parent[n]].value.rights, caps[a].value.rights);
    }
  }

  /** In every state of every run: a capability names the object of each capability it descends from, its rights are
      within theirs, and only capabilities with the transfer right have descendants. */
  lemma {:induction false} Confinement(ss: seq<Sys>, k: nat, a: Slot, n: Slot)
    requires Run(ss) && k < |ss| && ss[k].caps[n].Some? && Ancestor(ss[k].parent, a, n)
    ensures ss[k].caps[a].Some? && ss[k].caps[a].value.objectId == ss[k].caps[n].value.objectId
    ensures ss[k].caps[n].value.rights | ss[k].caps[a].value.rights == ss[k].caps[a].value.rights
    ensures a != n ==> ss[k].caps[a].value.rights & 0x8 != 0
  {
    RunInv(ss, k);
    Confined(ss[k].caps, ss[k].parent, a, n);
  }

  /** The map of parents only grows. */
  lemma {:induction false} ParentsKeep(s: Sys, t: Sys, op: Op)
    requires Step(s, t, op)
    ensures s.parent.Keys <= t.parent.Keys
  {
    hide SendChecks, Create, CopyForOwner, Push, Pull;
  }

  /** A slot is filled by capability_create with the record asked for, or by a copy that records its parent. */
  lemma {:induction false} SlotFilled(s: Sys, t: Sys, op: Op, r: Slot)
    requires Step(s, t, op) && s.caps[r].None? && t.caps[r].Some? && r !in t.parent
    ensures op.NewCapability? && t.caps[r].value == Capability(op.owner, op.objectId, op.rights)
  {
    hide SendChecks, FirstFree, Push, Pull;
  }

  /** Step j of the run is a capability_create that filled slot r with the record it holds in state k. */
  ghost predicate MadeAt(ss: seq<Sys>, j: nat, k: nat, r: Slot)
    requires j + 1 < |ss| && k < |ss| && ss[k].caps[r].Some?
  {
    var c := ss[k].caps[r].value;
    && ss[j].caps[r].None? && ss[j + 1].caps[r] == Some(c)
    && Step(ss[j], ss[j + 1], NewCapability(c.owner, c.objectId, c.rights))
  }

  /** A capability without a parent was made by capability_create. */
  lemma {:induction false} RootMade(ss: seq<Sys>, k: nat, r: Slot) returns (j: nat)
    requires Run(ss) && k < |ss| && ss[k].caps[r].Some? && r !in ss[k].parent
    ensures j < k && MadeAt(ss, j, k, r)
  {
    hide Inv, Step;
    assert k > 0;
    assert Follows(ss, k - 1);
    var op :| Step(ss[k - 1], ss[k], op);
    if ss[k - 1].caps[r].None? {
      SlotFilled(ss[k - 1], ss[k], op, r);
      j := k - 1;
    } else {
      RunInv(ss, k - 1);
      StepInv(ss[k - 1], ss[k], op);
      ParentsKeep(ss[k - 1], ss[k], op);
      j := RootMade(ss, k - 1, r);
    }
  }

  lemma {:induction false} RootOf(caps: Table, parent: map<nat, nat>, n: Slot) returns (r: Slot)
    requires CapsOk(caps, parent) && caps[n].Some?
    ensures Ancestor(parent, r, n) && r !in parent
    decreases n
  {
    if n in parent {
      assert DerivedFrom(caps, n, parent[n]);
      r := RootOf(caps, parent, parent[n]);
    } else {
      r := n;
    }
  }

  /** In every state of every run each capability descends from a root that capability_create made in an earlier step:
      it names the root's object, and its rights are within the rights that call gave. */
  lemma {:induction false} Rooted(ss: seq<Sys>, k: nat, n: Slot) returns (r: Slot, j: nat)
    requires Run(ss) && k < |ss| && ss[k].caps[n].Some?
    ensures Ancestor(ss[k].parent, r, n) && r !in ss[k].parent && ss[k].caps[r].Some?
    ensures j < k && MadeAt(ss, j, k, r)
    ensures ss[k].caps[n].value.objectId == ss[k].caps[r].value.objectId
    ensures ss[k].caps[n].value.rights | ss[k].caps[r].value.rights == ss[k].caps[r].value.rights
  {
    hide Run, Step;
    RunInv(ss, k);
    r := RootOf(ss[k].caps, ss[k].parent, n);
    Confined(ss[k].caps, ss[k].parent, r, n);
    j := RootMade(ss, k, r);
  }

  /** A capability, once created, is the same for the rest of the run. */
  lemma {:induction false} SlotsKeep(ss: seq<Sys>, j: nat, k: nat, n: Slot)
    requires Run(ss) && j <= k < |ss| && ss[j].caps[n].Some?
    ensures ss[k].caps[n] == ss[j].caps[n]
    decreases k
  {
    hide Inv, Init, Step;
    if j < k {
      SlotsKeep(ss, j, k - 1, n);
      RunInv(ss, k - 1);
      assert Follows(ss, k - 1);
      var op :| Step(ss[k - 1], ss[k], op);
      StepInv(ss[k - 1], ss[k], op);
    }
  }

  /** The entry is the copy that the receiving thread was to get: its own, of the sent object, with the rights sent. */
  predicate GrantedTo(caps: Table, c: Option<Capability>, pc: Pc)
    requires pc.Copying? && pc.msg.grant.Some? && Backed(caps, pc.msg)
  {
    c == Some(Capability(pc.receiver, caps[pc.msg.grant.value.id - 1].value.objectId, pc.msg.grant.value.rights))
  }

  /** Receiving an accepted capability fails with -5 exactly when all 128 slots are in use. */
  lemma {:induction false} CopyFailsOnlyWhenFull(ss: seq<Sys>, k: nat, t: Sys, i: nat)
    requires Run(ss) && k < |ss| && i in ss[k].pc && ss[k].pc[i].Copying? && Step(ss[k], t, Continue(i))
    ensures ss[k].pc[i].msg.grant.Some? && Backed(ss[k].caps, ss[k].pc[i].msg) && i in t.pc
    ensures t.pc[i] == Done(-5) <==> forall n: Slot :: ss[k].caps[n].Some?
    ensures t.pc[i] != Done(-5) ==> exists n: Slot :: ss[k].caps[n].None? && GrantedTo(ss[k].caps, t.caps[n], ss[k].pc[i])
  {
    RunInv(ss, k);
    var (m, receiver) := (ss[k].pc[i].msg, ss[k].pc[i].receiver);
    CopyInv(ss[k], t, i, m, receiver);
    assert ThreadOk(ss[k].caps, ss[k].pc[i]);
    CopyExact(ss[k].caps, m, receiver);
    if t.pc[i] != Done(-5) {
      var n := FirstFree(ss[k].caps, 0).value;
      assert ss[k].caps[n].None? && GrantedTo(ss[k].caps, t.caps[n], ss[k].pc[i]);
    }
  }

  /** Each channel delivers what was sent, once, in order and unchanged: the messages received, followed by those still
      queued, are the messages sent. */
  lemma {:induction false} InOrder(ss: seq<Sys>, k: nat, c: nat)
    requires Run(ss) && k < |ss| && c < |ss[k].channels|
    ensures ss[k].channels[c].sent == ss[k].channels[c].received + ss[k].channels[c].queue
  {
    RunInv(ss, k);
    assert ChannelOk(ss[k].caps, ss[k].channels[c]);
  }

  // ---- One channel in place

  /** A queue slot: its first size bytes are the message, the others are left from earlier ones. */
  datatype Record = Record(sender: nat, size: Size, data: Buffer, grant: Option<Grant>)

  function Stored(r: Record): Message {
    Message(r.sender, r.data[..r.size], r.grant)
  }

  function StoredAll(q: seq<Record>): (ms: seq<Message>)
    ensures |ms| == |q| && forall i :: 0 <= i < |q| ==> ms[i] == Stored(q[i])
  {
    seq(|q|, i requires 0 <= i < |q| => Stored(q[i]))
  }

  /** The byte loop of a send: overwrites the front of a slot's data. */
  method CopyIn(payload: Payload, stale: Buffer) returns (data: Buffer)
    ensures data == payload + stale[|payload|..]
  {
    data := stale;
    for i := 0 to |payload|
      invariant data == payload[..i] + stale[i..]
    {
      data := data[i := payload[i]];
    }
  }

  /** The byte loop of a receive: overwrites the front of the caller's buffer. */
  method CopyOut(data: Buffer, size: Size, payload: array<Byte>)
    requires size <= payload.Length
    modifies payload
    ensures payload[..size] == data[..size] && payload[size..] == old(payload[size..])
  {
    for i := 0 to size
      invariant payload[..i] == data[..i] && payload[size..] == old(payload[size..])
    {
      payload[i] := data[i];
    }
  }

  class MessageQueue {
    const slots: array<Record>
    var head: nat
    var tail: nat
    var count: nat

    ghost predicate Valid()
      reads this
    {
      slots.Length == 32 && head < 32 && count <= 32 && tail == Wrap(head + count, 32)
    }

    ghost function Contents(): (q: Fifo)
      requires Valid()
      reads this, slots
      ensures |q| == count
    {
      StoredAll(Items(slots[..], head, count))
    }

    constructor ()
      ensures Valid() && Contents() == [] && fresh(slots)
    {
      slots := new Record[32];
      head, tail, count := 0, 0, 0;
    }

    /** The locked section of ipc_channel_send_internal once the channel is found valid. */
    method Send(m: Message) returns (code: int)
      requires Valid()
      modifies this, slots
      ensures Valid() && code in {0, -3} && (code == -3 <==> |old(Contents())| == 32)
      ensures Contents() == if code == 0 then old(Contents()) + [m] else old(Contents())
    {
      if count >= 32 {
        return -3;
      }
      var data := CopyIn(m.bytes, slots[tail].data);
      assert data[..|m.bytes|] == m.bytes;
      AddLast(Record(m.sender, |m.bytes|, data, m.grant));
      code := 0;
    }

    method AddLast(r: Record)
      requires Valid() && count < 32
      modifies this, slots
      ensures Valid() && Contents() == old(Contents()) + [Stored(r)]
    {
      WrapIsMod(tail + 1, 32);
      slots[tail] := r;
      tail := (tail + 1) % 32;
      count := count + 1;
    }

    method RemoveFirst()
      requires Valid() && count > 0
      modifies this
      ensures Valid() && Contents() == old(Contents())[1..]
    {
      WrapIsMod(head + 1, 32);
      head := (head + 1) % 32;
      count := count - 1;
    }

    /** The locked section of ipc_channel_recv_internal: the oldest message is copied to the front of the caller's
        buffer, which is otherwise untouched. */
    method Receive(payload: array<Byte>) returns (code: int, size: Size, sender: nat, grant: Option<Grant>)
      requires Valid()
      modifies this, payload
      ensures Valid() && code in {0, -3, -4} && (code == -3 <==> old(Contents()) == [])
      ensures code == -4 <==> old(Contents()) != [] && |old(Contents())[0].bytes| > payload.Length
      ensures code != 0 ==> Contents() == old(Contents())
      ensures code == 0 ==> Contents() == old(Contents())[1..] && size <= payload.Length
                            && Message(sender, payload[..size], grant) == old(Contents())[0]
                            && payload[size..] == old(payload[size..])
      ensures code != 0 ==> payload[..] == old(payload[..])
    {
      if count == 0 {
        return -3, 0, 0, None;
      }
      var r := slots[head];
      if payload.Length < r.size {
        return -4, 0, 0, None;
      }
      CopyOut(r.data, r.size, payload);
      RemoveFirst();
      return 0, r.size, r.sender, r.grant;
    }
  }
}
