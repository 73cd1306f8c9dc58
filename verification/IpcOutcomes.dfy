/** How each section of a queued send or receive ends, where every message and every copied capability of a run came
    from, and a run in which a capability is passed on. */
module IpcOutcomes {
  import opened Options
  import opened Words
  import opened IpcArguments
  import opened Capabilities
  import opened IpcQueues

  /** The low 16 bits of a non-negative identifier name one of the 16 channels, and it has been created. */
  predicate InService(s: Sys, id: int)
    requires |s.channels| == 16
  {
    id >= 0 && id % 65536 < 16 && s.channels[id % 65536].inUse
  }

  /** Only channel k differs, and only in its queue and history. */
  predicate ChannelMoves(s: Sys, t: Sys, k: nat, queue: Fifo, sent: seq<Message>, received: seq<Message>)
    requires |s.channels| == 16 && k < 16
  {
    && t.caps == s.caps && t.parent == s.parent && |t.channels| == 16
    && t.channels[k] == Channel(s.channels[k].inUse, queue, sent, received)
    && forall j :: 0 <= j < 16 && j != k ==> t.channels[j] == s.channels[j]
  }

  /** A checked message is queued behind the others unless the channel is not in service (-2) or holds 32 (-3). */
  lemma {:induction false} EnqueueExact(s: Sys, t: Sys, i: nat)
    requires Inv(s) && i in s.pc && s.pc[i].Sending? && Step(s, t, Continue(i))
    ensures var (id, m) := (s.pc[i].id, s.pc[i].msg);
            if !InService(s, id) then t == s.(pc := s.pc[i := Done(-2)])
            else
              var c := s.channels[id % 65536];
              if |c.queue| == 32 then t == s.(pc := s.pc[i := Done(-3)])
              else t.pc == s.pc[i := Done(0)] && ChannelMoves(s, t, id % 65536, c.queue + [m], c.sent + [m], c.received)
  {
    hide CapsOk, ChannelOk, ThreadOk;
  }

  /** A receive gives its first argument error as -1, a channel not in service as -2, an empty queue as -3 and a buffer
      too small as -4, changing nothing; otherwise it takes the oldest message, and goes on to copy the capability
      exactly when there is one and it is wanted. */
  lemma {:induction false} ReceiveExact(s: Sys, t: Sys, op: Op)
    requires Inv(s) && op.StartReceive? && Step(s, t, op)
    ensures var i := op.i;
            if op.nullArgument then t == s.(pc := s.pc[i := Done(-1)])
            else if !InService(s, op.id) then t == s.(pc := s.pc[i := Done(-2)])
            else
              var c := s.channels[op.id % 65536];
              if c.queue == [] then t == s.(pc := s.pc[i := Done(-3)])
              else if |c.queue[0].bytes| > op.capacity then t == s.(pc := s.pc[i := Done(-4)])
              else
                && t.pc == s.pc[i := if op.wantsGrant && c.queue[0].grant.Some? then Copying(c.queue[0], op.running) else Done(0)]
                && ChannelMoves(s, t, op.id % 65536, c.queue[1..], c.sent, c.received + [c.queue[0]])
  {
    hide CapsOk, ChannelOk, ThreadOk;
  }

  /** A copy fails with -5 exactly when all 128 slots are in use, changing nothing; otherwise the receiver owns, in the
      first unused slot, the sent object with the rights sent, derived from the capability sent. */
  lemma {:induction false} CopyingExact(s: Sys, t: Sys, i: nat) returns (copy: nat)
    requires Inv(s) && i in s.pc && s.pc[i].Copying? && Step(s, t, Continue(i))
    ensures s.pc[i].msg.grant.Some? && 0 < s.pc[i].msg.grant.value.id <= 128
    ensures s.caps[s.pc[i].msg.grant.value.id - 1].Some?
    ensures var (receiver, g) := (s.pc[i].receiver, s.pc[i].msg.grant.value);
            if forall n: Slot :: s.caps[n].Some? then t == s.(pc := s.pc[i := Done(-5)])
            else
              && t.pc == s.pc[i := Done(0)] && t.channels == s.channels
              && Inserted(s.caps, Capability(receiver, s.caps[g.id - 1].value.objectId, g.rights), t.caps, copy)
              && t.parent == s.parent[copy - 1 := g.id - 1]
  {
    hide CapsOk, ChannelOk, CopyForOwner, ValidateTransfer;
    assert ThreadOk(s.caps, s.pc[i]);
    var (m, g) := (s.pc[i].msg, s.pc[i].msg.grant.value);
    copy := CopyForOwner(s.caps, g.id, m.sender, g.rights, s.pc[i].receiver).2;
    CopyForOwnerExact(s.caps, g.id, m.sender, g.rights, s.pc[i].receiver);
  }

  // ---- Where messages come from

  /** Step j of the run is a send of m on channel c: it was given that channel, those bytes and that grant, on behalf of
      that sender. */
  ghost predicate GivenAt(ss: seq<Sys>, j: nat, op: Op, c: nat, m: Message)
    requires j + 1 < |ss|
  {
    && op.StartSend? && Step(ss[j], ss[j + 1], op) && op.id >= 0 && op.id % 65536 == c
    && op.payload == Some(m.bytes) && op.grant == m.grant && m.sender == if op.tid == 0 then op.running else op.tid
  }

  lemma {:induction false} SendStarts(s: Sys, t: Sys, op: Op, i: nat)
    requires Step(s, t, op) && i in t.pc && t.pc[i].Sending? && !(i in s.pc && s.pc[i] == t.pc[i])
    ensures op.StartSend? && op.i == i
    ensures var m := t.pc[i].msg;
            op.id == t.pc[i].id && op.payload == Some(m.bytes) && op.grant == m.grant
            && m.sender == if op.tid == 0 then op.running else op.tid
  {
    hide Create, CopyForOwner, Push, Pull, ValidateTransfer, Sendable;
  }

  lemma {:induction false} SendingWasGiven(ss: seq<Sys>, k: nat, i: nat) returns (j: nat, op: Op)
    requires Run(ss) && k < |ss| && i in ss[k].pc && ss[k].pc[i].Sending? && ss[k].pc[i].id >= 0
    ensures j < k && GivenAt(ss, j, op, ss[k].pc[i].id % 65536, ss[k].pc[i].msg)
  {
    hide Step;
    assert k > 0;
    assert Follows(ss, k - 1);
    op :| Step(ss[k - 1], ss[k], op);
    if i in ss[k - 1].pc && ss[k - 1].pc[i] == ss[k].pc[i] {
      j, op := SendingWasGiven(ss, k - 1, i);
    } else {
      SendStarts(ss[k - 1], ss[k], op, i);
      j := k - 1;
    }
  }

  /** What one step adds to the messages sent on channel c was being sent there. */
  lemma {:induction false} SentGrows(s: Sys, t: Sys, op: Op, c: nat)
    requires Inv(s) && Step(s, t, op) && c < 16
    ensures |t.channels| == 16
    ensures t.channels[c].sent == s.channels[c].sent
            || (op.Continue? && op.i in s.pc && s.pc[op.i].Sending? && s.pc[op.i].id >= 0 && s.pc[op.i].id % 65536 == c
                && t.channels[c].sent == s.channels[c].sent + [s.pc[op.i].msg])
  {
    hide CapsOk, ChannelOk, ThreadOk, SendChecks, Create, CopyForOwner, Push, Pull;
  }

  /** Every message that is ever sent on a channel is what some earlier send naming that channel was given. */
  lemma {:induction false} SentWasGiven(ss: seq<Sys>, k: nat, c: nat, m: Message) returns (j: nat, op: Op)
    requires Run(ss) && k < |ss| && c < 16 && |ss[k].channels| == 16 && m in ss[k].channels[c].sent
    ensures j < k && GivenAt(ss, j, op, c, m)
  {
    hide Step, Inv, GivenAt;
    assert k > 0;
    RunInv(ss, k - 1);
    assert Follows(ss, k - 1);
    op :| Step(ss[k - 1], ss[k], op);
    SentGrows(ss[k - 1], ss[k], op, c);
    Sixteen(ss[k - 1]);
    if m in ss[k - 1].channels[c].sent {
      j, op := SentWasGiven(ss, k - 1, c, m);
    } else {
      j, op := SendingWasGiven(ss, k - 1, op.i);
    }
  }

  lemma {:induction false} Sixteen(s: Sys)
    requires Inv(s)
    ensures |s.channels| == 16
  {
  }

  // ---- Where copied capabilities come from

  lemma {:induction false} CopyStarts(s: Sys, t: Sys, op: Op, i: nat) returns (c: nat)
    requires Inv(s) && Step(s, t, op) && i in t.pc && t.pc[i].Copying? && !(i in s.pc && s.pc[i] == t.pc[i])
    ensures c < 16 && |s.channels| == 16 && t.pc[i].msg in s.channels[c].sent
  {
    hide CapsOk, ThreadOk, ValidateTransfer, Sendable, Create, CopyForOwner, Push;
    assert op.StartReceive? && op.i == i;
    c := op.id % 65536;
    var ch := s.channels[c];
    assert ChannelOk(s.caps, ch);
    assert ch.sent[|ch.received|] == ch.queue[0];
  }

  lemma {:induction false} CopyingWasGiven(ss: seq<Sys>, k: nat, i: nat) returns (j: nat, op: Op, c: nat)
    requires Run(ss) && k < |ss| && i in ss[k].pc && ss[k].pc[i].Copying?
    ensures j < k && GivenAt(ss, j, op, c, ss[k].pc[i].msg)
  {
    hide Step, Inv, GivenAt;
    assert k > 0;
    RunInv(ss, k - 1);
    assert Follows(ss, k - 1);
    op :| Step(ss[k - 1], ss[k], op);
    if i in ss[k - 1].pc && ss[k - 1].pc[i] == ss[k].pc[i] {
      j, op, c := CopyingWasGiven(ss, k - 1, i);
    } else {
      c := CopyStarts(ss[k - 1], ss[k], op, i);
      j, op := SentWasGiven(ss, k - 1, c, ss[k].pc[i].msg);
    }
  }

  /** A step that gives slot n a parent copies, for the receiver of a message, the capability sent in it. */
  lemma {:induction false} CopyMade(s: Sys, t: Sys, op: Op, n: Slot)
    requires Inv(s) && Step(s, t, op) && n in t.parent && n !in s.parent
    ensures op.Continue? && op.i in s.pc && s.pc[op.i].Copying?
    ensures var m := s.pc[op.i].msg;
            && t.caps[n].Some? && m.grant == Some(Grant(t.parent[n] + 1, t.caps[n].value.rights))
            && t.caps[n].value.owner == s.pc[op.i].receiver
            && t.parent[n] < 128 && t.caps[t.parent[n]].Some? && t.caps[t.parent[n]].value.owner == m.sender
  {
    hide CapsOk, ChannelOk, SendChecks, Create, CopyForOwner, Push, Pull, ValidateTransfer;
    assert op.Continue? && s.pc[op.i].Copying?;
    assert ThreadOk(s.caps, s.pc[op.i]);
    var _ := CopyingExact(s, t, op.i);
  }

  lemma {:induction false} ParentKept(s: Sys, t: Sys, op: Op, n: Slot)
    requires Inv(s) && Step(s, t, op) && n in s.parent
    ensures n in t.parent && t.parent[n] == s.parent[n] && t.caps[n] == s.caps[n]
    ensures t.parent[n] < 128 && s.caps[n].Some? && t.caps[t.parent[n]] == s.caps[s.parent[n]]
  {
    hide ChannelOk, SendChecks, Create, CopyForOwner, Push, Pull, ValidateTransfer, Step;
    assert DerivedFrom(s.caps, n, s.parent[n]);
    StepInv(s, t, op);
    ParentSame(s, t, op, n);
  }

  lemma {:induction false} ParentSame(s: Sys, t: Sys, op: Op, n: Slot)
    requires Inv(s) && Step(s, t, op) && n in s.parent && s.caps[n].Some?
    ensures n in t.parent && t.parent[n] == s.parent[n]
  {
    hide CapsOk, ChannelOk, SendChecks, Create, CopyForOwner, Push, Pull, ValidateTransfer;
    if op.Continue? && s.pc[op.i].Copying? {
      var _ := CopyingExact(s, t, op.i);
    }
  }

  /** In every state of every run, a copied capability was sent: an earlier send by the owner of its parent named that
      parent and exactly the rights the copy has. */
  lemma {:induction false} CopyWasSent(ss: seq<Sys>, k: nat, n: Slot) returns (j: nat, op: Op)
    requires Run(ss) && k < |ss| && n in ss[k].parent
    ensures ss[k].parent[n] < 128 && ss[k].caps[n].Some? && ss[k].caps[ss[k].parent[n]].Some?
    ensures j < k && op.StartSend? && Step(ss[j], ss[j + 1], op)
    ensures op.grant == Some(Grant(ss[k].parent[n] + 1, ss[k].caps[n].value.rights))
    ensures ss[k].caps[ss[k].parent[n]].value.owner == if op.tid == 0 then op.running else op.tid
  {
    hide Step, Inv;
    assert k > 0;
    RunInv(ss, k - 1);
    assert Follows(ss, k - 1);
    var last :| Step(ss[k - 1], ss[k], last);
    if n in ss[k - 1].parent {
      ParentKept(ss[k - 1], ss[k], last, n);
      j, op := CopyWasSent(ss, k - 1, n);
    } else {
      CopyMade(ss[k - 1], ss[k], last, n);
      var c;
      j, op, c := CopyingWasGiven(ss, k - 1, last.i);
    }
  }

  // ---- A run in which a capability is passed on

  lemma {:induction false} Extend(ss: seq<Sys>, t: Sys, op: Op)
    requires Run(ss) && Step(ss[|ss| - 1], t, op)
    ensures Run(ss + [t])
  {
    hide Init, Step;
    var ts := ss + [t];
    forall k {:trigger Follows(ts, k)} | 0 <= k < |ts| - 1 ensures Follows(ts, k) {
      if k < |ss| - 1 {
        assert Follows(ss, k);
      } else {
        assert Step(ts[k], ts[k + 1], op);
      }
    }
  }

  function Boot(): Sys {
    Sys(seq(128, _ => None), map[], seq(16, _ => Channel(false, [], [], [])), map[0 := Idle, 1 := Idle])
  }

  /** Task `owner` holds capability 1, and channel 0 is in service. */
  function Ready(c: Capability): Sys {
    Boot().(caps := Boot().caps[0 := Some(c)], channels := Boot().channels[0 := Channel(true, [], [], [])])
  }

  lemma {:induction false} SetUp(c: Capability) returns (ss: seq<Sys>)
    requires c.rights != 0
    ensures Run(ss) && ss[|ss| - 1] == Ready(c)
  {
    hide Run;
    var s := Boot();
    FirstOnly(s);
    var t := s.(caps := s.caps[0 := Some(c)]);
    Extend([s], t, NewCapability(c.owner, c.objectId, c.rights));
    var u := Ready(c);
    Extend([s] + [t], u, NewChannel(0));
    ss := [s] + [t] + [u];
  }

  lemma {:induction false} FirstOnly(s: Sys)
    requires Init(s)
    ensures Run([s])
  {
  }

  /** m is queued on channel 0, and its sender is done. */
  function Queued(c: Capability, m: Message): Sys {
    var s := Ready(c);
    s.(channels := s.channels[0 := Channel(true, [m], [m], [])], pc := s.pc[0 := Done(0)])
  }

  lemma {:induction false} SendIt(ss: seq<Sys>, c: Capability, m: Message) returns (ts: seq<Sys>)
    requires Run(ss) && ss[|ss| - 1] == Ready(c) && |m.bytes| > 0 && m.grant.Some?
    requires m.sender == c.owner && Sendable(Ready(c).caps, m.grant.value.id, c.owner, m.grant.value.rights)
    ensures Run(ts) && ts[|ts| - 1] == Queued(c, m)
  {
    hide Run, Sendable, SendChecks;
    var s := Ready(c);
    SendAccepted(s, c.owner, 0, Some(m.bytes), 0, m.grant);
    assert m.grant.value.id > 0 && m.grant.value.rights != 0 by { SendableArguments(s.caps, m.grant.value, c.owner); }
    var t := At(s, 0, Sending(0, m));
    Extend(ss, t, StartSend(0, c.owner, 0, Some(m.bytes), 0, m.grant));
    var u := Queued(c, m);
    assert u.pc == t.pc[0 := Done(0)];
    assert [] + [m] == [m];
    Extend(ss + [t], u, Continue(0));
    ts := ss + [t] + [u];
  }

  lemma {:induction false} SendableArguments(caps: Table, g: Grant, owner: nat)
    requires Sendable(caps, g.id, owner, g.rights)
    ensures 0 < g.id && g.rights != 0
  {
  }

  lemma {:induction false} ReceiveIt(ss: seq<Sys>, c: Capability, m: Message, receiver: nat) returns (ts: seq<Sys>, t: Sys)
    requires Run(ss) && ss[|ss| - 1] == Queued(c, m) && m.grant.Some?
    ensures Run(ts) && ts[|ts| - 1] == t
    ensures t == Queued(c, m).(channels := t.channels, pc := t.pc) && 1 in t.pc && t.pc[1] == Copying(m, receiver)
  {
    hide Run;
    var s := Queued(c, m);
    t := At(s, 1, Copying(m, receiver)).(channels := s.channels[0 := Channel(true, [], [m], [m])]);
    assert [m][1..] == [] && [] + [m] == [m];
    Extend(ss, t, StartReceive(1, receiver, 0, 64, false, true));
    ts := ss + [t];
  }

  /** Any task can pass any transferable capability of its own, with any of its rights, to any other task: a run exists
      in which the receiver ends up with exactly that copy. */
  lemma {:induction false} CapabilityPasses(c: Capability, rights: bv16, receiver: nat, bytes: Payload) returns (ss: seq<Sys>)
    requires c.rights & 0x8 != 0 && rights != 0 && Within(rights, c.rights) && |bytes| > 0
    ensures Run(ss)
    ensures var s := ss[|ss| - 1];
            && s.caps[0] == Some(c) && s.caps[1] == Some(Capability(receiver, c.objectId, rights))
            && s.parent == map[1 := 0] && 1 in s.pc && s.pc[1] == Done(0)
  {
    hide Run, Step;
    var m := Message(c.owner, bytes, Some(Grant(1, rights)));
    ss := SetUp(c);
    ss := SendIt(ss, c, m);
    var s;
    ss, s := ReceiveIt(ss, c, m, receiver);
    ss := CopyIt(ss, s, c, m, receiver);
  }

  lemma {:induction false} CopyIt(ss: seq<Sys>, s: Sys, c: Capability, m: Message, receiver: nat) returns (ts: seq<Sys>)
    requires Run(ss) && ss[|ss| - 1] == s && m.grant.Some? && m.grant.value.id == 1 && m.sender == c.owner
    requires Sendable(Ready(c).caps, 1, c.owner, m.grant.value.rights)
    requires s == Queued(c, m).(channels := s.channels, pc := s.pc) && 1 in s.pc && s.pc[1] == Copying(m, receiver)
    ensures Run(ts)
    ensures var t := ts[|ts| - 1];
            && t.caps == Ready(c).caps[1 := Some(Capability(receiver, c.objectId, m.grant.value.rights))]
            && t.parent == map[1 := 0] && 1 in t.pc && t.pc[1] == Done(0)
  {
    hide Run, ValidateTransfer;
    var copy := Capability(receiver, c.objectId, m.grant.value.rights);
    var t := At(s, 1, Done(0)).(caps := s.caps[1 := Some(copy)], parent := s.parent[1 := 0]);
    assert FirstFree(s.caps, 0) == Some(1);
    Extend(ss, t, Continue(1));
    ts := ss + [t];
  }
}
