/** The rendezvous send and receive of kernel/ipc/ipc.c: any number of threads over the 16 channels, every
    interleaving of the sections that hold the IPC lock. */
module Rendezvous {
  import opened Options
  import opened Words
  import opened IpcArguments

  datatype Message = Message(sender: nat, bytes: Payload)

  /** A message as one thread handed it over, or took it. */
  datatype Event = Event(thread: nat, msg: Message)

  datatype Channel = Channel(
    inUse: bool, pending: bool, generation: nat, sender: nat, size: Size, data: Buffer,
    deposits: seq<Event>, receipts: seq<Event>)   // history of the channel

  datatype Pc =
    | Idle
    | Trying(id: int, msg: Message)
    | Waiting(id: int, msg: Message, base: nat)
    | Sent(id: int, msg: Message, base: nat)      // returns 0
    | Receiving(id: int, capacity: nat)
    | Received(id: int, msg: Message, index: nat) // returns 0 with msg
    | Failed(code: int)

  datatype Sys = Sys(channels: seq<Channel>, pc: map<nat, Pc>)

  predicate ValidId(s: Sys, id: int) {
    id >= 0 && IndexOf(id) < 16 && IndexOf(id) < |s.channels| && s.channels[IndexOf(id)].inUse
  }

  function Stored(c: Channel): Message {
    Message(c.sender, c.data[..c.size])
  }

  function Deposit(c: Channel, i: nat, m: Message): Channel {
    c.(pending := true, sender := m.sender, size := |m.bytes|, data := m.bytes + c.data[|m.bytes|..],
       deposits := c.deposits + [Event(i, m)])
  }

  function Take(c: Channel, i: nat): Channel {
    c.(pending := false, generation := c.generation + 1, receipts := c.receipts + [Event(i, Stored(c))])
  }

  function At(s: Sys, i: nat, pc: Pc): Sys {
    s.(pc := s.pc[i := pc])
  }

  function With(s: Sys, k: nat, c: Channel): Sys
    requires k < |s.channels|
  {
    s.(channels := s.channels[k := c])
  }

  /** A call begins: the argument checks of either entry point. */
  ghost predicate Begin(s: Sys, t: Sys, i: nat) {
    || (exists id: int, payload: Option<seq<Byte>>, tid: nat, running: nat :: BeginSend(s, t, i, id, payload, tid, running))
    || (exists id: int, capacity: nat, nullArgument: bool :: BeginReceive(s, t, i, id, capacity, nullArgument))
  }

  predicate BeginSend(s: Sys, t: Sys, i: nat, id: int, payload: Option<seq<Byte>>, tid: nat, running: nat) {
    t == if payload.None? || |payload.value| == 0 || |payload.value| > 64 then At(s, i, Failed(-1))
         else if ResolveSender(tid, running).None? then At(s, i, Failed(-1))
         else At(s, i, Trying(id, Message(ResolveSender(tid, running).value, payload.value)))
  }

  predicate BeginReceive(s: Sys, t: Sys, i: nat, id: int, capacity: nat, nullArgument: bool) {
    t == At(s, i, if nullArgument then Failed(-1) else Receiving(id, capacity))
  }

  /** Thread i begins a call, runs one locked section, or returns to its caller. */
  ghost predicate ThreadStep(s: Sys, t: Sys, i: nat) {
    i in s.pc &&
    match s.pc[i]
    case Idle => Begin(s, t, i)
    case Trying(id, m) =>
      if !ValidId(s, id) then t == At(s, i, Failed(-2))
      else
        var c := s.channels[IndexOf(id)];
        if c.pending then t == s
        else t == At(With(s, IndexOf(id), Deposit(c, i, m)), i, Waiting(id, m, c.generation))
    case Waiting(id, m, base) =>
      if !ValidId(s, id) then t == At(s, i, Failed(-2))
      else
        var c := s.channels[IndexOf(id)];
        t == if !c.pending && c.generation != base then At(s, i, Sent(id, m, base)) else s
    case Receiving(id, capacity) =>
      if !ValidId(s, id) then t == At(s, i, Failed(-2))
      else
        var c := s.channels[IndexOf(id)];
        if !c.pending then t == s
        else if capacity < c.size then t == At(s, i, Failed(-4))
        else t == At(With(s, IndexOf(id), Take(c, i)), i, Received(id, Stored(c), c.generation))
    case Sent(_, _, _) => t == At(s, i, Idle)
    case Received(_, _, _) => t == At(s, i, Idle)
    case Failed(_) => t == At(s, i, Idle)
  }

  /** ipc_channel_create puts an unused slot into service. Channels are never taken out of service. */
  predicate CreateStep(s: Sys, t: Sys, k: nat) {
    && k < |s.channels| && !s.channels[k].inUse
    && t == With(s, k, s.channels[k].(inUse := true, pending := false, generation := 0, sender := 0, size := 0))
  }

  predicate Init(s: Sys) {
    && |s.channels| == 16
    && (forall k :: 0 <= k < 16 ==> Fresh(s.channels[k]))
    && (forall i :: i in s.pc ==> s.pc[i] == Idle)
  }

  predicate Fresh(c: Channel) {
    !c.inUse && !c.pending && c.generation == 0 && c.size == 0 && c.deposits == [] && c.receipts == []
  }

  ghost predicate Next(s: Sys, t: Sys) {
    || (exists i: nat :: ThreadStep(s, t, i))
    || (exists k: nat :: CreateStep(s, t, k))
  }

  ghost predicate Follows(ss: seq<Sys>, k: nat)
    requires k + 1 < |ss|
  {
    Next(ss[k], ss[k + 1])
  }

  ghost predicate Run(ss: seq<Sys>) {
    && |ss| > 0 && Init(ss[0])
    && forall k {:trigger Follows(ss, k)} :: 0 <= k < |ss| - 1 ==> Follows(ss, k)
  }

  // ---- The invariant ----

  /** The receipts are the first `generation` deposits, byte for byte; at most one deposit is outstanding, and the
      message buffer then holds it. */
  ghost predicate ChannelOk(c: Channel) {
    && |c.deposits| == c.generation + (if c.pending then 1 else 0)
    && |c.receipts| == c.generation
    && (forall k :: 0 <= k < c.generation ==> c.receipts[k].msg == c.deposits[k].msg)
    && (c.pending ==> Stored(c) == c.deposits[c.generation].msg)
    && (!c.inUse ==> Fresh(c))
  }

  ghost predicate Deposited(s: Sys, id: int, i: nat, m: Message, base: nat) {
    && ValidId(s, id)
    && base < |s.channels[IndexOf(id)].deposits|
    && s.channels[IndexOf(id)].deposits[base] == Event(i, m)
  }

  ghost predicate ThreadOk(s: Sys, i: nat)
    requires i in s.pc
  {
    match s.pc[i]
    case Trying(_, m) => 0 < |m.bytes|
    case Waiting(id, m, base) => Deposited(s, id, i, m, base)
    case Sent(id, m, base) => Deposited(s, id, i, m, base) && base < s.channels[IndexOf(id)].generation
    case Received(id, m, index) =>
      ValidId(s, id) && index < |s.channels[IndexOf(id)].receipts| && s.channels[IndexOf(id)].receipts[index] == Event(i, m)
    case _ => true
  }

  ghost predicate Inv(s: Sys) {
    && |s.channels| == 16
    && (forall k {:trigger ChannelOk(s.channels[k])} :: 0 <= k < 16 ==> ChannelOk(s.channels[k]))
    && (forall i {:trigger ThreadOk(s, i)} :: i in s.pc ==> ThreadOk(s, i))
  }

  /** Histories are only ever extended, and a channel in service stays in service. */
  ghost predicate Extends(c: Channel, d: Channel) {
    && c.deposits <= d.deposits && c.receipts <= d.receipts && c.generation <= d.generation && (c.inUse ==> d.inUse)
  }

  ghost predicate AllExtend(s: Sys, t: Sys) {
    && |t.channels| == |s.channels|
    && forall k {:trigger t.channels[k]} :: 0 <= k < |s.channels| ==> Extends(s.channels[k], t.channels[k])
  }

  lemma {:induction false} DepositOk(c: Channel, i: nat, m: Message)
    requires ChannelOk(c) && c.inUse && !c.pending
    ensures ChannelOk(Deposit(c, i, m)) && Extends(c, Deposit(c, i, m))
  {
    assert (m.bytes + c.data[|m.bytes|..])[..|m.bytes|] == m.bytes;
  }

  lemma {:induction false} TakeOk(c: Channel, i: nat)
    requires ChannelOk(c) && c.inUse && c.pending
    ensures ChannelOk(Take(c, i)) && Extends(c, Take(c, i))
  {
  }

  /** What a thread relies on survives any extension of the histories. */
  lemma {:induction false} ThreadKept(s: Sys, t: Sys, i: nat)
    requires i in s.pc && i in t.pc && t.pc[i] == s.pc[i] && ThreadOk(s, i) && AllExtend(s, t) && |s.channels| == 16
    ensures ThreadOk(t, i)
  {
  }

  /** A thread's own section: its channel extended, its new state justified, everything else untouched. */
  lemma {:induction false} Moved(s: Sys, t: Sys, i: nat)
    requires Inv(s) && i in s.pc && i in t.pc && t.pc == s.pc[i := t.pc[i]] && AllExtend(s, t) && ThreadOk(t, i)
    requires forall k {:trigger ChannelOk(t.channels[k])} :: 0 <= k < 16 ==> ChannelOk(t.channels[k])
    ensures Inv(t)
  {
    hide ChannelOk, ThreadOk, AllExtend;
    ExtendLength(s, t);
    forall j {:trigger ThreadOk(t, j)} | j in t.pc ensures ThreadOk(t, j) {
      if j != i {
        assert ThreadOk(s, j);
        ThreadKept(s, t, j);
      }
    }
  }

  lemma {:induction false} ExtendLength(s: Sys, t: Sys)
    requires AllExtend(s, t)
    ensures |t.channels| == |s.channels|
  {
  }

  lemma {:induction false} DepositStep(s: Sys, t: Sys, i: nat, id: int, m: Message)
    requires Inv(s) && i in s.pc && s.pc[i] == Trying(id, m) && ThreadStep(s, t, i)
    requires ValidId(s, id) && !s.channels[IndexOf(id)].pending
    ensures Inv(t) && AllExtend(s, t)
  {
    var k := IndexOf(id);
    assert ThreadOk(s, i);
    assert ChannelOk(s.channels[k]);
    DepositOk(s.channels[k], i, m);
    Moved(s, t, i);
  }

  lemma {:induction false} TakeStep(s: Sys, t: Sys, i: nat, id: int, capacity: nat)
    requires Inv(s) && i in s.pc && s.pc[i] == Receiving(id, capacity) && ThreadStep(s, t, i)
    requires ValidId(s, id) && s.channels[IndexOf(id)].pending && s.channels[IndexOf(id)].size <= capacity
    ensures Inv(t) && AllExtend(s, t)
  {
    var k := IndexOf(id);
    assert ChannelOk(s.channels[k]);
    TakeOk(s.channels[k], i);
    Moved(s, t, i);
  }

  /** The waiting sender's test succeeds exactly when its own message has been received and no other one is pending. */
  lemma {:induction false} WakesExactly(s: Sys, i: nat)
    requires Inv(s) && i in s.pc && s.pc[i].Waiting?
    ensures ValidId(s, s.pc[i].id)
    ensures var c := s.channels[IndexOf(s.pc[i].id)];
            (!c.pending && c.generation != s.pc[i].base)
            <==> (!c.pending && s.pc[i].base < |c.receipts| && c.receipts[s.pc[i].base].msg == s.pc[i].msg)
  {
    assert ThreadOk(s, i);
    assert ChannelOk(s.channels[IndexOf(s.pc[i].id)]);
  }

  lemma {:induction false} StaysPut(s: Sys, t: Sys, i: nat)
    requires Inv(s) && ThreadStep(s, t, i)
    requires t.channels == s.channels
    ensures Inv(t) && AllExtend(s, t)
  {
    assert ThreadOk(s, i);
    if s.pc[i].Waiting? {
      WakesExactly(s, i);
      assert ChannelOk(s.channels[IndexOf(s.pc[i].id)]);
    }
    Moved(s, t, i);
  }

  lemma {:induction false} ThreadInv(s: Sys, t: Sys, i: nat)
    requires Inv(s) && ThreadStep(s, t, i)
    ensures Inv(t) && AllExtend(s, t)
  {
    hide Inv, AllExtend;
    match s.pc[i]
    case Trying(id, m) =>
      if ValidId(s, id) && !s.channels[IndexOf(id)].pending {
        DepositStep(s, t, i, id, m);
      } else {
        StaysPut(s, t, i);
      }
    case Receiving(id, capacity) =>
      if ValidId(s, id) && s.channels[IndexOf(id)].pending && s.channels[IndexOf(id)].size <= capacity {
        TakeStep(s, t, i, id, capacity);
      } else {
        StaysPut(s, t, i);
      }
    case _ => StaysPut(s, t, i);
  }

  lemma {:induction false} CreateInv(s: Sys, t: Sys, k: nat)
    requires Inv(s) && CreateStep(s, t, k)
    ensures Inv(t) && AllExtend(s, t)
  {
    assert ChannelOk(s.channels[k]);
    forall j {:trigger ThreadOk(t, j)} | j in t.pc ensures ThreadOk(t, j) {
      assert ThreadOk(s, j);
      ThreadKept(s, t, j);
    }
  }

  // ---- Whole runs ----

  lemma {:induction false} NextInv(s: Sys, t: Sys)
    requires Inv(s) && Next(s, t)
    ensures Inv(t) && AllExtend(s, t)
  {
    hide Inv, AllExtend, ThreadStep, CreateStep;
    if i: nat :| ThreadStep(s, t, i) {
      ThreadInv(s, t, i);
    } else {
      var k: nat :| CreateStep(s, t, k);
      CreateInv(s, t, k);
    }
  }

  lemma {:induction false} RunInv(ss: seq<Sys>, k: nat)
    requires Run(ss) && k < |ss|
    ensures Inv(ss[k])
  {
    if k > 0 {
      RunInv(ss, k - 1);
      assert Follows(ss, k - 1);
      NextInv(ss[k - 1], ss[k]);
    }
  }

  /** Every deposit is consumed by exactly one receive, in deposit order, with identical sender and bytes; at most one
      is outstanding. */
  lemma {:induction false} Delivery(ss: seq<Sys>, k: nat, c: nat)
    requires Run(ss) && k < |ss| && c < |ss[k].channels|
    ensures var ch := ss[k].channels[c];
            && |ch.receipts| == ch.generation
            && |ch.deposits| == ch.generation + (if ch.pending then 1 else 0)
            && forall n :: 0 <= n < ch.generation ==> ch.receipts[n].msg == ch.deposits[n].msg
  {
    RunInv(ss, k);
    assert ChannelOk(ss[k].channels[c]);
  }

  /** A send that returns 0 made a deposit of its own, and that deposit has been received with the same bytes. */
  lemma {:induction false} SendMeansReceived(ss: seq<Sys>, k: nat, i: nat)
    requires Run(ss) && k < |ss| && i in ss[k].pc && ss[k].pc[i].Sent?
    ensures var (id, m, n) := (ss[k].pc[i].id, ss[k].pc[i].msg, ss[k].pc[i].base);
            && ValidId(ss[k], id)
            && n < |ss[k].channels[IndexOf(id)].receipts| <= |ss[k].channels[IndexOf(id)].deposits|
            && ss[k].channels[IndexOf(id)].deposits[n] == Event(i, m)
            && ss[k].channels[IndexOf(id)].receipts[n].msg == m
  {
    RunInv(ss, k);
    assert ThreadOk(ss[k], i);
    assert ChannelOk(ss[k].channels[IndexOf(ss[k].pc[i].id)]);
  }

  /** A receive that returns 0 took exactly one deposit of the channel it named, unchanged. */
  lemma {:induction false} ReceiveMeansSent(ss: seq<Sys>, k: nat, i: nat)
    requires Run(ss) && k < |ss| && i in ss[k].pc && ss[k].pc[i].Received?
    ensures var (id, m, n) := (ss[k].pc[i].id, ss[k].pc[i].msg, ss[k].pc[i].index);
            && ValidId(ss[k], id)
            && n < |ss[k].channels[IndexOf(id)].receipts| <= |ss[k].channels[IndexOf(id)].deposits|
            && ss[k].channels[IndexOf(id)].receipts[n] == Event(i, m)
            && ss[k].channels[IndexOf(id)].deposits[n].msg == m
  {
    RunInv(ss, k);
    assert ThreadOk(ss[k], i);
    assert ChannelOk(ss[k].channels[IndexOf(ss[k].pc[i].id)]);
  }

  /** Nothing handed over is ever lost or rewritten: histories of a later state extend those of an earlier one. */
  lemma {:induction false} HistoryGrows(ss: seq<Sys>, j: nat, k: nat, c: nat)
    requires Run(ss) && j <= k < |ss| && c < 16
    ensures |ss[j].channels| == |ss[k].channels| == 16
    ensures Extends(ss[j].channels[c], ss[k].channels[c])
    decreases k
  {
    hide Inv, Init;
    RunSixteen(ss, j);
    RunSixteen(ss, k);
    if j < k {
      HistoryGrows(ss, j, k - 1, c);
      RunInv(ss, k - 1);
      assert Follows(ss, k - 1);
      NextInv(ss[k - 1], ss[k]);
    }
  }

  lemma {:induction false} RunSixteen(ss: seq<Sys>, k: nat)
    requires Run(ss) && k < |ss|
    ensures |ss[k].channels| == 16
  {
    RunInv(ss, k);
  }

  /** A receive whose buffer is too small fails without touching any channel: the message stays pending, and the next
      receive with room for it gets it. */
  lemma {:induction false} ShortReceive(s: Sys, t: Sys, u: Sys, i: nat, j: nat)
    requires Inv(s) && i in s.pc && s.pc[i].Receiving? && ThreadStep(s, t, i) && t.pc[i] == Failed(-4)
    requires j in t.pc && t.pc[j].Receiving? && IndexOf(t.pc[j].id) == IndexOf(s.pc[i].id) && t.pc[j].id >= 0
    requires IndexOf(s.pc[i].id) < |s.channels| && s.channels[IndexOf(s.pc[i].id)].size <= t.pc[j].capacity
    requires ThreadStep(t, u, j)
    ensures t.channels == s.channels
    ensures var c := s.channels[IndexOf(s.pc[i].id)];
            && c.generation < |c.deposits|
            && j in u.pc && u.pc[j] == Received(t.pc[j].id, c.deposits[c.generation].msg, c.generation)
  {
    assert ChannelOk(s.channels[IndexOf(s.pc[i].id)]);
  }
}
