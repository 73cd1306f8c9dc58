/** How each locked section of a rendezvous send or receive ends, and a run in which a send returns. */
module RendezvousOutcomes {
  import opened Options
  import opened Words
  import opened IpcArguments
  import opened Rendezvous

  /** The low 16 bits of a non-negative identifier name one of the 16 channels, and it has been created. */
  predicate InService(s: Sys, id: int)
    requires |s.channels| == 16
  {
    id >= 0 && id % 65536 < 16 && s.channels[id % 65536].inUse
  }

  /** A send starts with exactly the identifier, sender and bytes it was given, or fails with -1. */
  lemma {:induction false} SendBegins(s: Sys, t: Sys, i: nat, id: int, payload: Option<seq<Byte>>, tid: nat, running: nat)
    requires BeginSend(s, t, i, id, payload, tid, running)
    ensures var sender := if tid == 0 then running else tid;
            t == s.(pc := s.pc[i :=
              if payload.Some? && 0 < |payload.value| <= 64 && (running == 0 || sender == running)
              then Trying(id, Message(sender, payload.value)) else Failed(-1)])
  {
  }

  /** A thread about to hand over: fails with -2 exactly on a channel not in service, is held up exactly while another
      message is pending, and otherwise its message becomes the channel's next deposit and nothing else changes. */
  lemma {:induction false} TryingExact(s: Sys, t: Sys, i: nat)
    requires Inv(s) && i in s.pc && s.pc[i].Trying? && ThreadStep(s, t, i)
    ensures var (id, m) := (s.pc[i].id, s.pc[i].msg);
            if !InService(s, id) then t == s.(pc := s.pc[i := Failed(-2)])
            else
              var c := s.channels[id % 65536];
              if c.pending then t == s
              else
                && t.pc == s.pc[i := Waiting(id, m, |c.deposits|)]
                && |t.channels| == 16 && t.channels[id % 65536].pending
                && t.channels[id % 65536].deposits == c.deposits + [Event(i, m)]
                && t.channels[id % 65536].receipts == c.receipts
                && forall k :: 0 <= k < 16 && k != id % 65536 ==> t.channels[k] == s.channels[k]
  {
    hide Deposited, ThreadOk;
    if InService(s, s.pc[i].id) {
      assert ChannelOk(s.channels[s.pc[i].id % 65536]);
    }
  }

  /** A waiting sender returns exactly when its own message has been received and no other one is pending; until then
      nothing changes, and it never fails. */
  lemma {:induction false} WaitingExact(s: Sys, t: Sys, i: nat)
    requires Inv(s) && i in s.pc && s.pc[i].Waiting? && ThreadStep(s, t, i)
    ensures InService(s, s.pc[i].id)
    ensures var (id, m, n) := (s.pc[i].id, s.pc[i].msg, s.pc[i].base);
            var c := s.channels[id % 65536];
            t == if !c.pending && n < |c.receipts| && c.receipts[n].msg == m then s.(pc := s.pc[i := Sent(id, m, n)]) else s
  {
    WakesExactly(s, i);
  }

  /** A receiver: fails with -2 exactly on a channel not in service, waits exactly while nothing is pending, fails with
      -4 exactly when the pending message does not fit, and otherwise returns that message, which is then received. */
  lemma {:induction false} ReceivingExact(s: Sys, t: Sys, i: nat)
    requires Inv(s) && i in s.pc && s.pc[i].Receiving? && ThreadStep(s, t, i)
    ensures var (id, capacity) := (s.pc[i].id, s.pc[i].capacity);
            if !InService(s, id) then t == s.(pc := s.pc[i := Failed(-2)])
            else
              var c := s.channels[id % 65536];
              if !c.pending then t == s
              else
                |c.deposits| > 0 &&
                var m := c.deposits[|c.deposits| - 1].msg;
                if |m.bytes| > capacity then t == s.(pc := s.pc[i := Failed(-4)])
                else
                  && t.pc == s.pc[i := Received(id, m, |c.receipts|)]
                  && |t.channels| == 16 && !t.channels[id % 65536].pending
                  && t.channels[id % 65536].deposits == c.deposits
                  && t.channels[id % 65536].receipts == c.receipts + [Event(i, m)]
                  && forall k :: 0 <= k < 16 && k != id % 65536 ==> t.channels[k] == s.channels[k]
  {
    hide Deposited, ThreadOk;
    if InService(s, s.pc[i].id) {
      assert ChannelOk(s.channels[s.pc[i].id % 65536]);
    }
  }

  // ---- A run in which a send returns

  lemma {:induction false} Extend(ss: seq<Sys>, t: Sys)
    requires Run(ss) && Next(ss[|ss| - 1], t)
    ensures Run(ss + [t])
  {
    hide Init, Next;
    var ts := ss + [t];
    forall k {:trigger Follows(ts, k)} | 0 <= k < |ts| - 1 ensures Follows(ts, k) {
      if k < |ss| - 1 {
        assert Follows(ss, k);
      }
    }
  }

  function Created(): Channel {
    Channel(true, false, 0, 0, 0, seq(64, _ => 0), [], [])
  }

  function Boot(): Sys {
    Sys(seq(16, _ => Created().(inUse := false)), map[0 := Idle, 1 := Idle])
  }

  /** Channel 0 is in service; thread 0 is about to send m, and thread 1 to receive into 64 bytes. */
  function Ready(m: Message): Sys {
    Boot().(channels := Boot().channels[0 := Created()], pc := map[0 := Trying(0, m), 1 := Receiving(0, 64)])
  }

  lemma {:induction false} BothBegin(running: nat, bytes: Payload) returns (ss: seq<Sys>)
    requires |bytes| > 0
    ensures Run(ss) && ss[|ss| - 1] == Ready(Message(running, bytes))
  {
    hide Run;
    var s := Boot();
    assert Run([s]) by { FirstOnly(s); }
    var t := With(s, 0, Created());
    assert CreateStep(s, t, 0);
    Extend([s], t);
    var u := At(t, 0, Trying(0, Message(running, bytes)));
    assert BeginSend(t, u, 0, 0, Some(bytes), 0, running);
    assert ThreadStep(t, u, 0);
    Extend([s] + [t], u);
    var v := At(u, 1, Receiving(0, 64));
    assert BeginReceive(u, v, 1, 0, 64, false);
    assert ThreadStep(u, v, 1);
    Extend([s] + [t] + [u], v);
    ss := [s] + [t] + [u] + [v];
    assert v.pc == Ready(Message(running, bytes)).pc;
  }

  lemma {:induction false} FirstOnly(s: Sys)
    requires Init(s)
    ensures Run([s])
  {
  }

  /** For every non-empty message there is a run in which it is sent, received whole, and the send returns. */
  lemma {:induction false} SendReturns(running: nat, bytes: Payload) returns (ss: seq<Sys>)
    requires |bytes| > 0
    ensures Run(ss)
    ensures var s := ss[|ss| - 1];
            && 0 in s.pc && s.pc[0] == Sent(0, Message(running, bytes), 0)
            && 1 in s.pc && s.pc[1] == Received(0, Message(running, bytes), 0)
  {
    hide Run, Init, Inv;
    var m := Message(running, bytes);
    ss := BothBegin(running, bytes);
    var s := Ready(m);
    var d := Deposit(Created(), 0, m);
    var t := At(With(s, 0, d), 0, Waiting(0, m, 0));
    assert ThreadStep(s, t, 0);
    Extend(ss, t);
    assert Stored(d) == m by { assert d.data[..|bytes|] == bytes; }
    var u := At(With(t, 0, Take(d, 1)), 1, Received(0, m, 0));
    assert ThreadStep(t, u, 1);
    Extend(ss + [t], u);
    var v := At(u, 0, Sent(0, m, 0));
    assert ThreadStep(u, v, 0);
    Extend(ss + [t] + [u], v);
    ss := ss + [t] + [u] + [v];
  }
}
