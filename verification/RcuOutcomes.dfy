/** What each party of the read-copy-update protocol achieves: a reader gets the node published last, an update publishes
    a newer node, a retired node is reclaimed once every reader has left, and a run shows all of it happening. */
module RcuOutcomes {
  import opened Options
  import opened Rcu

  // ---- Readers

  /** A dereference returns the published node and no other; unlocking is two steps and never returns early; looking at a
      held node sees its generation. */
  lemma {:induction false} ReaderExact(s: Sys, t: Sys, i: nat)
    requires Inv(s) && ReaderStep(s, t, i)
    ensures s.reader[i].pc == Outside ==> t.reader[i].pc == Entered
    ensures s.reader[i].pc == Entered ==>
              t.reader[i].pc.Holding? && forall n: Slot :: Holds(t, i, n) <==> s.current == Some(n)
    ensures s.reader[i].pc.Holding? ==>
              || t.reader[i] == Reader(Leaving(s.reader[i].pc.node), s.reader[i].seen)
              || exists n: Slot :: Holds(s, i, n) && t.reader[i] == Reader(Holding(Some(n)), s.gen[n])
    ensures s.reader[i].pc.Leaving? ==> t.reader[i].pc == Outside
  {
    hide RolesOk, LinkedOk, TallyOk, HeldOk, GensOk;
    if s.reader[i].pc.Holding? {
      assert i in Inside(s);
      if s.reader[i].pc.node.Some? {
        assert Holds(s, i, s.reader[i].pc.node.value);
      }
    }
  }

  lemma {:induction false} CurrentNewer(s: Sys, t: Sys, a: Actor)
    requires Inv(s) && Step(s, t, a)
    ensures CurGen(s) <= CurGen(t)
  {
    hide CountOk, LinkedOk, TallyOk, HeldOk;
    match a
    case ReaderAct(i) => ReaderHolds(s, t, i);
    case UpdaterAct =>
      if s.updater.Got? && s.current.Some? {
        assert Roles(s, s.current.value) <= 1;
      }
    case ReclaimerAct => ReclaimerFrame(s, t);
  }

  /** The published generation never decreases. */
  lemma {:induction false} CurrentGrows(ss: seq<Sys>, j: nat, k: nat)
    requires Run(ss) && j <= k < |ss|
    ensures CurGen(ss[j]) <= CurGen(ss[k])
    decreases k
  {
    hide Inv, Init, Step;
    if j < k {
      CurrentGrows(ss, j, k - 1);
      RunInv(ss, k - 1);
      assert Follows(ss, k - 1);
      var a :| Step(ss[k - 1], ss[k], a);
      CurrentNewer(ss[k - 1], ss[k], a);
    }
  }

  /** A reader that had entered in state j holds, in any later state, a node at least as new as the one published in j. */
  lemma {:induction false} HeldIsFresh(ss: seq<Sys>, j: nat, k: nat, i: nat, n: Slot)
    requires Run(ss) && j <= k < |ss| && i in ss[j].reader && ss[j].reader[i].pc == Entered && Holds(ss[k], i, n)
    ensures CurGen(ss[j]) <= ss[k].gen[n]
    decreases k
  {
    hide Inv, Init, Step, CurGen;
    if j < k {
      RunInv(ss, k - 1);
      assert Follows(ss, k - 1);
      var a :| Step(ss[k - 1], ss[k], a);
      if Holds(ss[k - 1], i, n) {
        HeldIsFresh(ss, j, k - 1, i, n);
        HeldIsStable(ss[k - 1], ss[k], a, i, n);
      } else {
        NewlyHeld(ss[k - 1], ss[k], a, i, n);
        CurrentGrows(ss, j, k - 1);
      }
    }
  }

  lemma {:induction false} NewlyHeld(s: Sys, t: Sys, a: Actor, i: nat, n: Slot)
    requires Inv(s) && Step(s, t, a) && Holds(t, i, n) && !Holds(s, i, n)
    ensures t.gen[n] == CurGen(s)
  {
    hide Inv, UpdaterStep, ReclaimerStep, ReaderStep;
    match a
    case ReaderAct(j) => ReaderHolds(s, t, j);
    case UpdaterAct => UpdaterFrame(s, t);
    case ReclaimerAct => ReclaimerFrame(s, t);
  }

  /** So a look during a read section sees at least the generation that was published when the section began. */
  lemma {:induction false} LookIsFresh(ss: seq<Sys>, j: nat, k: nat, i: nat, n: Slot)
    requires Run(ss) && j <= k && k + 1 < |ss| && i in ss[j].reader && ss[j].reader[i].pc == Entered
    requires Step(ss[k], ss[k + 1], ReaderAct(i)) && i in ss[k + 1].reader
    requires i in ss[k].reader && ss[k].reader[i].pc == ss[k + 1].reader[i].pc == Holding(Some(n))
    ensures CurGen(ss[j]) <= ss[k + 1].reader[i].seen == ss[k].gen[n]
  {
    hide Run, CurGen;
    HeldIsFresh(ss, j, k, i, n);
  }

  // ---- Updater

  /** An update is dropped exactly when the pool is exhausted, and otherwise takes the first unused node; the node gets
      the next generation, newer than the published one, before it is published. */
  lemma {:induction false} UpdaterExact(s: Sys, t: Sys)
    requires Inv(s) && UpdaterStep(s, t)
    ensures s.updater == Waiting && (forall n: Slot :: s.inUse[n]) ==> t == s.(dropped := s.dropped + 1)
    ensures s.updater == Waiting && !(forall n: Slot :: s.inUse[n]) ==>
              t.updater.Got? && !s.inUse[t.updater.node] && t.inUse[t.updater.node]
              && forall m: Slot :: m < t.updater.node ==> s.inUse[m]
    ensures s.updater.Got? ==>
              t.updater == Wrote(s.updater.node) && t.gen[s.updater.node] == s.published + s.dropped + 1 > CurGen(t)
    ensures s.updater.Ready? ==>
              t.current == Some(s.updater.node) && CurGen(t) > CurGen(s) && t.updater == Published(s.current)
    ensures s.updater.Published? ==> t.published == s.published + 1
    ensures s.updater.Published? && s.updater.prev.Some? ==> t.updater == Calling(s.updater.prev.value)
    ensures s.updater.Queueing? ==> t.queue == s.queue + [s.updater.retired] && t.queued == s.queued + 1
  {
    hide CountOk, LinkedOk, TallyOk, HeldOk;
    if s.updater.Got? {
      assert Roles(s, s.updater.node) <= 1;
    }
  }

  // ---- Reclaimer

  /** Callbacks are taken oldest first; a taken node is released exactly when no reader is inside any section; then it
      is unused again and counted. */
  lemma {:induction false} ReclaimerExact(s: Sys, t: Sys)
    requires Inv(s) && ReclaimerStep(s, t)
    ensures s.reclaimer == Polling && s.queue == [] ==> t == s
    ensures s.reclaimer == Polling && s.queue != [] ==> t.reclaimer == Popped(s.queue[0]) && t.queue == s.queue[1..]
    ensures s.reclaimer.Popped? ==>
              t == if (forall i :: i in s.reader ==> s.reader[i].pc == Outside) then s.(reclaimer := Synced(s.reclaimer.node)) else s
    ensures s.reclaimer.Synced? ==> !t.inUse[s.reclaimer.node] && t.reclaimer == Freed
    ensures s.reclaimer == Freed ==> t.reclaimer == Polling && t.completed == s.completed + 1
  {
    hide RolesOk, TallyOk, HeldOk, GensOk;
    if s.reclaimer.Popped? {
      if forall i :: i in s.reader ==> s.reader[i].pc == Outside {
        assert Inside(s) == {};
      } else {
        var i :| i in s.reader && s.reader[i].pc != Outside;
        assert i in Inside(s);
      }
    }
  }

  // ---- A run in which all of this happens

  lemma {:induction false} Extend(ss: seq<Sys>, t: Sys, a: Actor)
    requires Run(ss) && Step(ss[|ss| - 1], t, a)
    ensures Run(ss + [t])
  {
    hide Init, Step;
    var ts := ss + [t];
    forall k {:trigger Follows(ts, k)} | 0 <= k < |ts| - 1 ensures Follows(ts, k) {
      if k < |ss| - 1 {
        assert Follows(ss, k);
      } else {
        assert Step(ts[k], ts[k + 1], a);
      }
    }
  }

  function Boot(): Sys {
    Sys(0, map[0 := Reader(Outside, 0)], Waiting, Polling, Some(0), seq(32, i => i == 0), seq(32, i => if i == 0 then 1 else 0),
        1, 0, seq(32, _ => None), None, None, 0, 0, [])
  }

  function Reading(): Sys {
    Boot().(readers := 1, reader := map[0 := Reader(Holding(Some(0)), 0)])
  }

  /** The reader still holds node 0; node 1 is published and node 0 is on the callback list. */
  function Retired(): Sys {
    Reading().(current := Some(1), inUse := Boot().inUse[1 := true], gen := Boot().gen[1 := 2], published := 2,
               head := Some(0), tail := Some(0), queued := 1, queue := [0])
  }

  function WaitedFor(): Sys {
    Retired().(head := None, tail := None, queue := [], reclaimer := Popped(0))
  }

  lemma {:induction false} Booted()
    ensures Run([Boot()])
  {
    var s := Boot();
    assert |s.reader| == 1;
    assert forall n: Slot :: s.inUse[n] <==> n == 0;
  }

  lemma {:induction false} ReaderEnters(ss: seq<Sys>) returns (ts: seq<Sys>)
    requires Run(ss) && ss[|ss| - 1] == Boot()
    ensures Run(ts) && ts[|ts| - 1] == Reading()
  {
    hide Run;
    var s := Boot();
    var t := At(s, 0, Entered).(readers := 1);
    assert s.reader[0].pc == Outside;
    Extend(ss, t, ReaderAct(0));
    var u := At(t, 0, Holding(t.current));
    Extend(ss + [t], u, ReaderAct(0));
    ts := ss + [t] + [u];
    assert u.reader == map[0 := Reader(Holding(Some(0)), 0)];
  }

  lemma {:induction false} UpdaterPublishes(ss: seq<Sys>) returns (ts: seq<Sys>, u: Sys)
    requires Run(ss) && ss[|ss| - 1] == Reading()
    ensures Run(ts) && ts[|ts| - 1] == u
            && u == Reading().(inUse := Boot().inUse[1 := true], gen := Boot().gen[1 := 2], current := Some(1),
                               updater := Published(Some(0)))
  {
    hide Run;
    var s := Reading();
    var s1 := s.(inUse := s.inUse[1 := true], updater := Got(1));
    assert FirstFree(s, 1);
    Extend(ss, s1, UpdaterAct);
    var s2 := s1.(gen := s1.gen[1 := 2], updater := Wrote(1));
    Extend(ss + [s1], s2, UpdaterAct);
    var s3 := s2.(updater := Ready(1, Some(0)));
    Extend(ss + [s1] + [s2], s3, UpdaterAct);
    u := s3.(current := Some(1), updater := Published(Some(0)));
    Extend(ss + [s1] + [s2] + [s3], u, UpdaterAct);
    ts := ss + [s1] + [s2] + [s3] + [u];
  }

  lemma {:induction false} UpdaterRetires(ss: seq<Sys>, s: Sys) returns (ts: seq<Sys>)
    requires Run(ss) && ss[|ss| - 1] == s
    requires s == Reading().(inUse := Boot().inUse[1 := true], gen := Boot().gen[1 := 2], current := Some(1),
                             updater := Published(Some(0)))
    ensures Run(ts) && ts[|ts| - 1] == Retired()
  {
    hide Run;
    var s1 := s.(published := 2, updater := Calling(0));
    Extend(ss, s1, UpdaterAct);
    var s2 := s1.(next := s1.next[0 := None], updater := Queueing(0));
    Extend(ss + [s1], s2, UpdaterAct);
    var s3 := Append(s2, 0);
    Extend(ss + [s1] + [s2], s3, UpdaterAct);
    ts := ss + [s1] + [s2] + [s3];
    assert s2.next == s.next;
  }

  lemma {:induction false} ReclaimerTakes(ss: seq<Sys>) returns (ts: seq<Sys>)
    requires Run(ss) && ss[|ss| - 1] == Retired()
    ensures Run(ts) && ts[|ts| - 1] == WaitedFor() && Step(WaitedFor(), WaitedFor(), ReclaimerAct)
  {
    hide Run;
    var s := Retired();
    var t := Pop(s);
    Extend(ss, t, ReclaimerAct);
    assert t.next == s.next;
    ts := ss + [t];
  }

  /** A run exists in which a reader holds the old node while a newer one is published, the old one is retired, and the
      reclaimer has taken it and waits for the reader. */
  lemma {:induction false} GracePeriod() returns (ss: seq<Sys>)
    ensures Run(ss)
    ensures var s := ss[|ss| - 1];
            && Holds(s, 0, 0) && s.current == Some(1) && s.gen[1] > s.gen[0] && s.reclaimer == Popped(0)
            && Step(s, s, ReclaimerAct)
  {
    hide Run, Step;
    Booted();
    ss := ReaderEnters([Boot()]);
    var u;
    ss, u := UpdaterPublishes(ss);
    ss := UpdaterRetires(ss, u);
    ss := ReclaimerTakes(ss);
  }
}
