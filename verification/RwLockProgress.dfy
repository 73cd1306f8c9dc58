/** What each operation on the reader-writer lock waits for, and that the lock never gets stuck: from every state of every
    run, some continuation lets every thread finish. */
module RwLockProgress {
  import opened Counting
  import opened RwLock

  /** A reader gets in exactly when no thread holds the writer flag, a writer takes the flag exactly when no thread holds
      it, and then gets in exactly when no reader is counted; nobody else is moved, and the others never wait. */
  lemma {:induction false} StepExact(s: Lock, t: Lock, i: nat)
    requires Inv(s) && Step(s, t, i)
    ensures var unheld := forall j :: j in s.pc ==> s.pc[j] !in {WDrain, Writing};
            var uncounted := forall j :: j in s.pc ==> s.pc[j] !in {RCheck, RBack, Reading};
            && i in t.pc && t.pc == s.pc[i := t.pc[i]]
            && match s.pc[i]
               case Idle => t.pc[i] in {RSpin, WSpin}
               case RSpin => t.pc[i] == if unheld then RAdd else RSpin
               case RAdd => t.pc[i] == RCheck
               case RCheck => t.pc[i] == if unheld then Reading else RBack
               case RBack => t.pc[i] == RSpin
               case Reading => t.pc[i] == Idle
               case WSpin => t.pc[i] == if unheld then WDrain else WSpin
               case WDrain => t.pc[i] == if uncounted then Writing else WDrain
               case Writing => t.pc[i] == Idle
  {
    HeldExactly(s);
  }

  lemma {:induction false} HeldExactly(s: Lock)
    requires Inv(s)
    ensures s.writer == 0 <==> forall j :: j in s.pc ==> s.pc[j] !in {WDrain, Writing}
    ensures s.readers == 0 <==> forall j :: j in s.pc ==> s.pc[j] !in {RCheck, RBack, Reading}
  {
    if s.writer == 0 {
      NoneOwns(s);
    } else {
      var j :| j in Owners(s);
    }
    if s.readers == 0 {
      NoneCounted(s);
    } else {
      var j :| j in CountedThreads(s);
    }
  }

  // ---- A measure of what is left to do

  function In(s: Lock, pc: Pc): set<nat> {
    set i | i in s.pc && s.pc[i] == pc
  }

  function Number(s: Lock, pc: Pc): nat {
    |In(s, pc)|
  }

  lemma {:induction false} NumberMoves(s: Lock, t: Lock, i: nat, pc: Pc)
    requires i in s.pc && i in t.pc && t.pc == s.pc[i := t.pc[i]]
    ensures Number(t, pc) == Number(s, pc) + (if t.pc[i] == pc then 1 else 0) - (if s.pc[i] == pc then 1 else 0)
  {
    SizeMoves(In(s, pc), In(t, pc), i);
  }

  function WriterWork(s: Lock): nat {
    3 * Number(s, WSpin) + 2 * Number(s, WDrain) + Number(s, Writing)
  }

  /** While the flag is held readers can only back off; otherwise they go in and out. */
  function ReaderWork(s: Lock): nat {
    if s.writer != 0 then 3 * Number(s, RAdd) + 2 * Number(s, RCheck) + Number(s, RBack) + Number(s, Reading)
    else 4 * Number(s, RSpin) + 3 * Number(s, RAdd) + 2 * Number(s, RCheck) + 5 * Number(s, RBack) + Number(s, Reading)
  }

  predicate ReaderMoves(s: Lock, pc: Pc) {
    pc in {RAdd, RCheck, RBack, Reading} || (pc == RSpin && s.writer == 0)
  }

  lemma {:induction false} ReaderAdvances(s: Lock, i: nat) returns (t: Lock)
    requires Inv(s) && i in s.pc && ReaderMoves(s, s.pc[i])
    ensures Step(s, t, i) && WriterWork(t) == WriterWork(s) && ReaderWork(t) < ReaderWork(s)
  {
    hide Number;
    t := if s.pc[i] == RSpin then Lock(s.pc[i := RAdd], s.readers, s.writer)
         else if s.pc[i] == RAdd then Lock(s.pc[i := RCheck], Inc(s.readers), s.writer)
         else if s.pc[i] == RCheck then Lock(s.pc[i := if s.writer == 0 then Reading else RBack], s.readers, s.writer)
         else if s.pc[i] == RBack then Lock(s.pc[i := RSpin], Dec(s.readers), s.writer)
         else Lock(s.pc[i := Idle], Dec(s.readers), s.writer);
    AllMove(s, t, i);
  }

  lemma {:induction false} AllMove(s: Lock, t: Lock, i: nat)
    requires i in s.pc && i in t.pc && t.pc == s.pc[i := t.pc[i]]
    ensures forall pc: Pc {:trigger Number(t, pc)} ::
              Number(t, pc) == Number(s, pc) + (if t.pc[i] == pc then 1 else 0) - (if s.pc[i] == pc then 1 else 0)
  {
    hide Number;
    forall pc: Pc {:trigger Number(t, pc)}
      ensures Number(t, pc) == Number(s, pc) + (if t.pc[i] == pc then 1 else 0) - (if s.pc[i] == pc then 1 else 0)
    {
      NumberMoves(s, t, i, pc);
    }
  }

  lemma {:induction false} WriterAdvances(s: Lock, i: nat) returns (t: Lock)
    requires Inv(s) && i in s.pc && forall j :: j in s.pc ==> !ReaderMoves(s, s.pc[j])
    requires s.pc[i] in {WDrain, Writing} || (s.pc[i] == WSpin && s.writer == 0)
    ensures Step(s, t, i) && WriterWork(t) < WriterWork(s)
  {
    hide Number;
    HeldExactly(s);
    assert s.readers == 0;
    t := if s.pc[i] == WSpin then Lock(s.pc[i := WDrain], s.readers, 1)
         else if s.pc[i] == WDrain then Lock(s.pc[i := Writing], s.readers, s.writer)
         else Lock(s.pc[i := Idle], s.readers, 0);
    AllMove(s, t, i);
  }

  /** Unless all threads are outside, some thread can make progress. */
  lemma {:induction false} SomeoneAdvances(s: Lock) returns (t: Lock, i: nat)
    requires Inv(s) && exists j :: j in s.pc && s.pc[j] != Idle
    ensures Step(s, t, i)
    ensures WriterWork(t) < WriterWork(s) || (WriterWork(t) == WriterWork(s) && ReaderWork(t) < ReaderWork(s))
  {
    hide Inv, Step, WriterWork, ReaderWork;
    if j :| j in s.pc && ReaderMoves(s, s.pc[j]) {
      i := j;
      t := ReaderAdvances(s, i);
    } else {
      HeldExactly(s);
      if s.writer == 0 {
        i :| i in s.pc && s.pc[i] != Idle;
      } else {
        i :| i in s.pc && s.pc[i] in {WDrain, Writing};
      }
      t := WriterAdvances(s, i);
    }
  }

  // ---- Whole runs

  lemma {:induction false} Extend(ss: seq<Lock>, t: Lock, i: nat)
    requires Run(ss) && Step(ss[|ss| - 1], t, i)
    ensures Run(ss + [t])
  {
    hide Init, Step;
    var ts := ss + [t];
    forall k {:trigger Follows(ts, k)} | 0 <= k < |ts| - 1 ensures Follows(ts, k) {
      if k < |ss| - 1 {
        assert Follows(ss, k);
      } else {
        assert Step(ts[k], ts[k + 1], i);
      }
    }
  }

  /** Every run can be continued until all threads are outside and the lock is as it was at first. */
  lemma {:induction false} NeverStuck(ss: seq<Lock>) returns (ts: seq<Lock>)
    requires Run(ss)
    ensures Run(ts) && ss <= ts && Init(ts[|ts| - 1])
    decreases WriterWork(ss[|ss| - 1]), ReaderWork(ss[|ss| - 1])
  {
    hide Inv, Step, WriterWork, ReaderWork;
    var s := ss[|ss| - 1];
    if exists j :: j in s.pc && s.pc[j] != Idle {
      RunInv(ss, |ss| - 1);
      var t, i := SomeoneAdvances(s);
      Extend(ss, t, i);
      ts := NeverStuck(ss + [t]);
    } else {
      AllOutMeansFree(ss, |ss| - 1);
      ts := ss;
    }
  }
}
