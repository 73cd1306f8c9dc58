/** kernel/lib/rwlock.c under every interleaving of its single atomic operations, for any number of threads. */
module RwLock {
  import opened Counting

  /** Where a thread stands between two atomic operations. */
  datatype Pc =
    | Idle        // outside the lock
    | RSpin       // read_lock: about to load writer
    | RAdd        // saw no writer, about to increment readers
    | RCheck      // incremented, about to load writer again
    | RBack       // saw a writer, about to decrement readers
    | Reading     // read_lock returned; read_unlock will decrement readers
    | WSpin       // write_lock: about to exchange writer with 1
    | WDrain      // owns writer, waiting for readers to reach 0
    | Writing     // write_lock returned; write_unlock will store 0

  datatype Lock = Lock(pc: map<nat, Pc>, readers: nat, writer: nat)

  /** 32-bit increment and decrement. */
  function Inc(n: nat): nat { (n + 1) % 0x1_0000_0000 }
  function Dec(n: nat): nat { (n + 0xFFFF_FFFF) % 0x1_0000_0000 }

  predicate Moves(s: Lock, t: Lock, i: nat, pc: Pc, readers: nat, writer: nat) {
    t == Lock(s.pc[i := pc], readers, writer)
  }

  /** Thread i performs one atomic operation (or enters a call). */
  predicate Step(s: Lock, t: Lock, i: nat) {
    i in s.pc &&
    match s.pc[i]
    case Idle => Moves(s, t, i, RSpin, s.readers, s.writer) || Moves(s, t, i, WSpin, s.readers, s.writer)
    case RSpin => Moves(s, t, i, if s.writer != 0 then RSpin else RAdd, s.readers, s.writer)
    case RAdd => Moves(s, t, i, RCheck, Inc(s.readers), s.writer)
    case RCheck => Moves(s, t, i, if s.writer == 0 then Reading else RBack, s.readers, s.writer)
    case RBack => Moves(s, t, i, RSpin, Dec(s.readers), s.writer)
    case Reading => Moves(s, t, i, Idle, Dec(s.readers), s.writer)
    case WSpin => Moves(s, t, i, if s.writer != 0 then WSpin else WDrain, s.readers, 1)
    case WDrain => Moves(s, t, i, if s.readers != 0 then WDrain else Writing, s.readers, s.writer)
    case Writing => Moves(s, t, i, Idle, s.readers, 0)
  }

  predicate Init(s: Lock) {
    s.readers == 0 && s.writer == 0 && |s.pc| < 0x1_0000_0000 && forall i :: i in s.pc ==> s.pc[i] == Idle
  }

  ghost predicate Next(s: Lock, t: Lock) {
    exists i: nat :: Step(s, t, i)
  }

  ghost predicate Follows(ss: seq<Lock>, k: nat)
    requires k + 1 < |ss|
  {
    Next(ss[k], ss[k + 1])
  }

  ghost predicate Run(ss: seq<Lock>) {
    && |ss| > 0 && Init(ss[0])
    && forall k {:trigger Follows(ss, k)} :: 0 <= k < |ss| - 1 ==> Follows(ss, k)
  }

  predicate Counted(pc: Pc) { pc.RCheck? || pc.RBack? || pc.Reading? }

  predicate Owns(pc: Pc) { pc.WDrain? || pc.Writing? }

  function CountedThreads(s: Lock): set<nat> {
    set i | i in s.pc && Counted(s.pc[i])
  }

  function Owners(s: Lock): set<nat> {
    set i | i in s.pc && Owns(s.pc[i])
  }

  /** The counter is exactly the number of threads between increment and decrement, the flag is the number of owners,
      and a thread that writes excludes every reader. */
  ghost predicate Inv(s: Lock) {
    && |s.pc| < 0x1_0000_0000
    && s.readers == |CountedThreads(s)|
    && s.writer == |Owners(s)|
    && s.writer <= 1
    && (forall i, j :: i in s.pc && j in s.pc && s.pc[i].Writing? ==> !s.pc[j].Reading?)
  }

  lemma {:induction false} CountMoves(s: Lock, t: Lock, i: nat)
    requires i in s.pc && i in t.pc && t.pc == s.pc[i := t.pc[i]]
    ensures |CountedThreads(t)| == |CountedThreads(s)|
                                   + (if Counted(t.pc[i]) then 1 else 0) - (if Counted(s.pc[i]) then 1 else 0)
    ensures |t.pc| == |s.pc|
  {
    SizeMoves(CountedThreads(s), CountedThreads(t), i);
    assert t.pc.Keys == s.pc.Keys;
  }

  lemma {:induction false} OwnersMove(s: Lock, t: Lock, i: nat)
    requires i in s.pc && i in t.pc && t.pc == s.pc[i := t.pc[i]]
    ensures |Owners(t)| == |Owners(s)| + (if Owns(t.pc[i]) then 1 else 0) - (if Owns(s.pc[i]) then 1 else 0)
  {
    SizeMoves(Owners(s), Owners(t), i);
  }

  lemma {:induction false} CountBounds(s: Lock, i: nat)
    requires i in s.pc
    ensures Counted(s.pc[i]) ==> 1 <= |CountedThreads(s)|
    ensures |CountedThreads(s)| <= |s.pc|
    ensures !Counted(s.pc[i]) ==> |CountedThreads(s)| < |s.pc|
  {
    SubsetSize(CountedThreads(s), s.pc.Keys);
    if Counted(s.pc[i]) {
      assert i in CountedThreads(s);
    } else {
      SubsetSize(CountedThreads(s), s.pc.Keys - {i});
    }
  }

  /** A counter of zero means that no thread is inside a read section. */
  lemma {:induction false} NoneCounted(s: Lock)
    requires |CountedThreads(s)| == 0
    ensures forall j :: j in s.pc ==> !Counted(s.pc[j])
  {
    assert forall j :: j in s.pc && Counted(s.pc[j]) ==> j in CountedThreads(s);
  }

  lemma {:induction false} NoneOwns(s: Lock)
    requires |Owners(s)| == 0
    ensures forall j :: j in s.pc ==> !Owns(s.pc[j])
  {
    assert forall j :: j in s.pc && Owns(s.pc[j]) ==> j in Owners(s);
  }

  lemma {:induction false} StepInv(s: Lock, t: Lock, i: nat)
    requires Inv(s) && Step(s, t, i)
    ensures Inv(t)
  {
    hide CountedThreads, Owners;
    CountMoves(s, t, i);
    OwnersMove(s, t, i);
    CountBounds(s, i);
    if s.readers == 0 {
      NoneCounted(s);
    }
    if s.writer == 0 {
      NoneOwns(s);
    }
  }

  lemma {:induction false} InitInv(s: Lock)
    requires Init(s)
    ensures Inv(s)
  {
    assert CountedThreads(s) == {} && Owners(s) == {};
  }

  lemma {:induction false} RunInv(ss: seq<Lock>, k: nat)
    requires Run(ss) && k < |ss|
    ensures Inv(ss[k])
  {
    if k == 0 {
      InitInv(ss[0]);
    } else {
      RunInv(ss, k - 1);
      assert Follows(ss, k - 1);
      var i: nat :| Step(ss[k - 1], ss[k], i);
      StepInv(ss[k - 1], ss[k], i);
    }
  }

  /** In every state of every run: at most one writer is inside, no reader is inside with it, and the counter is the
      number of threads that have incremented and not yet decremented it. */
  lemma {:induction false} Exclusion(ss: seq<Lock>, k: nat, i: nat, j: nat)
    requires Run(ss) && k < |ss| && i in ss[k].pc && j in ss[k].pc
    ensures ss[k].pc[i].Writing? && ss[k].pc[j].Writing? ==> i == j
    ensures ss[k].pc[i].Writing? ==> !ss[k].pc[j].Reading?
    ensures ss[k].readers == |CountedThreads(ss[k])|
  {
    RunInv(ss, k);
    if ss[k].pc[i].Writing? && ss[k].pc[j].Writing? {
      AtMostOne(Owners(ss[k]), i, j);
    }
  }

  /** When every thread is outside, the lock is back in its initial state. */
  lemma {:induction false} AllOutMeansFree(ss: seq<Lock>, k: nat)
    requires Run(ss) && k < |ss| && forall i :: i in ss[k].pc ==> ss[k].pc[i].Idle?
    ensures Init(ss[k])
  {
    RunInv(ss, k);
    assert CountedThreads(ss[k]) == {} && Owners(ss[k]) == {};
  }
}
