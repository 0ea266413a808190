/**
 Runs of any number of readers and writers on one pipe.  The pipe lock and the
 process-table lock are modelled separately, as `sleep` and `wakeup` use them:
 `sleep` takes the table lock before it gives up the pipe lock.
 */
module PipeRuns {
  import opened Basics
  import opened PipeRing

  /** A call in progress: pipewrite with i bytes done, piperead of n bytes, or pipeclose. */
  datatype Task = Write(buf: seq<byte>, i: nat) | Read(n: nat) | Close(writable: bool)

  /**
   Where a process is in its call.  Want: waits for the pipe lock.  Have: has just got
   it.  Wake: holds it, is about to wake the other side.  Leave: is about to release it.
   Sleep1..3: in `sleep`, before taking the table lock, with both locks, with the table
   lock only.  Asleep: sleeping on the pipe.
   */
  datatype Ctl =
    | Idle
    | Want(task: Task)
    | Have(task: Task)
    | Wake(task: Task)
    | Leave
    | Sleep1(task: Task)
    | Sleep2(task: Task)
    | Sleep3(task: Task)
    | Asleep(task: Task)

  datatype State = State(
    ring: Ring,
    readopen: bool,
    writeopen: bool,
    lock: Option<nat>,
    ptable: Option<nat>,
    procs: seq<Ctl>,
    killed: set<nat>,
    /** Bytes taken in and given out so far. */
    accepted: seq<byte>,
    delivered: seq<byte>)

  datatype Label =
    | Start(p: nat, task: Task)
    | Lock(p: nat)
    | Act(p: nat)
    | WakeUp(p: nat)
    | Release(p: nat)
    | SleepTable(p: nat)
    | SleepRelease(p: nat)
    | SleepSwitch(p: nat)
    | Kill(p: nat)

  // ------------------------------------------------------------------
  // Steps

  predicate WakesReaders(t: Task) {
    t.Write? || (t.Close? && t.writable)
  }

  function WakeAll(procs: seq<Ctl>, readers: bool): (ps: seq<Ctl>)
    ensures |ps| == |procs|
    ensures forall i :: 0 <= i < |ps| ==>
              ps[i] == if procs[i].Asleep? && procs[i].task.Read? == readers then Want(procs[i].task) else procs[i]
  {
    seq(|procs|, i requires 0 <= i < |procs| =>
      if procs[i].Asleep? && procs[i].task.Read? == readers then Want(procs[i].task) else procs[i])
  }

  function FillTo(r: Ring, t: Task): (j: nat)
    requires t.Write? && t.i <= |t.buf| && Good(r)
    ensures t.i <= j <= |t.buf|
  {
    FillEnd(r, t.i, |t.buf|)
  }

  function Min(a: nat, b: nat): nat {
    if a < b then a else b
  }

  predicate HasTask(c: Ctl) {
    c.Want? || c.Have? || c.Wake? || c.Sleep1? || c.Sleep2? || c.Sleep3? || c.Asleep?
  }

  predicate Doing(c: Ctl, t: Task) {
    HasTask(c) && (c.task.Write? == t.Write?) && (c.task.Read? == t.Read?) && (t.Close? ==> c.task == t)
  }

  /** Someone is in a call of the kind of t. */
  predicate Someone(s: State, t: Task) {
    exists p :: 0 <= p < |s.procs| && Doing(s.procs[p], t)
  }

  /**
   A call may start while its end of the pipe is open; an end is closed when its last
   reference goes, so nobody is using it then, and only once.
   */
  predicate MayStart(s: State, t: Task) {
    match t
    case Write(buf, i) => i == 0 && s.writeopen && !Someone(s, Close(true))
    case Read(_) => s.readopen && !Someone(s, Close(false))
    case Close(true) => s.writeopen && !Someone(s, Write([], 0)) && !Someone(s, t)
    case Close(false) => s.readopen && !Someone(s, Read(0)) && !Someone(s, t)
  }

  /** The writer has been killed and, with the lock held, finds the pipe full after adding bytes to it. */
  predicate KilledMidWrite(s: State, p: nat)
    requires p < |s.procs| && Good(s.ring)
  {
    && s.procs[p].Have? && s.procs[p].task.Write? && s.procs[p].task.i <= |s.procs[p].task.buf|
    && p in s.killed && s.readopen
    && s.procs[p].task.i < FillTo(s.ring, s.procs[p].task) < |s.procs[p].task.buf|
  }

  /** A reader that is asleep, or has given up the pipe lock to go to sleep. */
  predicate Sleeping(c: Ctl) {
    (c.Asleep? || c.Sleep3?) && c.task.Read?
  }

  predicate ReaderAsleep(s: State) {
    exists q :: 0 <= q < |s.procs| && Sleeping(s.procs[q])
  }

  /** The case in which a wakeup is lost: the killed writer returns at once, although readers sleep. */
  predicate LosesWakeup(s: State, p: nat)
    requires p < |s.procs| && Good(s.ring)
  {
    KilledMidWrite(s, p) && ReaderAsleep(s)
  }

  predicate Ready(s: State) {
    && Good(s.ring)
    && forall p :: 0 <= p < |s.procs| && HasTask(s.procs[p]) && s.procs[p].task.Write? ==>
         s.procs[p].task.i <= |s.procs[p].task.buf|
  }

  predicate Enabled(s: State, a: Label)
    requires Ready(s)
  {
    && a.p < |s.procs|
    && var c := s.procs[a.p];
       match a
       case Start(p, t) => c.Idle? && MayStart(s, t)
       case Lock(p) => c.Want? && s.lock.None?
       case Act(p) => c.Have?
       case WakeUp(p) => c.Wake? && s.ptable.None?
       case Release(p) => c.Leave?
       case SleepTable(p) => c.Sleep1? && s.ptable.None?
       case SleepRelease(p) => c.Sleep2?
       case SleepSwitch(p) => c.Sleep3?
       case Kill(p) => s.ptable.None?
  }

  /** What the holder of the lock does before it wakes others, sleeps or leaves. */
  function ActOf(s: State, p: nat): (s': State)
    requires Ready(s) && p < |s.procs| && s.procs[p].Have?
  {
    var t := s.procs[p].task;
    match t
    case Write(buf, i) =>
      var j := FillTo(s.ring, t);
      var s1 := s.(ring := PutAll(s.ring, buf[i..j]), accepted := s.accepted + buf[i..j]);
      if j < |buf| && (!s.readopen || p in s.killed) then s1.(lock := None, procs := s.procs[p := Idle])
      else s1.(procs := s.procs[p := Wake(Write(buf, j))])
    case Read(n) =>
      if Empty(s.ring) && s.writeopen then
        if p in s.killed then s.(lock := None, procs := s.procs[p := Idle])
        else s.(procs := s.procs[p := Sleep1(t)])
      else
        var m := Min(n, Count(s.ring));
        s.(ring := TakeAll(s.ring, m), delivered := s.delivered + Window(s.ring)[..m], procs := s.procs[p := Wake(t)])
    case Close(writable) =>
      if writable then s.(writeopen := false, procs := s.procs[p := Wake(t)])
      else s.(readopen := false, procs := s.procs[p := Wake(t)])
  }

  function Next(s: State, a: Label): (s': State)
    requires Ready(s) && Enabled(s, a)
  {
    var p, c := a.p, s.procs[a.p];
    match a
    case Start(p, t) => s.(procs := s.procs[p := Want(t)])
    case Lock(p) => s.(lock := Some(p), procs := s.procs[p := Have(c.task)])
    case Act(p) => ActOf(s, p)
    case WakeUp(p) =>
      var after := if c.task.Write? && c.task.i < |c.task.buf| then Sleep1(c.task) else Leave;
      s.(procs := WakeAll(s.procs, WakesReaders(c.task))[p := after])
    case Release(p) => s.(lock := None, procs := s.procs[p := Idle])
    case SleepTable(p) => s.(ptable := Some(p), procs := s.procs[p := Sleep2(c.task)])
    case SleepRelease(p) => s.(lock := None, procs := s.procs[p := Sleep3(c.task)])
    case SleepSwitch(p) => s.(ptable := None, procs := s.procs[p := Asleep(c.task)])
    case Kill(p) =>
      s.(killed := s.killed + {p}, procs := s.procs[p := if c.Asleep? then Want(c.task) else c])
  }

  // ------------------------------------------------------------------
  // The invariant

  predicate HoldsLock(c: Ctl) {
    c.Have? || c.Wake? || c.Leave? || c.Sleep1? || c.Sleep2?
  }

  predicate HoldsTable(c: Ctl) {
    c.Sleep2? || c.Sleep3?
  }

  predicate Sleeper(c: Ctl) {
    c.Sleep1? || c.Sleep2? || c.Sleep3? || c.Asleep?
  }

  /** The holder of the lock is about to wake the readers (or the writers). */
  predicate WakePending(s: State, readers: bool) {
    && s.lock.Some? && s.lock.value < |s.procs| && s.procs[s.lock.value].Wake?
    && WakesReaders(s.procs[s.lock.value].task) == readers
  }

  predicate ReadBlocked(s: State) {
    Empty(s.ring) && s.writeopen
  }

  predicate WriteBlocked(s: State) {
    Full(s.ring) && s.readopen
  }

  /** What holds of process p. */
  predicate GoodProc(s: State, p: nat)
    requires p < |s.procs|
  {
    var c := s.procs[p];
    && (HoldsLock(c) <==> s.lock == Some(p))
    && (HoldsTable(c) <==> s.ptable == Some(p))
    && (HasTask(c) && c.task.Write? ==> c.task.i <= |c.task.buf|)
    && (Sleeper(c) ==> !c.task.Close?)
    && (Sleeper(c) && c.task.Read? ==> ReadBlocked(s) || WakePending(s, true))
    && (Sleeper(c) && c.task.Write? ==> WriteBlocked(s) || WakePending(s, false))
    && (c.Wake? && c.task.Write? && c.task.i < |c.task.buf| ==> WriteBlocked(s))
    && (HasTask(c) && c.task.Read? ==> s.readopen)
    && (HasTask(c) && c.task.Write? ==> s.writeopen)
  }

  /** An end of the pipe is not being used while it is being closed. */
  predicate ClosesAlone(s: State) {
    forall p, q :: 0 <= p < |s.procs| && 0 <= q < |s.procs|
                   && HasTask(s.procs[p]) && s.procs[p].task.Close? && HasTask(s.procs[q]) ==>
      if s.procs[p].task.writable then !s.procs[q].task.Write? else !s.procs[q].task.Read?
  }

  /** What has been accepted is what has been delivered, followed by what is in the ring. */
  predicate Fifo(s: State) {
    Ready(s) && s.accepted == s.delivered + Window(s.ring)
  }

  predicate Inv(s: State) {
    && Fifo(s)
    && (forall p :: 0 <= p < |s.procs| ==> GoodProc(s, p))
    && ClosesAlone(s)
  }

  /** Bytes stay in order in every step, whoever is killed when. */
  lemma StepKeepsFifo(s: State, a: Label)
    requires Fifo(s) && Enabled(s, a)
    ensures Fifo(Next(s, a))
  {
    if a.Act? {
      var t := s.procs[a.p].task;
      match t
      case Write(buf, i) =>
        PutAllWindow(s.ring, buf[i..FillTo(s.ring, t)]);
        Regroup(s.delivered, Window(s.ring), buf[i..FillTo(s.ring, t)]);
      case Read(n) =>
        var m := Min(n, Count(s.ring));
        TakeAllWindow(s.ring, m);
        Regroup(s.delivered, Window(s.ring)[..m], Window(TakeAll(s.ring, m)));
      case Close(_) =>
    }
  }

  // ------------------------------------------------------------------
  // Every step keeps the invariant

  lemma StartKeepsInv(s: State, p: nat, t: Task)
    requires Inv(s) && Enabled(s, Start(p, t))
    ensures Inv(Next(s, Start(p, t)))
  {
    var s' := Next(s, Start(p, t));
    forall q | 0 <= q < |s'.procs| ensures GoodProc(s', q) {
      assert GoodProc(s, q);
    }
    forall x, y | 0 <= x < |s'.procs| && 0 <= y < |s'.procs|
                  && HasTask(s'.procs[x]) && s'.procs[x].task.Close? && HasTask(s'.procs[y])
      ensures if s'.procs[x].task.writable then !s'.procs[y].task.Write? else !s'.procs[y].task.Read?
    {
      if x == p && y != p {
        assert Doing(s.procs[y], Write([], 0)) ==> Someone(s, Write([], 0));
        assert Doing(s.procs[y], Read(0)) ==> Someone(s, Read(0));
      } else if y == p && x != p {
        assert Doing(s.procs[x], s.procs[x].task);
        assert Someone(s, s.procs[x].task);
      }
    }
  }

  lemma ClosesStayAlone(s: State, s': State)
    requires ClosesAlone(s) && |s'.procs| == |s.procs|
    requires forall q :: 0 <= q < |s.procs| && HasTask(s'.procs[q]) ==>
               HasTask(s.procs[q]) && Doing(s.procs[q], s'.procs[q].task)
    ensures ClosesAlone(s')
  {
    forall x, y | 0 <= x < |s'.procs| && 0 <= y < |s'.procs|
                  && HasTask(s'.procs[x]) && s'.procs[x].task.Close? && HasTask(s'.procs[y])
      ensures if s'.procs[x].task.writable then !s'.procs[y].task.Write? else !s'.procs[y].task.Read?
    {
      assert s.procs[x].task == s'.procs[x].task;
    }
  }

  lemma LockKeepsInv(s: State, p: nat)
    requires Inv(s) && Enabled(s, Lock(p))
    ensures Inv(Next(s, Lock(p)))
  {
    var s' := Next(s, Lock(p));
    forall q | 0 <= q < |s'.procs| ensures GoodProc(s', q) {
      assert GoodProc(s, q) && GoodProc(s, p);
    }
    ClosesStayAlone(s, s');
  }

  lemma ReleaseKeepsInv(s: State, p: nat)
    requires Inv(s) && Enabled(s, Release(p))
    ensures Inv(Next(s, Release(p)))
  {
    var s' := Next(s, Release(p));
    forall q | 0 <= q < |s'.procs| ensures GoodProc(s', q) {
      assert GoodProc(s, q) && GoodProc(s, p);
    }
    ClosesStayAlone(s, s');
  }

  lemma SleepStepKeepsInv(s: State, a: Label)
    requires Inv(s) && Enabled(s, a) && (a.SleepTable? || a.SleepRelease? || a.SleepSwitch?)
    ensures Inv(Next(s, a))
  {
    var s' := Next(s, a);
    forall q | 0 <= q < |s'.procs| ensures GoodProc(s', q) {
      assert GoodProc(s, q) && GoodProc(s, a.p);
    }
    ClosesStayAlone(s, s');
  }

  lemma KillKeepsInv(s: State, p: nat)
    requires Inv(s) && Enabled(s, Kill(p))
    ensures Inv(Next(s, Kill(p)))
  {
    var s' := Next(s, Kill(p));
    forall q | 0 <= q < |s'.procs| ensures GoodProc(s', q) {
      assert GoodProc(s, q) && GoodProc(s, p);
      assert s.lock.Some? && s.lock.value < |s.procs| ==> GoodProc(s, s.lock.value);
    }
    ClosesStayAlone(s, s');
  }

  /**
   `wakeup` finds every sleeper of that side asleep: none is on its way to sleep, since
   that takes one of the two locks.
   */
  lemma WakeUpKeepsInv(s: State, p: nat)
    requires Inv(s) && Enabled(s, WakeUp(p))
    ensures Inv(Next(s, WakeUp(p)))
  {
    var s' := Next(s, WakeUp(p));
    assert GoodProc(s, p);
    forall q | 0 <= q < |s'.procs| ensures GoodProc(s', q) {
      assert GoodProc(s, q);
    }
    ClosesStayAlone(s, s');
  }

  lemma ActWriteKeepsInv(s: State, p: nat)
    requires Inv(s) && p < |s.procs| && s.procs[p].Have? && s.procs[p].task.Write? && !LosesWakeup(s, p)
    ensures Inv(ActOf(s, p))
  {
    var t := s.procs[p].task;
    var j := FillTo(s.ring, t);
    var s' := ActOf(s, p);
    assert GoodProc(s, p);
    StepKeepsFifo(s, Act(p));
    FullAndEmpty(s.ring);
    PutAllWindow(s.ring, t.buf[t.i..j]);
    FullAndEmpty(PutAll(s.ring, t.buf[t.i..j]));
    assert j == t.i ==> t.buf[t.i..j] == [];
    forall q | 0 <= q < |s'.procs| ensures GoodProc(s', q) {
      assert GoodProc(s, q);
    }
    ClosesStayAlone(s, s');
  }

  lemma ActReadKeepsInv(s: State, p: nat)
    requires Inv(s) && p < |s.procs| && s.procs[p].Have? && s.procs[p].task.Read?
    ensures Inv(ActOf(s, p))
  {
    var m := Min(s.procs[p].task.n, Count(s.ring));
    var s' := ActOf(s, p);
    assert GoodProc(s, p);
    StepKeepsFifo(s, Act(p));
    FullAndEmpty(s.ring);
    TakeAllWindow(s.ring, m);
    FullAndEmpty(TakeAll(s.ring, m));
    forall q | 0 <= q < |s'.procs| ensures GoodProc(s', q) {
      assert GoodProc(s, q);
    }
    ClosesStayAlone(s, s');
  }

  lemma ActCloseKeepsInv(s: State, p: nat)
    requires Inv(s) && p < |s.procs| && s.procs[p].Have? && s.procs[p].task.Close?
    ensures Inv(ActOf(s, p))
  {
    var s' := ActOf(s, p);
    assert GoodProc(s, p);
    forall q | 0 <= q < |s'.procs| ensures GoodProc(s', q) {
      assert GoodProc(s, q);
    }
    ClosesStayAlone(s, s');
  }

  lemma StepKeepsInv(s: State, a: Label)
    requires Inv(s) && Enabled(s, a) && (a.Act? ==> !LosesWakeup(s, a.p))
    ensures Inv(Next(s, a))
  {
    match a
    case Start(p, t) => StartKeepsInv(s, p, t);
    case Lock(p) => LockKeepsInv(s, p);
    case Act(p) =>
      match s.procs[p].task {
        case Write(_, _) => ActWriteKeepsInv(s, p);
        case Read(_) => ActReadKeepsInv(s, p);
        case Close(_) => ActCloseKeepsInv(s, p);
      }
    case WakeUp(p) => WakeUpKeepsInv(s, p);
    case Release(p) => ReleaseKeepsInv(s, p);
    case Kill(p) => KillKeepsInv(s, p);
    case SleepTable(_) => SleepStepKeepsInv(s, a);
    case SleepRelease(_) => SleepStepKeepsInv(s, a);
    case SleepSwitch(_) => SleepStepKeepsInv(s, a);
  }

  // ------------------------------------------------------------------
  // Runs

  function Boot(n: nat, r: Ring): (s: State) {
    State(r, true, true, None, None, seq(n, i => Idle), {}, [], [])
  }

  /** A run from an empty pipe; steps are defined where Ready holds, which RunKeepsFifo shows to be everywhere. */
  predicate IsRun(states: seq<State>, labels: seq<Label>) {
    && |states| == |labels| + 1
    && Good(states[0].ring) && Empty(states[0].ring) && states[0] == Boot(|states[0].procs|, states[0].ring)
    && forall k :: 0 <= k < |labels| ==> StepAt(states, labels, k)
  }

  predicate StepAt(states: seq<State>, labels: seq<Label>, k: nat)
    requires k < |labels| < |states|
  {
    Ready(states[k]) ==> Enabled(states[k], labels[k]) && states[k + 1] == Next(states[k], labels[k])
  }

  lemma {:induction false} RunKeepsFifo(states: seq<State>, labels: seq<Label>, k: nat)
    requires IsRun(states, labels) && k < |states|
    ensures Fifo(states[k])
  {
    if k == 0 {
      FullAndEmpty(states[0].ring);
    } else {
      RunKeepsFifo(states, labels, k - 1);
      assert StepAt(states, labels, k - 1);
      StepKeepsFifo(states[k - 1], labels[k - 1]);
    }
  }

  /** In every run the bytes delivered are a prefix of the bytes accepted, and the rest is the ring's window. */
  lemma DeliveredInOrder(states: seq<State>, labels: seq<Label>, k: nat)
    requires IsRun(states, labels) && k < |states|
    ensures Good(states[k].ring)
    ensures states[k].delivered <= states[k].accepted
    ensures states[k].accepted[|states[k].delivered|..] == Window(states[k].ring)
    ensures |states[k].accepted| <= |states[k].delivered| + PIPESIZE
  {
    RunKeepsFifo(states, labels, k);
  }

  /** A read of n > 0 bytes gives nothing only when the write end is closed and everything has been delivered. */
  lemma EndOfFile(states: seq<State>, labels: seq<Label>, k: nat)
    requires IsRun(states, labels) && k < |labels| && labels[k].Act?
    requires labels[k].p < |states[k].procs| && states[k].procs[labels[k].p].Have?
    requires labels[k].p < |states[k + 1].procs|
    requires states[k].procs[labels[k].p].task.Read? && states[k].procs[labels[k].p].task.n > 0
    requires states[k + 1].procs[labels[k].p].Wake? && states[k + 1].delivered == states[k].delivered
    ensures !states[k].writeopen && states[k].delivered == states[k].accepted
  {
    RunKeepsFifo(states, labels, k);
    assert StepAt(states, labels, k);
    var s := states[k];
    FullAndEmpty(s.ring);
    var m := Min(s.procs[labels[k].p].task.n, Count(s.ring));
    assert |states[k + 1].delivered| == |s.delivered| + m;
  }

  /** At no moment does a killed writer leave a pipe that it has filled while readers sleep. */
  predicate NoKilledWriter(states: seq<State>, labels: seq<Label>)
    requires IsRun(states, labels)
  {
    forall k {:trigger labels[k]} ::
      0 <= k < |labels| && labels[k].Act? && labels[k].p < |states[k].procs| && Good(states[k].ring) ==>
      !LosesWakeup(states[k], labels[k].p)
  }

  lemma {:induction false} RunKeepsInv(states: seq<State>, labels: seq<Label>, k: nat)
    requires IsRun(states, labels) && NoKilledWriter(states, labels) && k < |states|
    ensures Inv(states[k])
  {
    if k == 0 {
      RunKeepsFifo(states, labels, 0);
    } else {
      RunKeepsInv(states, labels, k - 1);
      OneStepKeepsInv(states, labels, k - 1);
    }
  }

  lemma OneStepKeepsInv(states: seq<State>, labels: seq<Label>, k: nat)
    requires IsRun(states, labels) && NoKilledWriter(states, labels) && k < |labels| && Inv(states[k])
    ensures Inv(states[k + 1])
  {
    assert StepAt(states, labels, k);
    StepKeepsInv(states[k], labels[k]);
  }

  /**
   No lost wakeup.  Whenever the pipe lock is free, a sleeping reader has an empty pipe
   with its write end open, and a sleeping writer a full pipe with its read end open.
   */
  lemma NoLostWakeup(states: seq<State>, labels: seq<Label>, k: nat, p: nat)
    requires IsRun(states, labels) && NoKilledWriter(states, labels) && k < |states| && p < |states[k].procs|
    requires states[k].lock.None? && states[k].procs[p].Asleep?
    ensures Good(states[k].ring)
    ensures states[k].procs[p].task.Read? ==> |Window(states[k].ring)| == 0 && states[k].writeopen
    ensures states[k].procs[p].task.Write? ==> |Window(states[k].ring)| == PIPESIZE && states[k].readopen
  {
    RunKeepsInv(states, labels, k);
    assert GoodProc(states[k], p);
    FullAndEmpty(states[k].ring);
  }

  // ------------------------------------------------------------------
  // A killed writer does lose a wakeup

  /** A writer killed mid-write returns without waking anybody: a sleeping reader stays asleep on a full pipe. */
  lemma KilledWriterLosesWakeup(s: State, p: nat, q: nat)
    requires Fifo(s) && p < |s.procs| && q < |s.procs| && p != q && KilledMidWrite(s, p)
    requires Sleeping(s.procs[q])
    ensures var s' := Next(s, Act(p));
            s'.lock.None? && s'.procs[q] == s.procs[q] && Good(s'.ring) && |Window(s'.ring)| == PIPESIZE
  {
    var t := s.procs[p].task;
    PutAllWindow(s.ring, t.buf[t.i..FillTo(s.ring, t)]);
  }

  /** With the lock held, a process keeps the invariant exactly when it is not such a writer. */
  lemma LostWakeupExact(s: State, p: nat)
    requires Inv(s) && p < |s.procs| && s.procs[p].Have?
    ensures Inv(Next(s, Act(p))) <==> !LosesWakeup(s, p)
  {
    if LosesWakeup(s, p) {
      var q :| 0 <= q < |s.procs| && Sleeping(s.procs[q]);
      KilledWriterLosesWakeup(s, p, q);
      var s' := Next(s, Act(p));
      FullAndEmpty(s'.ring);
      assert !GoodProc(s', q);
    } else {
      StepKeepsInv(s, Act(p));
    }
  }

  lemma ExtendRun(states: seq<State>, labels: seq<Label>, a: Label, s: State)
    requires IsRun(states, labels) && Ready(states[|labels|]) && Enabled(states[|labels|], a)
    requires s == Next(states[|labels|], a)
    ensures IsRun(states + [s], labels + [a])
  {
    forall k | 0 <= k < |labels| + 1 ensures StepAt(states + [s], labels + [a], k) {
      assert k < |labels| ==> StepAt(states, labels, k);
    }
  }

  /** A run in which a reader finds the pipe empty and calls `sleep`. */
  lemma CallingReader(r: Ring) returns (states: seq<State>, labels: seq<Label>)
    requires Good(r) && Empty(r)
    ensures IsRun(states, labels)
    ensures states[|labels|] == Boot(2, r).(lock := Some(0), procs := [Sleep1(Read(1)), Idle])
  {
    var s0 := Boot(2, r);
    var s1 := s0.(procs := [Want(Read(1)), Idle]);
    var s2 := s1.(lock := Some(0), procs := [Have(Read(1)), Idle]);
    var s3 := s2.(procs := [Sleep1(Read(1)), Idle]);
    states, labels := [s0], [];
    ExtendRun(states, labels, Start(0, Read(1)), s1);
    states, labels := states + [s1], labels + [Start(0, Read(1))];
    ExtendRun(states, labels, Lock(0), s2);
    states, labels := states + [s2], labels + [Lock(0)];
    ExtendRun(states, labels, Act(0), s3);
    states, labels := states + [s3], labels + [Act(0)];
  }

  /** A run in which a reader goes to sleep on the empty pipe. */
  lemma SleepingReader(r: Ring) returns (states: seq<State>, labels: seq<Label>)
    requires Good(r) && Empty(r)
    ensures IsRun(states, labels)
    ensures states[|labels|] == Boot(2, r).(procs := [Asleep(Read(1)), Idle])
  {
    states, labels := CallingReader(r);
    var s3 := states[|labels|];
    var s4 := s3.(ptable := Some(0), procs := [Sleep2(Read(1)), Idle]);
    var s5 := s4.(lock := None, procs := [Sleep3(Read(1)), Idle]);
    var s6 := s5.(ptable := None, procs := [Asleep(Read(1)), Idle]);
    ExtendRun(states, labels, SleepTable(0), s4);
    states, labels := states + [s4], labels + [SleepTable(0)];
    ExtendRun(states, labels, SleepRelease(0), s5);
    states, labels := states + [s5], labels + [SleepRelease(0)];
    ExtendRun(states, labels, SleepSwitch(0), s6);
    states, labels := states + [s6], labels + [SleepSwitch(0)];
  }

  /** Such a run exists: a reader goes to sleep, then a writer of 513 bytes is killed before it gets the lock. */
  lemma LostWakeupRun(r: Ring) returns (states: seq<State>, labels: seq<Label>)
    requires Good(r) && Empty(r)
    ensures IsRun(states, labels)
    ensures var s := states[|labels|];
            && s.lock.None? && |s.procs| == 2 && s.procs[0] == Asleep(Read(1))
            && Good(s.ring) && |Window(s.ring)| == PIPESIZE
  {
    states, labels := SleepingReader(r);
    var t := Write(seq(PIPESIZE + 1, i => 0 as byte), 0);
    var s6 := states[|labels|];
    var s7 := s6.(procs := [Asleep(Read(1)), Want(t)]);
    var s8 := s7.(killed := {1});
    var s9 := s8.(lock := Some(1), procs := [Asleep(Read(1)), Have(t)]);
    ExtendRun(states, labels, Start(1, t), s7);
    states, labels := states + [s7], labels + [Start(1, t)];
    ExtendRun(states, labels, Kill(1), s8);
    states, labels := states + [s8], labels + [Kill(1)];
    ExtendRun(states, labels, Lock(1), s9);
    states, labels := states + [s9], labels + [Lock(1)];
    FullAndEmpty(r);
    KilledWriterLosesWakeup(s9, 1, 0);
    ExtendRun(states, labels, Act(1), Next(s9, Act(1)));
    states, labels := states + [Next(s9, Act(1))], labels + [Act(1)];
  }
}
