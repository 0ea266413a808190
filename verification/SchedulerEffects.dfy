/**
 What the critical sections of the process table do, process by process: who is woken,
 who is marked, who gets a new parent, and how long a process stays asleep.
 */
module SchedulerEffects {
  import opened Basics
  import opened ReadyQueue
  import opened Scheduler
  import opened SchedulerSteps
  import opened SchedulerRuns

  // ------------------------------------------------------------------
  // Waking up

  predicate SleepsOn(p: Proc, chan: nat) {
    p.state == SLEEPING && p.chan == chan
  }

  /** The positions below n of the processes of queue t that sleep on the channel, in table order. */
  function Sleepers(procs: seq<Proc>, chan: nat, t: QType, n: nat): (q: seq<nat>)
    requires n <= |procs|
  {
    if n == 0 then []
    else Sleepers(procs, chan, t, n - 1) + if SleepsOn(procs[n - 1], chan) && procs[n - 1].q == t then [n - 1] else []
  }

  lemma {:induction false} SleepersAre(procs: seq<Proc>, chan: nat, t: QType, n: nat)
    requires n <= |procs|
    ensures var q := Sleepers(procs, chan, t, n);
            && (forall i: nat :: i in q <==> i < n && SleepsOn(procs[i], chan) && procs[i].q == t)
            && (forall x, y :: 0 <= x < y < |q| ==> q[x] < q[y])
  {
    if n > 0 {
      SleepersAre(procs, chan, t, n - 1);
      var q := Sleepers(procs, chan, t, n - 1);
      forall x | 0 <= x < |q| ensures q[x] < n - 1 {
        assert q[x] in q;
      }
    }
  }

  /** p is the same process, runnable if `woken`. */
  function WokenIf(p: Proc, woken: bool): (p': Proc) {
    if woken then p.(state := RUNNABLE) else p
  }

  lemma {:induction false} WakeAt(s: Sched, chan: nat, n: nat, i: nat)
    requires n <= |s.procs| && i < |s.procs|
    ensures WakeUpto(s, chan, n).procs[i] == WokenIf(s.procs[i], i < n && SleepsOn(s.procs[i], chan))
  {
    if n > 0 {
      WakeAt(s, chan, n - 1, i);
      WakeAt(s, chan, n - 1, n - 1);
    }
  }

  lemma WakeOneQueue(s: Sched, i: nat, t: QType)
    requires i < |s.procs| && t != DEF
    ensures WakeOne(s, i).Q(t) == s.Q(t) + if s.procs[i].q == t then [i] else []
  {
  }

  lemma {:induction false} WakeQueue(s: Sched, chan: nat, n: nat, t: QType)
    requires n <= |s.procs| && t != DEF
    ensures WakeUpto(s, chan, n).Q(t) == s.Q(t) + Sleepers(s.procs, chan, t, n)
  {
    if n > 0 {
      WakeQueue(s, chan, n - 1, t);
      WakeAt(s, chan, n - 1, n - 1);
      WakeNext(WakeUpto(s, chan, n - 1), chan, n - 1, t, WakeUpto(s, chan, n));
      OneMore(s.Q(t), s.procs, chan, t, n);
    }
  }

  lemma WakeNext(before: Sched, chan: nat, i: nat, t: QType, after: Sched)
    requires i < |before.procs| && t != DEF
    requires after == if SleepsOn(before.procs[i], chan) then WakeOne(before, i) else before
    ensures after.Q(t) == before.Q(t) + if SleepsOn(before.procs[i], chan) && before.procs[i].q == t then [i] else []
  {
    WakeOneQueue(before, i, t);
  }

  lemma OneMore(q: seq<nat>, procs: seq<Proc>, chan: nat, t: QType, n: nat)
    requires 0 < n <= |procs|
    ensures q + Sleepers(procs, chan, t, n - 1)
            + (if SleepsOn(procs[n - 1], chan) && procs[n - 1].q == t then [n - 1] else []) ==
            q + Sleepers(procs, chan, t, n)
  {
  }

  /**
   `wakeup1` makes exactly the processes that sleep on the channel runnable, and each
   queue is the old one followed by those of its processes, in table order.
   */
  lemma WakeupIs(s: Sched, chan: nat, i: nat, t: QType)
    requires i < |s.procs| && t != DEF
    ensures Wakeup(s, chan).procs[i] == WokenIf(s.procs[i], s.procs[i].state == SLEEPING && s.procs[i].chan == chan)
    ensures Wakeup(s, chan).Q(t) == s.Q(t) + Sleepers(s.procs, chan, t, |s.procs|)
  {
    WakeAt(s, chan, |s.procs|, i);
    WakeQueue(s, chan, |s.procs|, t);
  }

  // ------------------------------------------------------------------
  // kill, yield and sleep

  /** `kill` marks the first process with the pid, and no other, and wakes it if it sleeps. */
  lemma KillIs(s: Sched, pid: nat, j: nat, t: QType)
    requires j < |s.procs| && t != DEF
    ensures var i := FindPid(s.procs, pid);
            && Kill(s, pid).procs[j] ==
               (if j == i then WokenIf(s.procs[j].(killed := true), s.procs[j].state == SLEEPING) else s.procs[j])
            && Kill(s, pid).Q(t) ==
               s.Q(t) + if i < |s.procs| && s.procs[i].state == SLEEPING && s.procs[i].q == t then [i] else []
  {
  }

  /** `yield` advances the round-robin counter by one, modulo 2^32, exactly for an RR process. */
  lemma YieldIs(s: Sched, i: nat, j: nat, t: QType)
    requires i < |s.procs| && j < |s.procs| && t != DEF
    ensures Yield(s, i).rrCounter == if s.procs[i].q == RR then (s.rrCounter + 1) % 0x1_0000_0000 else s.rrCounter
    ensures Yield(s, i).procs[j] ==
            if j == i then s.procs[j].(state := RUNNABLE, changing := false) else s.procs[j]
    ensures Yield(s, i).Q(t) == s.Q(t) + if s.procs[i].changing && s.procs[i].q == t then [i] else []
  {
  }

  /** q' is q without x, in the same order. */
  ghost predicate Dropped(q: seq<nat>, q': seq<nat>, x: nat) {
    exists k :: 0 <= k < |q| && q[k] == x && q' == q[..k] + q[k + 1..]
  }

  /** `sleep` records the channel, and takes the process out of its queue. */
  lemma SleepIs(s: Sched, i: nat, chan: nat, j: nat, t: QType)
    requires Inv(s) && i < |s.procs| && Active(s.procs[i]) && j < |s.procs| && t != DEF
    ensures Cleanable(s, i)
    ensures Sleep(s, i, chan).procs[j] == if j == i then s.procs[j].(chan := chan, state := SLEEPING) else s.procs[j]
    ensures if s.procs[i].q == t then Dropped(s.Q(t), Sleep(s, i, chan).Q(t), i) else Sleep(s, i, chan).Q(t) == s.Q(t)
  {
    CleanupMoves(s, i, t);
  }

  /** `change_queue` gives the process its queue, and marks it if it is running. */
  lemma ChangeIs(s: Sched, pid: nat, t: QType, j: nat)
    requires Changeable(s, pid) && j < |s.procs|
    ensures ChangeQueue(s, pid, t).procs[j] ==
            if j != FindPid(s.procs, pid) then s.procs[j]
            else s.procs[j].(q := t, changing := s.procs[j].changing || s.procs[j].state == RUNNING)
  {
  }

  /** q' is q without x, if it is to leave, and then with x behind the last, if it is to join. */
  ghost predicate Moved(q: seq<nat>, q': seq<nat>, x: nat, leaves: bool, joins: bool) {
    exists r :: Left(q, r, x, leaves) && q' == r + if joins then [x] else []
  }

  ghost predicate Left(q: seq<nat>, r: seq<nat>, x: nat, leaves: bool) {
    if leaves then Dropped(q, r, x) else r == q
  }

  /**
   A process that is in a queue leaves it.  It joins the new queue at once if it is
   runnable; a running one does so when it yields.
   */
  lemma ChangeMoves(s: Sched, pid: nat, t: QType, u: QType)
    requires Inv(s) && FindPid(s.procs, pid) < |s.procs| && u != DEF
    requires !s.procs[FindPid(s.procs, pid)].changing
    ensures Changeable(s, pid)
    ensures var i := FindPid(s.procs, pid);
            var p := s.procs[i];
            Moved(s.Q(u), ChangeQueue(s, pid, t).Q(u), i, (p.state == RUNNABLE || p.state == RUNNING) && p.q == u,
                  p.state == RUNNABLE && t == u)
  {
    var i := FindPid(s.procs, pid);
    var p := s.procs[i];
    ChangeDefined(s, pid);
    ChangedQueue(s, pid, t, u, ChangeQueue(s, pid, t));
    if p.state == RUNNABLE || p.state == RUNNING {
      CleanupMoves(s, i, u);
      MovedBy(s.Q(u), Cleanup(s, i).Q(u), i, p.q == u, p.state == RUNNABLE && t == u);
    } else {
      MovedBy(s.Q(u), s.Q(u), i, false, false);
    }
  }

  lemma MovedBy(q: seq<nat>, r: seq<nat>, x: nat, leaves: bool, joins: bool)
    requires Left(q, r, x, leaves)
    ensures Moved(q, r + if joins then [x] else [], x, leaves, joins)
  {
  }

  lemma ChangedQueue(s: Sched, pid: nat, t: QType, u: QType, s': Sched)
    requires Changeable(s, pid) && u != DEF && s' == ChangeQueue(s, pid, t)
    ensures var i := FindPid(s.procs, pid);
            var p := s.procs[i];
            s'.Q(u) == (if p.state == RUNNABLE || p.state == RUNNING then Cleanup(s, i).Q(u) else s.Q(u))
                       + if p.state == RUNNABLE && t == u then [i] else []
  {
    var i := FindPid(s.procs, pid);
    var p := s.procs[i];
    var s1 := if p.state == RUNNING || p.state == RUNNABLE then Cleanup(s, i) else s;
    EnqueueQueue(s1.SetProc(i, p.(q := t)), i, u);
  }

  lemma EnqueueQueue(s: Sched, i: nat, u: QType)
    requires i < |s.procs| && u != DEF
    ensures Enqueue(s, i).Q(u) == s.Q(u) + if s.procs[i].q == u then [i] else []
  {
  }

  lemma CleanupMoves(s: Sched, i: nat, u: QType)
    requires Inv(s) && i < |s.procs| && Active(s.procs[i]) && u != DEF
    ensures Cleanable(s, i)
    ensures if s.procs[i].q == u then Dropped(s.Q(u), Cleanup(s, i).Q(u), i) else Cleanup(s, i).Q(u) == s.Q(u)
  {
    RemovedIs(s, i, s.procs[i].q);
  }

  // ------------------------------------------------------------------
  // exit

  /** One of the first n processes is a zombie child of process x. */
  ghost predicate ZombieChild(procs: seq<Proc>, x: nat, n: nat)
    requires n <= |procs|
  {
    exists j :: 0 <= j < n && procs[j].parent == x && procs[j].state == ZOMBIE
  }

  /** p with a new parent, if it is a child of process x. */
  function Adopted(p: Proc, x: nat, init: nat): (p': Proc) {
    if p.parent == x then p.(parent := init) else p
  }

  lemma {:induction false} ReparentAt(s: Sched, x: nat, init: nat, n: nat, j: nat)
    requires n <= |s.procs| && j < |s.procs|
    ensures ReparentUpto(s, x, init, n).procs[j] ==
            WokenIf(if j < n then Adopted(s.procs[j], x, init) else s.procs[j],
                    SleepsOn(s.procs[j], init) && ZombieChild(s.procs, x, n))
  {
    if n > 0 {
      ReparentAt(s, x, init, n - 1, j);
      ReparentAt(s, x, init, n - 1, n - 1);
      ReparentOneAt(ReparentUpto(s, x, init, n - 1), x, init, n - 1, j);
      ZombieNext(s.procs, x, n);
    }
  }

  lemma ReparentOneAt(s: Sched, x: nat, init: nat, k: nat, j: nat)
    requires k < |s.procs| && j < |s.procs|
    ensures ReparentOne(s, x, init, k).procs[j] ==
            WokenIf(if j == k then Adopted(s.procs[j], x, init) else s.procs[j],
                    SleepsOn(s.procs[j], init) && s.procs[k].parent == x && s.procs[k].state == ZOMBIE)
  {
    var s1 := s.SetProc(k, s.procs[k].(parent := init));
    WakeAt(s1, init, |s1.procs|, j);
  }

  lemma ZombieNext(procs: seq<Proc>, x: nat, n: nat)
    requires 0 < n <= |procs|
    ensures ZombieChild(procs, x, n) <==>
            ZombieChild(procs, x, n - 1) || (procs[n - 1].parent == x && procs[n - 1].state == ZOMBIE)
  {
  }

  /**
   `exit` ends as a zombie.  It wakes exactly the processes that sleep on the channel of its
   parent and, if it leaves a zombie child behind, on that of init; exactly its children
   get init as their parent.
   */
  lemma ExitIs(s: Sched, i: nat, init: nat, j: nat)
    requires Cleanable(s, i) && j < |s.procs| && s.procs[i].state == RUNNING && s.procs[i].parent != i
    ensures Exit(s, i, init).procs[j] ==
            if j == i then s.procs[j].(state := ZOMBIE)
            else
              WokenIf(if s.procs[j].parent == i then s.procs[j].(parent := init) else s.procs[j],
                      || SleepsOn(s.procs[j], s.procs[i].parent)
                      || (SleepsOn(s.procs[j], init) && ZombieChild(s.procs, i, |s.procs|)))
  {
    ExitFromAt(Cleanup(s, i), i, init, s.procs[i].parent, j);
    ExitFromAt(Cleanup(s, i), i, init, s.procs[i].parent, i);
  }

  lemma ExitFromAt(c: Sched, i: nat, init: nat, parent: nat, j: nat)
    requires i < |c.procs| && j < |c.procs|
    ensures var s1 := Wakeup(c, parent);
            ReparentUpto(s1, i, init, |s1.procs|).procs[j] ==
            WokenIf(Adopted(c.procs[j], i, init),
                    || SleepsOn(c.procs[j], parent)
                    || (SleepsOn(c.procs[j], init) && ZombieChild(c.procs, i, |c.procs|)))
  {
    var s1 := Wakeup(c, parent);
    WakeAt(c, parent, |c.procs|, j);
    ReparentAt(s1, i, init, |s1.procs|, j);
    ZombiesStay(c, parent, i);
  }

  lemma ZombiesStay(s: Sched, chan: nat, x: nat)
    ensures ZombieChild(Wakeup(s, chan).procs, x, |s.procs|) <==> ZombieChild(s.procs, x, |s.procs|)
  {
    forall j: nat | j < |s.procs|
      ensures Wakeup(s, chan).procs[j].parent == s.procs[j].parent
      ensures Wakeup(s, chan).procs[j].state == ZOMBIE <==> s.procs[j].state == ZOMBIE
    {
      WakeAt(s, chan, |s.procs|, j);
    }
  }

  // ------------------------------------------------------------------
  // fork, and the timer

  /** A new process is the last of the LCFS queue, so that it is the next to run unless an RR process is there. */
  lemma ForkedRunsNext(s: Sched, i: nat, parent: nat)
    requires Inv(s) && Enabled(s, Fork(i, parent))
    ensures var s' := Next(s, Fork(i, parent));
            && s'.procs[i].parent == parent && s'.lcfs == s.lcfs + [i] && s'.rr == s.rr && s'.bjf == s.bjf
            && (s'.rr == [] ==> Pick(s') == Some(i))
            && forall j :: 0 <= j < |s.procs| && j != i ==> s'.procs[j] == s.procs[j]
  {
  }

  /** The processes below n that have waited too long with this tick, in table order. */
  function Promoted(procs: seq<Proc>, n: nat): (q: seq<nat>)
    requires n <= |procs|
  {
    if n == 0 then [] else Promoted(procs, n - 1) + if Due(procs[n - 1]) then [n - 1] else []
  }

  /** A runnable process outside RR that has waited 2000 ticks already; the counter has 32 bits. */
  predicate Due(p: Proc) {
    p.state == RUNNABLE && p.q != RR && 2000 <= p.waiting < 0xffff_ffff
  }

  lemma AgeOneQueue(s: Sched, i: nat)
    requires Inv(s) && i < |s.procs|
    ensures s.procs[i].state == RUNNABLE ==> Cleanable(s, i)
    ensures AgeOne(s, i).rr == s.rr + if Due(s.procs[i]) then [i] else []
  {
    AgeOneKeepsInv(s, i);
  }

  /** A tick moves exactly those that are due to the end of the RR queue, in table order. */
  lemma {:induction false} TickQueue(s: Sched, n: nat)
    requires Inv(s) && n <= |s.procs|
    ensures AgeUpto(s, n).rr == s.rr + Promoted(s.procs, n)
  {
    if n > 0 {
      TickQueue(s, n - 1);
      AgeIsPointwise(s, n - 1, n - 1);
      AgeOneQueue(AgeUpto(s, n - 1), n - 1);
      OnePromoted(s.rr, s.procs, n);
    }
  }

  lemma OnePromoted(q: seq<nat>, procs: seq<Proc>, n: nat)
    requires 0 < n <= |procs|
    ensures q + Promoted(procs, n - 1) + (if Due(procs[n - 1]) then [n - 1] else []) == q + Promoted(procs, n)
  {
  }

  // ------------------------------------------------------------------
  // How long a process sleeps

  /** The step wakes process i. */
  ghost predicate Wakes(s: Sched, a: Label, i: nat)
    requires i < |s.procs|
  {
    match a
    case WakeupOn(chan) => chan == s.procs[i].chan
    case KillOf(pid) => FindPid(s.procs, pid) == i
    case ExitOf(x, init) =>
      && x < |s.procs|
      && (s.procs[x].parent == s.procs[i].chan || (init == s.procs[i].chan && ZombieChild(s.procs, x, |s.procs|)))
    case _ => false
  }

  /** A sleeping process stays asleep on its channel exactly through the steps that do not wake it. */
  lemma SleepStep(s: Sched, a: Label, i: nat)
    requires Inv(s) && Enabled(s, a) && i < |s.procs| && s.procs[i].state == SLEEPING
    ensures i < |Next(s, a).procs|
    ensures var p := Next(s, a).procs[i];
            && p.chan == s.procs[i].chan
            && p.state == if Wakes(s, a, i) then RUNNABLE else SLEEPING
  {
    if a.WakeupOn? || a.KillOf? || a.ExitOf? {
      WakingStep(s, a, i);
    } else {
      OwnStep(s, a, i);
    }
  }

  lemma WakingStep(s: Sched, a: Label, i: nat)
    requires Inv(s) && Enabled(s, a) && i < |s.procs| && s.procs[i].state == SLEEPING
    requires a.WakeupOn? || a.KillOf? || a.ExitOf?
    ensures i < |Next(s, a).procs| && Next(s, a).procs[i].chan == s.procs[i].chan
    ensures Next(s, a).procs[i].state == if Wakes(s, a, i) then RUNNABLE else SLEEPING
  {
    match a
    case WakeupOn(chan) => WakeAt(s, chan, |s.procs|, i);
    case KillOf(pid) => KillIs(s, pid, i, RR);
    case ExitOf(x, init) =>
      CleanupNeverPanics(s, x);
      ExitIs(s, x, init, i);
  }

  /** The other steps leave a sleeping process as it is; a change of its queue takes effect when it wakes up. */
  lemma OwnStep(s: Sched, a: Label, i: nat)
    requires Inv(s) && Enabled(s, a) && i < |s.procs| && s.procs[i].state == SLEEPING
    requires !a.WakeupOn? && !a.KillOf? && !a.ExitOf?
    ensures i < |Next(s, a).procs| && Next(s, a).procs[i] == s.procs[i].(q := Next(s, a).procs[i].q)
  {
    match a
    case Change(pid, t) =>
      ChangeIsDefined(s, pid, t);
      ChangeIs(s, pid, t, i);
    case TimerTick => AgingBound(s, i);
    case _ => OneProcStep(s, a, i);
  }

  lemma OneProcStep(s: Sched, a: Label, i: nat)
    requires Inv(s) && Enabled(s, a) && i < |s.procs| && s.procs[i].state == SLEEPING
    requires a.Alloc? || a.Fork? || a.Run? || a.YieldOf? || a.SleepOf? || a.Reap? || a.ForkFails?
    ensures i < |Next(s, a).procs| && Next(s, a).procs[i] == s.procs[i]
  {
    match a
    case Run(x) =>
      PickInTable(s);
      PickIsRunnable(s);
    case SleepOf(x, chan) =>
      CleanupNeverPanics(s, x);
      SleepIs(s, x, chan, i, RR);
    case YieldOf(x) => YieldIs(s, x, i, RR);
    case _ =>
  }

  /** Once asleep, a process stays asleep, on its channel and in no queue, until a step wakes it. */
  lemma {:induction false} SleepsUntilWoken(states: seq<Sched>, labels: seq<Label>, a: nat, b: nat, i: nat, chan: nat)
    requires IsRun(states, labels) && a < b <= |labels| && labels[a] == SleepOf(i, chan)
    requires forall k :: a < k < b ==> i < |states[k].procs| ==> !Wakes(states[k], labels[k], i)
    ensures i < |states[b].procs| && SleepsOn(states[b].procs[i], chan)
    ensures forall t :: i !in states[b].Q(t)
    decreases b
  {
    if b == a + 1 {
      FallsAsleep(states, labels, a, i, chan);
    } else {
      SleepsUntilWoken(states, labels, a, b - 1, i, chan);
      StaysAsleep(states, labels, b - 1, i, chan);
    }
    RunKeepsInv(states, labels, b);
    NotQueued(states[b], i);
  }

  lemma FallsAsleep(states: seq<Sched>, labels: seq<Label>, k: nat, i: nat, chan: nat)
    requires IsRun(states, labels) && k < |labels| && labels[k] == SleepOf(i, chan)
    ensures i < |states[k + 1].procs| && SleepsOn(states[k + 1].procs[i], chan)
  {
    RunKeepsInv(states, labels, k);
    assert StepAt(states, labels, k);
    SleepIs(states[k], i, chan, i, RR);
  }

  lemma StaysAsleep(states: seq<Sched>, labels: seq<Label>, k: nat, i: nat, chan: nat)
    requires IsRun(states, labels) && k < |labels| && i < |states[k].procs| && SleepsOn(states[k].procs[i], chan)
    requires !Wakes(states[k], labels[k], i)
    ensures i < |states[k + 1].procs| && SleepsOn(states[k + 1].procs[i], chan)
  {
    RunKeepsInv(states, labels, k);
    assert StepAt(states, labels, k);
    SleepStep(states[k], labels[k], i);
  }

  lemma NotQueued(s: Sched, i: nat)
    requires Inv(s) && i < |s.procs| && s.procs[i].state == SLEEPING
    ensures forall t :: i !in s.Q(t)
  {
    forall t ensures i !in s.Q(t) {
      assert t != DEF ==> Holds(s.procs, s.Q(t), t);
    }
  }

  /** A step that wakes a process leaves it runnable and in its queue. */
  lemma WokenRuns(states: seq<Sched>, labels: seq<Label>, k: nat, i: nat)
    requires IsRun(states, labels) && k < |labels| && i < |states[k].procs|
    requires states[k].procs[i].state == SLEEPING && Wakes(states[k], labels[k], i)
    ensures i < |states[k + 1].procs| && states[k + 1].procs[i].state == RUNNABLE
    ensures i in states[k + 1].Q(states[k + 1].procs[i].q)
  {
    RunKeepsInv(states, labels, k);
    RunKeepsInv(states, labels, k + 1);
    assert StepAt(states, labels, k);
    SleepStep(states[k], labels[k], i);
    var p := states[k + 1].procs[i];
    assert GoodProc(p);
    assert Holds(states[k + 1].procs, states[k + 1].Q(p.q), p.q);
  }
}
