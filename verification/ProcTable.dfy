/**
 The operations on the process table as they are programmed: loops over the table,
 and statements on the arrays of the three queues.
 */
module ProcTable {
  import opened Basics
  import opened ReadyQueue
  import opened Scheduler
  import opened SchedulerSteps
  import opened SchedulerRuns
  import opened SchedulerEffects

  // ------------------------------------------------------------------
  // Room in the arrays

  /** A queue without repetition, in which no sleeping process waits. */
  ghost predicate SaneQueue(procs: seq<Proc>, q: seq<nat>) {
    && Entries(q, |procs|) && NoRepeat(q)
    && forall i :: 0 <= i < |procs| && procs[i].state == SLEEPING ==> i !in q
  }

  /** This holds also in the middle of `exit`. */
  ghost predicate Sane(s: Sched) {
    |s.procs| == NPROC && SaneQueue(s.procs, s.rr) && SaneQueue(s.procs, s.lcfs) && SaneQueue(s.procs, s.bjf)
  }

  /** A queue without repetition fits its array. */
  lemma QueueFits(q: seq<nat>)
    requires NoRepeat(q) && Entries(q, NPROC)
    ensures |q| <= NPROC
  {
    MembersCount(q);
    SubsetSize(Members(q), Below(NPROC));
  }

  lemma HoldsIsSane(procs: seq<Proc>, q: seq<nat>, t: QType)
    requires Holds(procs, q, t)
    ensures SaneQueue(procs, q)
  {
  }

  lemma InvIsSane(s: Sched)
    requires Inv(s)
    ensures Sane(s)
  {
    HoldsIsSane(s.procs, s.rr, RR);
    HoldsIsSane(s.procs, s.lcfs, LCFS);
    HoldsIsSane(s.procs, s.bjf, BJF);
  }

  lemma SaneSet(procs: seq<Proc>, q: seq<nat>, i: nat, p: Proc)
    requires SaneQueue(procs, q) && i < |procs| && (p.state == SLEEPING ==> procs[i].state == SLEEPING)
    ensures SaneQueue(procs[i := p], q)
  {
  }

  lemma SetKeepsSane(s: Sched, i: nat, p: Proc)
    requires Sane(s) && i < NPROC && (p.state == SLEEPING ==> s.procs[i].state == SLEEPING)
    ensures Sane(s.SetProc(i, p))
  {
    SaneSet(s.procs, s.rr, i, p);
    SaneSet(s.procs, s.lcfs, i, p);
    SaneSet(s.procs, s.bjf, i, p);
  }

  lemma SaneAppend(procs: seq<Proc>, q: seq<nat>, i: nat)
    requires |procs| == NPROC && SaneQueue(procs, q) && i < NPROC && i !in q && procs[i].state != SLEEPING
    ensures |q| < NPROC && SaneQueue(procs, q + [i])
  {
    QueueFits(q + [i]);
  }

  /** There is room for a process that wakes up. */
  lemma WakeKeepsSane(s: Sched, i: nat)
    requires Sane(s) && i < NPROC && s.procs[i].state == SLEEPING
    ensures |s.Q(s.procs[i].q)| < NPROC && Sane(WakeOne(s, i))
  {
    var p := s.procs[i].(state := RUNNABLE);
    SetKeepsSane(s, i, p);
    if p.q != DEF {
      SaneAppend(s.procs[i := p], s.Q(p.q), i);
    }
  }

  lemma SaneRemoved(procs: seq<Proc>, pids: seq<nat>, q: seq<nat>, pid: nat)
    requires q != [] && |pids| == |procs| && SaneQueue(procs, q)
    ensures SaneQueue(procs, Removed(pids, q, pid))
  {
    var k, n := Find(pids, q, pid), |q| - 1;
    if k < |q| {
      WithoutMembers(q, k);
      SaneSubset(procs, q, q[..k] + q[k + 1..]);
    } else {
      SaneSubset(procs, q, q[..n]);
    }
  }

  lemma SaneSubset(procs: seq<Proc>, q: seq<nat>, r: seq<nat>)
    requires SaneQueue(procs, q) && NoRepeat(r) && forall x <- r :: x in q
    ensures SaneQueue(procs, r)
  {
    forall j | 0 <= j < |r| ensures r[j] < |procs| {
      assert r[j] in q;
    }
  }

  lemma CleanupKeepsSane(s: Sched, i: nat)
    requires Sane(s) && Cleanable(s, i)
    ensures Sane(Cleanup(s, i))
  {
    SaneRemoved(s.procs, s.Pids(), s.Q(s.procs[i].q), s.procs[i].pid);
  }

  lemma InvFits(s: Sched, t: QType)
    requires Inv(s)
    ensures |s.Q(t)| <= NPROC
  {
    InvIsSane(s);
    QueueFits(s.Q(t));
  }

  /** A change that leaves pid and queue of process i alone commutes with removing its entry. */
  lemma CleanupSet(s: Sched, i: nat, p: Proc)
    requires Cleanable(s, i) && p.pid == s.procs[i].pid && p.q == s.procs[i].q
    ensures Cleanable(s.SetProc(i, p), i) && Cleanup(s.SetProc(i, p), i) == Cleanup(s, i).SetProc(i, p)
  {
    assert s.SetProc(i, p).Pids() == s.Pids();
  }

  lemma MoveSet(s: Sched, i: nat, p: Proc)
    requires Cleanable(s, i) && p.pid == s.procs[i].pid && p.q == s.procs[i].q
    ensures Cleanable(s.SetProc(i, p), i) && Move(s.SetProc(i, p), i, p.(q := RR)) == Move(s, i, p.(q := RR))
    ensures |Move(s, i, p.(q := RR)).lcfs| <= |s.lcfs| && |Move(s, i, p.(q := RR)).bjf| <= |s.bjf|
    ensures p.q != RR ==> Move(s, i, p.(q := RR)).rr == s.rr + [i]
  {
    CleanupSet(s, i, p);
    assert Cleanup(s, i).SetProc(i, p).SetProc(i, p.(q := RR)) == Cleanup(s, i).SetProc(i, p.(q := RR));
  }

  lemma AgeFits(s: Sched, i: nat)
    requires Inv(s) && i < |s.procs| && s.procs[i].state == RUNNABLE
    ensures Cleanable(s, i) && |AgeOne(s, i).rr| <= NPROC
  {
    RunnableIsCleanable(s, i);
    AgeOneKeepsInv(s, i);
    InvFits(AgeOne(s, i), RR);
  }

  // ------------------------------------------------------------------
  // The table

  class ProcTable {
    const rr: Queue
    const lcfs: Queue
    const bjf: Queue
    var procs: seq<Proc>
    var rrCounter: Counter

    ghost function Repr(): (r: set<object>) {
      {this, rr, lcfs, bjf, rr.proc, lcfs.proc, bjf.proc}
    }

    ghost predicate Valid()
      reads this, rr, lcfs, bjf
    {
      && rr.Valid() && lcfs.Valid() && bjf.Valid()
      && rr != lcfs && rr != bjf && lcfs != bjf
      && rr.proc != lcfs.proc && rr.proc != bjf.proc && lcfs.proc != bjf.proc
    }

    /** The state that the specification speaks of. */
    ghost function View(): (s: Sched)
      reads this, rr, lcfs, bjf, rr.proc, lcfs.proc, bjf.proc
      requires Valid()
    {
      Sched(procs, rr.View(), lcfs.View(), bjf.View(), rrCounter)
    }

    constructor (table: seq<Proc>)
      ensures Valid() && fresh(Repr()) && View() == Sched(table, [], [], [], 0)
    {
      procs, rrCounter := table, 0;
      rr := new Queue();
      lcfs := new Queue();
      bjf := new Queue();
    }

    method SetProc(i: nat, p: Proc)
      requires Valid() && i < |procs|
      modifies this`procs
      ensures Valid() && View() == old(View()).SetProc(i, p)
    {
      procs := procs[i := p];
    }

    /** `q.pi++; q.proc[q.pi] = p` for the queue that the process names. */
    method Append(i: nat)
      requires Valid() && i < |procs| && |View().Q(procs[i].q)| < NPROC
      modifies Repr() - {this}
      ensures Valid() && View() == Enqueue(old(View()), i)
    {
      match procs[i].q
      case RR => rr.Enqueue(i);
      case LCFS => lcfs.Enqueue(i);
      case BJF => bjf.Enqueue(i);
      case DEF =>
    }

    function Pids(): (ids: seq<nat>)
      reads this
    {
      seq(|procs|, i requires 0 <= i < |procs| reads this => procs[i].pid)
    }

    /** `cleanupCorresQueue`; false is one of its panics. */
    method CleanupQueue(i: nat) returns (ok: bool)
      requires Valid() && i < |procs|
      requires Entries(View().Q(procs[i].q), |procs|) && |View().Q(procs[i].q)| < NPROC
      modifies Repr() - {this}
      ensures Valid() && ok == (old(View()).Q(procs[i].q) != [])
      ensures View() == if ok then Cleanup(old(View()), i) else old(View())
    {
      var pids, pid := Pids(), procs[i].pid;
      assert pids == View().Pids();
      match procs[i].q
      case RR => ok := rr.Cleanup(pids, pid);
      case LCFS => ok := lcfs.Cleanup(pids, pid);
      case BJF => ok := bjf.Cleanup(pids, pid);
      case DEF => ok := false;
    }

    /** A sleeping process joins its queue and is runnable. */
    method WakeProc(i: nat)
      requires Valid() && Sane(View()) && i < |procs| && procs[i].state == SLEEPING
      modifies Repr()
      ensures Valid() && Sane(View()) && View() == WakeOne(old(View()), i)
    {
      WakeKeepsSane(View(), i);
      Append(i);
      SetProc(i, procs[i].(state := RUNNABLE));
    }

    method Wakeup1(chan: nat)
      requires Valid() && Sane(View())
      modifies Repr()
      ensures Valid() && Sane(View()) && View() == Wakeup(old(View()), chan)
      ensures |procs| == |old(procs)|
      ensures forall j :: 0 <= j < |procs| ==>
                procs[j] == if old(procs)[j].state == SLEEPING && old(procs)[j].chan == chan
                            then old(procs)[j].(state := RUNNABLE) else old(procs)[j]
    {
      ghost var s := View();
      var i := 0;
      while i < |procs|
        invariant 0 <= i <= |procs| == |s.procs| && Valid() && Sane(View())
        invariant View() == WakeUpto(s, chan, i)
      {
        if procs[i].state == SLEEPING && procs[i].chan == chan {
          WakeProc(i);
        }
        i := i + 1;
      }
      forall j | 0 <= j < |procs| ensures procs[j] == WokenIf(s.procs[j], SleepsOn(s.procs[j], chan)) {
        WakeAt(s, chan, |s.procs|, j);
      }
    }

    /** The search of `kill` and `change_queue` for a pid; it ends behind the table when no entry has it. */
    method Lookup(pid: nat) returns (i: nat)
      ensures i == FindPid(procs, pid)
      ensures i < |procs| <==> exists j :: 0 <= j < |procs| && procs[j].pid == pid
    {
      i := 0;
      while i < |procs|
        invariant 0 <= i <= |procs|
        invariant forall j :: 0 <= j < i ==> procs[j].pid != pid
      {
        if procs[i].pid == pid {
          break;
        }
        i := i + 1;
      }
      FindPidIs(procs, pid, i);
    }

    /** `kill`: 0, or -1 when no process has the pid. */
    method KillPid(pid: nat) returns (r: int)
      requires Valid() && Sane(View())
      modifies Repr()
      ensures Valid() && Sane(View()) && View() == Kill(old(View()), pid)
      ensures r == -1 <==> forall j :: 0 <= j < |old(procs)| ==> old(procs)[j].pid != pid
    {
      var i := Lookup(pid);
      if i == |procs| {
        return -1;
      }
      SetKeepsSane(View(), i, procs[i].(killed := true));
      SetProc(i, procs[i].(killed := true));
      if procs[i].state == SLEEPING {
        WakeProc(i);
      }
      return 0;
    }

    method AgingMechanism()
      requires Valid() && Inv(View()) && Room(View())
      modifies Repr()
      ensures Valid() && Inv(View()) && View() == Tick(old(View()))
    {
      ghost var s := View();
      var i := 0;
      while i < |procs|
        invariant 0 <= i <= |procs| == |s.procs| && Valid()
        invariant View() == AgeUpto(s, i) && |View().lcfs| < NPROC && |View().bjf| < NPROC
      {
        if procs[i].state == RUNNABLE {
          AgeFits(View(), i);
        }
        AgeProc(i);
        i := i + 1;
      }
    }

    /** The body of that loop. */
    method AgeProc(i: nat)
      requires Valid() && i < |procs| && |View().lcfs| < NPROC && |View().bjf| < NPROC
      requires procs[i].state == RUNNABLE ==> Cleanable(View(), i) && |AgeOne(View(), i).rr| <= NPROC
      modifies Repr()
      ensures Valid() && |View().lcfs| < NPROC && |View().bjf| < NPROC
      ensures View() == AgeOne(old(View()), i)
    {
      if procs[i].state == RUNNABLE {
        AgeRunnableProc(i, Increment(procs[i].waiting));
      }
    }

    method AgeRunnableProc(i: nat, w: Counter)
      requires Valid() && Cleanable(View(), i)
      requires |View().lcfs| < NPROC && |View().bjf| < NPROC && |AgeTo(View(), i, w).rr| <= NPROC
      modifies Repr()
      ensures Valid() && |View().lcfs| < NPROC && |View().bjf| < NPROC
      ensures View() == AgeTo(old(View()), i, w)
    {
      var p := procs[i].(waiting := w);
      MoveSet(View(), i, p);
      SetProc(i, p);
      if w > AGING_BOUND && p.q != RR {
        MoveToRR(i);
      }
    }

    method MoveToRR(i: nat)
      requires Valid() && Cleanable(View(), i) && |View().Q(procs[i].q)| < NPROC
      requires procs[i].q != RR && |View().rr| < NPROC
      modifies Repr()
      ensures Valid() && View() == Move(old(View()), i, old(procs)[i].(q := RR))
    {
      var ok := CleanupQueue(i);
      SetProc(i, procs[i].(q := RR));
      Append(i);
    }

    /** The end of `fork` and of `userinit`: the new process joins the LCFS queue. */
    method ForkProc(i: nat, parent: nat)
      requires Valid() && Inv(View()) && Enabled(View(), Fork(i, parent))
      modifies Repr()
      ensures Valid() && Inv(View()) && View() == Next(old(View()), Fork(i, parent))
    {
      StepKeepsInv(View(), Fork(i, parent));
      InvFits(Next(View(), Fork(i, parent)), LCFS);
      JoinLcfs(i, procs[i].(q := LCFS, waiting := 0, parent := parent, state := RUNNABLE));
    }

    method JoinLcfs(i: nat, p: Proc)
      requires Valid() && i < |procs| && p.q == LCFS && |View().lcfs| < NPROC
      modifies Repr()
      ensures Valid() && View() == Enqueue(old(View()).SetProc(i, p), i)
    {
      SetProc(i, procs[i].(q := LCFS));
      Append(i);
      SetProc(i, p);
    }

    /** `change_queue` for an existing pid. */
    method ChangeQueueOf(pid: nat, t: QType)
      requires Valid() && Inv(View()) && Enabled(View(), Change(pid, t))
      modifies Repr()
      ensures Valid() && Inv(View()) && View() == Next(old(View()), Change(pid, t))
    {
      StepKeepsInv(View(), Change(pid, t));
      ChangeIsDefined(View(), pid, t);
      InvFits(Next(View(), Change(pid, t)), t);
      var i := Lookup(pid);
      ChangeTo(i, pid, t);
    }

    /** The statements of `change_queue` after the search. */
    method ChangeTo(i: nat, ghost pid: nat, t: QType)
      requires Valid() && Changeable(View(), pid) && i == FindPid(procs, pid)
      requires Room(View()) && |ChangeQueue(View(), pid, t).Q(t)| <= NPROC
      modifies Repr()
      ensures Valid() && View() == ChangeQueue(old(View()), pid, t)
    {
      var state := procs[i].state;
      if state == RUNNING || state == RUNNABLE {
        var ok := CleanupQueue(i);
      }
      SetProc(i, procs[i].(q := t));
      if state == RUNNABLE {
        Append(i);
      }
      if state == RUNNING {
        SetProc(i, procs[i].(changing := true));
      }
    }

    /** `yield` of the running process i, up to the switch to the scheduler. */
    method YieldProc(i: nat)
      requires Valid() && Inv(View()) && Enabled(View(), YieldOf(i))
      modifies Repr()
      ensures Valid() && Inv(View()) && View() == Next(old(View()), YieldOf(i))
    {
      StepKeepsInv(View(), YieldOf(i));
      InvFits(Next(View(), YieldOf(i)), procs[i].q);
      GiveUp(i);
    }

    /** The statements of `yield`. */
    method GiveUp(i: nat)
      requires Valid() && i < |procs| && (procs[i].changing ==> |View().Q(procs[i].q)| < NPROC)
      modifies Repr()
      ensures Valid() && View() == Yield(old(View()), i)
    {
      if procs[i].q == RR {
        rrCounter := Increment(rrCounter);
      }
      if procs[i].changing {
        Append(i);
        SetProc(i, procs[i].(changing := false));
      }
      SetProc(i, procs[i].(state := RUNNABLE));
    }

    /** `sleep` of the running process i, up to the switch to the scheduler. */
    method SleepProc(i: nat, chan: nat)
      requires Valid() && Inv(View()) && Enabled(View(), SleepOf(i, chan))
      modifies Repr()
      ensures Valid() && Inv(View()) && View() == Next(old(View()), SleepOf(i, chan))
    {
      StepKeepsInv(View(), SleepOf(i, chan));
      CleanupNeverPanics(View(), i);
      var ok := CleanupQueue(i);
      SetProc(i, procs[i].(chan := chan, state := SLEEPING));
    }

    /** The critical section of `exit`. */
    method ExitProc(i: nat, init: nat)
      requires Valid() && Inv(View()) && Enabled(View(), ExitOf(i, init))
      modifies Repr()
      ensures Valid() && Inv(View()) && View() == Next(old(View()), ExitOf(i, init))
    {
      ghost var s := View();
      StepKeepsInv(s, ExitOf(i, init));
      CleanupNeverPanics(s, i);
      InvIsSane(s);
      CleanupKeepsSane(s, i);
      var ok := CleanupQueue(i);
      Wakeup1(procs[i].parent);
      Reparent(i, init);
      SetProc(i, procs[i].(state := ZOMBIE));
    }

    /** The loop of `exit` that passes children to init. */
    method Reparent(i: nat, init: nat)
      requires Valid() && Sane(View())
      modifies Repr()
      ensures Valid() && Sane(View()) && View() == ReparentUpto(old(View()), i, init, |old(procs)|)
    {
      ghost var s := View();
      var j := 0;
      while j < |procs|
        invariant 0 <= j <= |procs| == |s.procs| && Valid() && Sane(View())
        invariant View() == ReparentUpto(s, i, init, j)
      {
        if procs[j].parent == i {
          SetKeepsSane(View(), j, procs[j].(parent := init));
          SetProc(j, procs[j].(parent := init));
          if procs[j].state == ZOMBIE {
            Wakeup1(init);
          }
        }
        j := j + 1;
      }
    }

    /** The round-robin branch of `scheduler`; panics tells of its panic. */
    method SearchRR() returns (r: Option<nat>, panics: bool)
      requires Valid() && Entries(View().rr, |procs|) && rr.pi >= 0
      ensures panics ==> exists k :: 0 <= k < |View().rr| && !CanRun(procs[View().rr[k]])
      ensures !panics ==> r == PickRR(View(), 0)
    {
      var n := rr.pi + 1;
      var p := rr.proc[rrCounter % n];
      FirstLook(View());
      if procs[p].state == RUNNABLE {
        return Some(p), false;
      }
      if procs[p].state != RUNNING {
        return None, true;
      }
      r := SearchOn();
      return r, false;
    }

    /** Its loop, for when the first process is running. */
    method SearchOn() returns (r: Option<nat>)
      requires Valid() && Entries(View().rr, |procs|) && rr.pi >= 0
      ensures r == PickRR(View(), 1)
    {
      ghost var s := View();
      var i := 0;
      while i < rr.pi
        invariant 0 <= i <= rr.pi && PickRR(s, 1) == PickRR(s, i + 1)
      {
        var k := RRIndex(rrCounter, i + 1, rr.pi + 1);
        if procs[rr.proc[k]].state == RUNNABLE {
          return Some(rr.proc[k]);
        }
        i := i + 1;
      }
      return None;
    }

    /** The LCFS branch of `scheduler`. */
    method SearchLCFS() returns (r: Option<nat>, panics: bool)
      requires Valid() && Entries(View().lcfs, |procs|) && lcfs.pi >= 0
      ensures panics ==> exists k :: 0 <= k < |View().lcfs| && !CanRun(procs[View().lcfs[k]])
      ensures !panics ==> r == PickLCFS(View(), |View().lcfs|)
    {
      ghost var s := View();
      var p := lcfs.proc[lcfs.pi];
      if procs[p].state == RUNNABLE {
        return Some(p), false;
      }
      if procs[p].state != RUNNING {
        return None, true;
      }
      var i := lcfs.pi;
      while i > 0
        invariant 0 <= i <= lcfs.pi && PickLCFS(s, |s.lcfs|) == PickLCFS(s, i)
      {
        if procs[lcfs.proc[i - 1]].state == RUNNABLE {
          return Some(lcfs.proc[i - 1]), false;
        }
        i := i - 1;
      }
      return None, false;
    }

    /** One pass of `scheduler`: the process it switches to, which is then running; there is no panic. */
    method Schedule() returns (r: Option<nat>, panics: bool)
      requires Valid() && Inv(View()) && Room(View())
      modifies this`procs
      ensures Valid() && Inv(View()) && !panics && r == Pick(old(View()))
      ensures View() == if r.None? then old(View()) else Next(old(View()), Run(r.value))
    {
      ghost var s := View();
      NeverPanics(s);
      r, panics := None, false;
      if rr.pi >= 0 {
        r, panics := SearchRR();
      } else if lcfs.pi >= 0 {
        r, panics := SearchLCFS();
      } else {
        NothingElsePicked(s);
      }
      if r.Some? {
        PickInTable(s);
        StepKeepsInv(s, Run(r.value));
        SetProc(r.value, procs[r.value].(state := RUNNING, waiting := 0));
      }
    }
  }

  lemma FirstLook(s: Sched)
    requires s.rr != []
    ensures PickRR(s, 0) ==
              if Runnable(s, s.rr[s.rrCounter % |s.rr|]) then Some(s.rr[s.rrCounter % |s.rr|]) else PickRR(s, 1)
  {
    assert RRIndex(s.rrCounter, 0, |s.rr|) == s.rrCounter % |s.rr|;
  }

  predicate CanRun(p: Proc) {
    p.state == RUNNABLE || p.state == RUNNING
  }

  lemma NeverPanics(s: Sched)
    requires Inv(s)
    ensures forall k :: 0 <= k < |s.rr| ==> CanRun(s.procs[s.rr[k]])
    ensures forall k :: 0 <= k < |s.lcfs| ==> CanRun(s.procs[s.lcfs[k]])
  {
    forall k | 0 <= k < |s.rr| ensures CanRun(s.procs[s.rr[k]]) {
      NoPanic(s, RR, k);
    }
    forall k | 0 <= k < |s.lcfs| ensures CanRun(s.procs[s.lcfs[k]]) {
      NoPanic(s, LCFS, k);
    }
  }

  lemma {:induction false} FindPidIs(procs: seq<Proc>, pid: nat, i: nat)
    requires i <= |procs| && (i < |procs| ==> procs[i].pid == pid) && forall j :: 0 <= j < i ==> procs[j].pid != pid
    ensures FindPid(procs, pid) == i
  {
  }
}
