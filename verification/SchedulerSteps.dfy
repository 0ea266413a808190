/** The critical sections of the process table as steps, and runs of them. */
module SchedulerSteps {
  import opened ReadyQueue
  import opened Scheduler

  // ------------------------------------------------------------------
  // Waking up

  function WakeOne(s: Sched, i: nat): (s': Sched)
    requires i < |s.procs|
    ensures |s'.procs| == |s.procs|
  {
    Join(s, i, s.procs[i].(state := RUNNABLE))
  }

  /** `wakeup1` on the first n entries of the table. */
  function WakeUpto(s: Sched, chan: nat, n: nat): (s': Sched)
    requires n <= |s.procs|
    ensures |s'.procs| == |s.procs|
  {
    if n == 0 then s
    else
      var before := WakeUpto(s, chan, n - 1);
      if before.procs[n - 1].state == SLEEPING && before.procs[n - 1].chan == chan then WakeOne(before, n - 1)
      else before
  }

  function Wakeup(s: Sched, chan: nat): (s': Sched) {
    WakeUpto(s, chan, |s.procs|)
  }

  /** First entry of the table with the pid, or the length of the table. */
  function FindPid(procs: seq<Proc>, pid: nat): (i: nat)
    ensures i <= |procs|
    ensures i < |procs| ==> procs[i].pid == pid
    ensures forall j :: 0 <= j < i ==> procs[j].pid != pid
  {
    if procs == [] then 0 else if procs[0].pid == pid then 0 else 1 + FindPid(procs[1..], pid)
  }

  /** Process i is marked as killed, and woken if it sleeps. */
  function KillOne(s: Sched, i: nat): (s': Sched)
    requires i < |s.procs|
  {
    var s1 := s.SetProc(i, s.procs[i].(killed := true));
    if s.procs[i].state == SLEEPING then WakeOne(s1, i) else s1
  }

  function Kill(s: Sched, pid: nat): (s': Sched) {
    var i := FindPid(s.procs, pid);
    if i < |s.procs| then KillOne(s, i) else s
  }

  // ------------------------------------------------------------------
  // Running

  function Dispatch(s: Sched, i: nat): (s': Sched)
    requires i < |s.procs|
  {
    s.SetProc(i, s.procs[i].(state := RUNNING, waiting := 0))
  }

  function Yield(s: Sched, i: nat): (s': Sched)
    requires i < |s.procs|
  {
    var s1 := if s.procs[i].q == RR then s.(rrCounter := Increment(s.rrCounter)) else s;
    var p := s.procs[i].(changing := false, state := RUNNABLE);
    if s.procs[i].changing then Join(s1, i, p) else s1.SetProc(i, p)
  }

  predicate Cleanable(s: Sched, i: nat) {
    i < |s.procs| && s.Q(s.procs[i].q) != [] && Entries(s.Q(s.procs[i].q), |s.procs|)
  }

  function Sleep(s: Sched, i: nat, chan: nat): (s': Sched)
    requires Cleanable(s, i)
  {
    Leave(s, i, s.procs[i].(chan := chan, state := SLEEPING))
  }

  /** The loop of `exit` over the first n entries: children pass to init, which is woken for each zombie among them. */
  function ReparentUpto(s: Sched, i: nat, init: nat, n: nat): (s': Sched)
    requires n <= |s.procs|
    ensures |s'.procs| == |s.procs|
  {
    if n == 0 then s else ReparentOne(ReparentUpto(s, i, init, n - 1), i, init, n - 1)
  }

  /** `exit`: wait sleeps on the channel that is the parent's own position. */
  function Exit(s: Sched, i: nat, init: nat): (s': Sched)
    requires Cleanable(s, i)
  {
    var s1 := Wakeup(Cleanup(s, i), s.procs[i].parent);
    var s2 := ReparentUpto(s1, i, init, |s1.procs|);
    s2.SetProc(i, s2.procs[i].(state := ZOMBIE))
  }

  // ------------------------------------------------------------------
  // Moving between queues

  function ChangeQueue(s: Sched, pid: nat, t: QType): (s': Sched)
    requires Changeable(s, pid)
  {
    var i := FindPid(s.procs, pid);
    var p := s.procs[i];
    var s1 := if p.state == RUNNING || p.state == RUNNABLE then Cleanup(s, i) else s;
    var s2 := s1.SetProc(i, p.(q := t));
    var s3 := if p.state == RUNNABLE then Enqueue(s2, i) else s2;
    if p.state == RUNNING then s3.SetProc(i, s3.procs[i].(changing := true)) else s3
  }

  /** One RUNNABLE process in an aging pass: it waits one tick longer, and too long a wait moves it to the RR queue. */
  function AgeOne(s: Sched, i: nat): (s': Sched)
    requires i < |s.procs| && (s.procs[i].state == RUNNABLE && s.procs[i].q != RR ==> Cleanable(s, i))
    ensures |s'.procs| == |s.procs|
  {
    if s.procs[i].state != RUNNABLE then s else AgeTo(s, i, Increment(s.procs[i].waiting))
  }

  /** A runnable process has now waited w ticks. */
  function AgeTo(s: Sched, i: nat, w: Counter): (s': Sched)
    requires i < |s.procs| && (s.procs[i].q != RR ==> Cleanable(s, i))
    ensures |s'.procs| == |s.procs|
  {
    if w > AGING_BOUND && s.procs[i].q != RR then Move(s, i, s.procs[i].(waiting := w, q := RR))
    else s.SetProc(i, s.procs[i].(waiting := w))
  }

  lemma ActiveIsCleanable(s: Sched, i: nat)
    requires Inv(s) && i < |s.procs| && Active(s.procs[i])
    ensures Cleanable(s, i)
  {
    RemovedIs(s, i, s.procs[i].q);
  }

  lemma RunnableIsCleanable(s: Sched, i: nat)
    requires Inv(s) && i < |s.procs| && s.procs[i].state == RUNNABLE
    ensures Cleanable(s, i) && Active(s.procs[i]) && GoodProc(s.procs[i])
  {
    assert GoodProc(s.procs[i]);
    ActiveIsCleanable(s, i);
  }

  lemma AgeOneKeepsInv(s: Sched, i: nat)
    requires Inv(s) && i < |s.procs|
    ensures s.procs[i].state == RUNNABLE ==> Cleanable(s, i)
    ensures Inv(AgeOne(s, i))
  {
    if s.procs[i].state == RUNNABLE {
      RunnableIsCleanable(s, i);
      var w := Increment(s.procs[i].waiting);
      AgeToKeepsInv(s, i, w, AgeTo(s, i, w));
    }
  }

  lemma AgeToKeepsInv(s: Sched, i: nat, w: Counter, s': Sched)
    requires Inv(s) && Cleanable(s, i) && Active(s.procs[i]) && GoodProc(s.procs[i]) && s' == AgeTo(s, i, w)
    ensures Inv(s')
  {
    if w > AGING_BOUND && s.procs[i].q != RR {
      AgeByMove(s, i, w, s');
    } else {
      AgeInPlace(s, i, w, s');
    }
  }

  lemma AgeByMove(s: Sched, i: nat, w: Counter, s': Sched)
    requires Inv(s) && i < |s.procs| && Active(s.procs[i]) && GoodProc(s.procs[i]) && Cleanable(s, i)
    requires s' == Move(s, i, s.procs[i].(waiting := w, q := RR))
    ensures Inv(s')
  {
    MoveKeepsInv(s, i, s.procs[i].(waiting := w, q := RR));
  }

  lemma AgeInPlace(s: Sched, i: nat, w: Counter, s': Sched)
    requires Inv(s) && i < |s.procs| && Active(s.procs[i]) && GoodProc(s.procs[i])
    requires s' == s.SetProc(i, s.procs[i].(waiting := w))
    ensures Inv(s')
  {
    StayKeepsInv(s, i, s.procs[i].(waiting := w));
  }

  /** An active process moves from its queue to the queue of p. */
  lemma MoveKeepsInv(s: Sched, i: nat, p: Proc)
    requires Inv(s) && i < |s.procs| && Active(s.procs[i]) && Active(p) && GoodProc(p) && p.pid == s.procs[i].pid
    ensures Cleanable(s, i)
    ensures Inv(Move(s, i, p))
  {
    var away := s.procs[i].(state := SLEEPING);
    assert GoodProc(s.procs[i]);
    LeaveKeepsInv(s, i, away);
    JoinFrom(Cleanup(s, i), i, away, p);
  }

  lemma JoinFrom(c: Sched, i: nat, away: Proc, p: Proc)
    requires i < |c.procs| && Inv(c.SetProc(i, away)) && away.state == SLEEPING
    requires Active(p) && GoodProc(p) && p.pid == away.pid
    ensures Inv(Join(c, i, p))
  {
    JoinKeepsInv(c.SetProc(i, away), i, p);
    assert c.SetProc(i, away).SetProc(i, p) == c.SetProc(i, p);
  }

  /** `agingMechanism` on the first n entries. */
  function AgeUpto(s: Sched, n: nat): (s': Sched)
    requires Inv(s) && n <= |s.procs|
    ensures Inv(s') && |s'.procs| == |s.procs|
  {
    if n == 0 then s
    else
      AgeOneKeepsInv(AgeUpto(s, n - 1), n - 1);
      AgeOne(AgeUpto(s, n - 1), n - 1)
  }

  function Tick(s: Sched): (s': Sched)
    requires Inv(s)
    ensures Inv(s')
  {
    AgeUpto(s, |s.procs|)
  }

  // ------------------------------------------------------------------
  // Every step keeps the invariant

  lemma WakeOneKeepsInv(s: Sched, i: nat)
    requires Inv(s) && i < |s.procs| && s.procs[i].state == SLEEPING
    ensures Inv(WakeOne(s, i))
  {
    assert GoodProc(s.procs[i]);
    var p := s.procs[i].(state := RUNNABLE);
    JoinKeepsInv(s, i, p);
  }

  lemma KillKeepsInv(s: Sched, i: nat)
    requires Inv(s) && i < |s.procs|
    ensures Inv(KillOne(s, i))
  {
    var p := s.procs[i].(killed := true);
    assert GoodProc(s.procs[i]);
    StayKeepsInv(s, i, p);
    if p.state == SLEEPING {
      WakeOneKeepsInv(s.SetProc(i, p), i);
    }
  }

  lemma {:induction false} WakeKeepsInv(s: Sched, chan: nat, n: nat)
    requires Inv(s) && n <= |s.procs|
    ensures Inv(WakeUpto(s, chan, n))
  {
    if n > 0 {
      WakeKeepsInv(s, chan, n - 1);
      var before := WakeUpto(s, chan, n - 1);
      if before.procs[n - 1].state == SLEEPING && before.procs[n - 1].chan == chan {
        WakeOneKeepsInv(before, n - 1);
      }
    }
  }

  /** Waking others commutes with a change of state of process i from RUNNING to ZOMBIE. */
  lemma {:induction false} WakeCommutes(s: Sched, chan: nat, n: nat, i: nat)
    requires n <= |s.procs| && i < |s.procs| && s.procs[i].state == RUNNING
    ensures WakeUpto(s, chan, n).procs[i] == s.procs[i]
    ensures WakeUpto(Zombie(s, i), chan, n) == Zombie(WakeUpto(s, chan, n), i)
  {
    if n > 0 {
      WakeCommutes(s, chan, n - 1, i);
      var a := WakeUpto(s, chan, n - 1);
      if i != n - 1 {
        ZombieCommutes(a, i, n - 1);
      }
    }
  }

  function Zombie(s: Sched, i: nat): (s': Sched)
    requires i < |s.procs|
    ensures |s'.procs| == |s.procs|
  {
    s.SetProc(i, s.procs[i].(state := ZOMBIE))
  }

  lemma ZombieCommutes(s: Sched, i: nat, j: nat)
    requires i < |s.procs| && j < |s.procs| && i != j
    ensures WakeOne(Zombie(s, i), j) == Zombie(WakeOne(s, j), i)
    ensures forall p: Proc :: Zombie(s, i).SetProc(j, p) == Zombie(s.SetProc(j, p), i)
  {
    forall p: Proc ensures Zombie(s, i).SetProc(j, p) == Zombie(s.SetProc(j, p), i) {
      assert s.procs[i := s.procs[i].(state := ZOMBIE)][j := p] == s.procs[j := p][i := s.procs[i].(state := ZOMBIE)];
    }
    assert Zombie(s, i).SetProc(j, s.procs[j].(state := RUNNABLE)) ==
      Zombie(s.SetProc(j, s.procs[j].(state := RUNNABLE)), i);
  }

  /** One iteration of the loop of `exit`. */
  function ReparentOne(s: Sched, i: nat, init: nat, j: nat): (s': Sched)
    requires j < |s.procs|
    ensures |s'.procs| == |s.procs|
  {
    if s.procs[j].parent != i then s
    else
      var s1 := s.SetProc(j, s.procs[j].(parent := init));
      if s1.procs[j].state == ZOMBIE then Wakeup(s1, init) else s1
  }

  lemma ReparentOneCommutes(s: Sched, i: nat, init: nat, j: nat)
    requires i < |s.procs| && j < |s.procs| && s.procs[i].state == RUNNING && s.procs[i].parent != i
    ensures ReparentOne(s, i, init, j).procs[i] == s.procs[i]
    ensures ReparentOne(Zombie(s, i), i, init, j) == Zombie(ReparentOne(s, i, init, j), i)
  {
    if s.procs[j].parent == i {
      ZombieCommutes(s, i, j);
      WakeCommutes(s.SetProc(j, s.procs[j].(parent := init)), init, |s.procs|, i);
    }
  }

  lemma {:induction false} ReparentCommutes(s: Sched, i: nat, init: nat, n: nat)
    requires n <= |s.procs| && i < |s.procs| && s.procs[i].state == RUNNING && s.procs[i].parent != i
    ensures ReparentUpto(s, i, init, n).procs[i] == s.procs[i]
    ensures ReparentUpto(Zombie(s, i), i, init, n) == Zombie(ReparentUpto(s, i, init, n), i)
  {
    if n > 0 {
      ReparentCommutes(s, i, init, n - 1);
      ReparentOneCommutes(ReparentUpto(s, i, init, n - 1), i, init, n - 1);
    }
  }

  lemma {:induction false} ReparentKeepsInv(s: Sched, i: nat, init: nat, n: nat)
    requires Inv(s) && n <= |s.procs|
    ensures Inv(ReparentUpto(s, i, init, n))
  {
    if n > 0 {
      ReparentKeepsInv(s, i, init, n - 1);
      ReparentOneKeepsInv(ReparentUpto(s, i, init, n - 1), i, init, n - 1);
    }
  }

  lemma ReparentOneKeepsInv(s: Sched, i: nat, init: nat, j: nat)
    requires Inv(s) && j < |s.procs|
    ensures Inv(ReparentOne(s, i, init, j))
  {
    ParentKeepsInv(s, j, init);
    var s1 := s.SetProc(j, s.procs[j].(parent := init));
    WakeKeepsInv(s1, init, |s1.procs|);
  }

  /** The parent field plays no part in the invariant. */
  lemma ParentKeepsInv(s: Sched, i: nat, parent: nat)
    requires Inv(s) && i < |s.procs|
    ensures Inv(s.SetProc(i, s.procs[i].(parent := parent)))
  {
    var p := s.procs[i].(parent := parent);
    assert GoodProc(s.procs[i]);
    OthersUnaffected(s, DEF, i, p);
    QueueByQueue(s.SetProc(i, p));
  }

  lemma ExitKeepsInv(s: Sched, i: nat, init: nat)
    requires Inv(s) && i < |s.procs| && s.procs[i].state == RUNNING && !s.procs[i].changing && s.procs[i].parent != i
    ensures Cleanable(s, i) && Inv(Exit(s, i, init))
  {
    ActiveIsCleanable(s, i);
    LeaveKeepsInv(s, i, s.procs[i].(state := ZOMBIE));
    ExitFrom(Cleanup(s, i), i, init, s.procs[i].parent);
  }

  lemma ExitFrom(c: Sched, i: nat, init: nat, parent: nat)
    requires i < |c.procs| && c.procs[i].state == RUNNING && c.procs[i].parent != i && Inv(Zombie(c, i))
    ensures var s1 := Wakeup(c, parent);
            var s2 := ReparentUpto(s1, i, init, |s1.procs|);
            Inv(Zombie(s2, i))
  {
    var s1 := Wakeup(c, parent);
    var s2 := ReparentUpto(s1, i, init, |s1.procs|);
    WakeCommutes(c, parent, |c.procs|, i);
    ReparentCommutes(s1, i, init, |s1.procs|);
    WakeKeepsInv(Zombie(c, i), parent, |c.procs|);
    ReparentKeepsInv(Zombie(s1, i), i, init, |s1.procs|);
  }

  lemma YieldKeepsInv(s: Sched, i: nat)
    requires Inv(s) && i < |s.procs| && s.procs[i].state == RUNNING
    ensures Inv(Yield(s, i))
  {
    var s1 := if s.procs[i].q == RR then s.(rrCounter := Increment(s.rrCounter)) else s;
    var p := s.procs[i].(changing := false, state := RUNNABLE);
    assert GoodProc(s.procs[i]);
    assert Inv(s1);
    var s' := if s.procs[i].changing then Join(s1, i, p) else s1.SetProc(i, p);
    if s.procs[i].changing {
      JoinKeepsInv(s1, i, p);
    } else {
      StayKeepsInv(s1, i, p);
    }
    assert Inv(s') && Yield(s, i) == s';
  }

  lemma SleepKeepsInv(s: Sched, i: nat, chan: nat)
    requires Inv(s) && i < |s.procs| && s.procs[i].state == RUNNING && !s.procs[i].changing
    ensures Cleanable(s, i) && Inv(Sleep(s, i, chan))
  {
    var p := s.procs[i].(chan := chan, state := SLEEPING);
    assert GoodProc(s.procs[i]);
    ActiveIsCleanable(s, i);
    LeaveKeepsInv(s, i, p);
  }

  // ------------------------------------------------------------------
  // Why a process whose queue was changed must yield first: it is in no queue, so the
  // search for its pid finds nothing, and `cleanupCorresQueue` drops the last process of
  // the queue instead, or panics on an empty one.

  /** Process j belongs in queue t and is not in it. */
  predicate Lost(s: Sched, j: nat, t: QType) {
    t != DEF && j < |s.procs| && Belongs(s.procs[j], t) && j !in s.Q(t)
  }

  lemma LostBreaksInv(s: Sched, j: nat, t: QType)
    requires Lost(s, j, t)
    ensures !Inv(s)
  {
    assert !Holds(s.procs, s.Q(t), t);
  }

  /** A process whose queue change is pending is in no queue, so the search for its pid finds nothing. */
  lemma PendingIsAbsent(s: Sched, i: nat, q: seq<nat>, t: QType)
    requires Inv(s) && i < |s.procs| && s.procs[i].state == RUNNING && s.procs[i].changing && Holds(s.procs, q, t)
    ensures Find(s.Pids(), q, s.procs[i].pid) == |q|
  {
    forall k | 0 <= k < |q| ensures s.procs[q[k]].pid != s.procs[i].pid {
      assert q[k] in q;
      assert Belongs(s.procs[q[k]], t);
    }
    FindIs(s.Pids(), q, s.procs[i].pid, |q|);
  }

  lemma CleanupLoses(s: Sched, i: nat) returns (j: nat)
    requires Inv(s) && Cleanable(s, i) && s.procs[i].state == RUNNING && s.procs[i].changing
    ensures j != i && Lost(Cleanup(s, i), j, s.procs[i].q)
  {
    assert GoodProc(s.procs[i]);
    var t := s.procs[i].q;
    var q := s.Q(t);
    assert Holds(s.procs, q, t);
    PendingIsAbsent(s, i, q, t);
    j := q[|q| - 1];
    assert j in q;
  }

  lemma {:induction false} WakeKeepsLost(s: Sched, chan: nat, n: nat, j: nat, t: QType)
    requires n <= |s.procs| && Lost(s, j, t)
    ensures Lost(WakeUpto(s, chan, n), j, t)
  {
    if n > 0 {
      WakeKeepsLost(s, chan, n - 1, j, t);
    }
  }

  lemma {:induction false} ReparentKeepsLost(s: Sched, i: nat, init: nat, n: nat, j: nat, t: QType)
    requires n <= |s.procs| && Lost(s, j, t)
    ensures Lost(ReparentUpto(s, i, init, n), j, t)
  {
    if n > 0 {
      ReparentKeepsLost(s, i, init, n - 1, j, t);
      var a := ReparentUpto(s, i, init, n - 1);
      var s1 := a.SetProc(n - 1, a.procs[n - 1].(parent := init));
      WakeKeepsLost(s1, init, |s1.procs|, j, t);
    }
  }

  /** Sleeping keeps the invariant exactly when no change is pending. */
  lemma SleepExact(s: Sched, i: nat, chan: nat)
    requires Inv(s) && i < |s.procs| && s.procs[i].state == RUNNING
    ensures Cleanable(s, i) && Inv(Sleep(s, i, chan)) <==> !s.procs[i].changing
  {
    if !s.procs[i].changing {
      SleepKeepsInv(s, i, chan);
    } else if Cleanable(s, i) {
      var j := CleanupLoses(s, i);
      LostBreaksInv(Sleep(s, i, chan), j, s.procs[i].q);
    }
  }

  /** So does exiting. */
  lemma ExitExact(s: Sched, i: nat, init: nat)
    requires Inv(s) && i < |s.procs| && s.procs[i].state == RUNNING && s.procs[i].parent != i
    ensures Cleanable(s, i) && Inv(Exit(s, i, init)) <==> !s.procs[i].changing
  {
    if !s.procs[i].changing {
      ExitKeepsInv(s, i, init);
    } else if Cleanable(s, i) {
      var j := CleanupLoses(s, i);
      var t, c := s.procs[i].q, Cleanup(s, i);
      var s1 := Wakeup(c, s.procs[i].parent);
      WakeKeepsLost(c, s.procs[i].parent, |c.procs|, j, t);
      ReparentKeepsLost(s1, i, init, |s1.procs|, j, t);
      LostBreaksInv(Exit(s, i, init), j, t);
    }
  }

  /** A process that takes part in scheduling, now or when it wakes up. */
  predicate InUse(p: Proc) {
    p.state == SLEEPING || p.state == RUNNABLE || p.state == RUNNING
  }

  predicate Changeable(s: Sched, pid: nat) {
    var i := FindPid(s.procs, pid);
    i < |s.procs| && (s.procs[i].state == RUNNING || s.procs[i].state == RUNNABLE ==> Cleanable(s, i))
  }

  /**
   Changing the queue keeps the invariant exactly when no change is pending and DEF is
   not given to a process in use.
   */
  lemma ChangeExact(s: Sched, pid: nat, t: QType)
    requires Inv(s) && FindPid(s.procs, pid) < |s.procs|
    ensures var p := s.procs[FindPid(s.procs, pid)];
            Changeable(s, pid) && Inv(ChangeQueue(s, pid, t)) <==> !p.changing && (t != DEF || !InUse(p))
  {
    var i := FindPid(s.procs, pid);
    var p := s.procs[i];
    assert GoodProc(p);
    if p.changing {
      if Cleanable(s, i) {
        var j := CleanupLoses(s, i);
        LostBreaksInv(ChangeQueue(s, pid, t), j, p.q);
      }
    } else if t != DEF || !InUse(p) {
      ChangeKeepsInv(s, pid, t);
    } else if Changeable(s, pid) {
      assert !GoodProc(ChangeQueue(s, pid, t).procs[i]);
    }
  }

  /** Process i goes on: it yields, wakes up or waits in its queue as before. */
  function Resumed(s: Sched, i: nat): (s': Sched)
    requires i < |s.procs|
  {
    match s.procs[i].state
    case RUNNING => Yield(s, i)
    case SLEEPING => WakeOne(s, i)
    case _ => s
  }

  /**
   What DEF does to a process in use: once it goes on, `cleanupCorresQueue` panics on it, so
   it can no longer sleep, exit or age.  With any other queue it does not panic.
   */
  lemma DefaultPanicsExact(s: Sched, pid: nat, t: QType)
    requires Inv(s) && FindPid(s.procs, pid) < |s.procs|
    requires InUse(s.procs[FindPid(s.procs, pid)]) && !s.procs[FindPid(s.procs, pid)].changing
    ensures Changeable(s, pid)
    ensures Cleanable(Resumed(ChangeQueue(s, pid, t), FindPid(s.procs, pid)), FindPid(s.procs, pid)) <==> t != DEF
  {
    var i := FindPid(s.procs, pid);
    ChangeDefined(s, pid);
    var s1 := ChangeQueue(s, pid, t);
    ChangedProc(s, pid, t, s1);
    if t != DEF {
      ChangeKeepsInv(s, pid, t);
      ResumedIsCleanable(s1, i);
    }
  }

  lemma ChangeDefined(s: Sched, pid: nat)
    requires Inv(s) && FindPid(s.procs, pid) < |s.procs| && !s.procs[FindPid(s.procs, pid)].changing
    ensures Changeable(s, pid)
  {
    var i := FindPid(s.procs, pid);
    if Active(s.procs[i]) {
      ActiveIsCleanable(s, i);
    }
  }

  lemma ChangedProc(s: Sched, pid: nat, t: QType, s': Sched)
    requires Changeable(s, pid) && s' == ChangeQueue(s, pid, t)
    ensures var i := FindPid(s.procs, pid);
            i < |s'.procs| && s'.procs[i].state == s.procs[i].state && s'.procs[i].q == t
  {
  }

  lemma ResumedIsCleanable(s: Sched, i: nat)
    requires Inv(s) && i < |s.procs| && InUse(s.procs[i])
    ensures Cleanable(Resumed(s, i), i)
  {
    assert GoodProc(s.procs[i]);
    if s.procs[i].state == RUNNING {
      YieldKeepsInv(s, i);
    } else if s.procs[i].state == SLEEPING {
      WakeOneKeepsInv(s, i);
    }
    ActiveIsCleanable(Resumed(s, i), i);
  }

  lemma ChangeKeepsInv(s: Sched, pid: nat, t: QType)
    requires Inv(s) && FindPid(s.procs, pid) < |s.procs| && !s.procs[FindPid(s.procs, pid)].changing
    requires t != DEF || !InUse(s.procs[FindPid(s.procs, pid)])
    ensures Changeable(s, pid) && Inv(ChangeQueue(s, pid, t))
  {
    var i := FindPid(s.procs, pid);
    var p := s.procs[i];
    assert GoodProc(p);
    if p.state == RUNNING || p.state == RUNNABLE {
      ActiveIsCleanable(s, i);
    }
    var s' := ChangeQueue(s, pid, t);
    if p.state == RUNNABLE {
      ChangeRunnable(s, i, t, s');
    } else if p.state == RUNNING {
      SetTwice(Cleanup(s, i), i, p.(q := t), p.(q := t, changing := true));
      ChangeRunning(s, i, t, s');
    } else {
      ChangeIdle(s, i, t, s');
    }
  }

  lemma ChangeRunnable(s: Sched, i: nat, t: QType, s': Sched)
    requires Inv(s) && Cleanable(s, i) && s.procs[i].state == RUNNABLE && GoodProc(s.procs[i]) && t != DEF
    requires s' == Move(s, i, s.procs[i].(q := t))
    ensures Inv(s')
  {
    MoveKeepsInv(s, i, s.procs[i].(q := t));
  }

  lemma ChangeRunning(s: Sched, i: nat, t: QType, s': Sched)
    requires Inv(s) && Cleanable(s, i) && s.procs[i].state == RUNNING && !s.procs[i].changing && t != DEF
    requires s' == Leave(s, i, s.procs[i].(q := t, changing := true))
    ensures Inv(s')
  {
    LeaveKeepsInv(s, i, s.procs[i].(q := t, changing := true));
  }

  lemma ChangeIdle(s: Sched, i: nat, t: QType, s': Sched)
    requires Inv(s) && i < |s.procs| && !Active(s.procs[i]) && !s.procs[i].changing && (t != DEF || !InUse(s.procs[i]))
    requires s' == s.SetProc(i, s.procs[i].(q := t))
    ensures Inv(s')
  {
    OthersUnaffected(s, DEF, i, s.procs[i].(q := t));
    QueueByQueue(s');
  }

  lemma SetTwice(s: Sched, i: nat, a: Proc, b: Proc)
    requires i < |s.procs|
    ensures s.SetProc(i, a).SetProc(i, b) == s.SetProc(i, b)
  {
  }
}
