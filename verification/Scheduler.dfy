/**
 The multi-level queue scheduler as a state machine.  Every critical section of
 ptable.lock is one step on the process table and the three queues.
 */
module Scheduler {
  import opened Basics
  import opened ReadyQueue

  const AGING_BOUND: nat := 2000
  const UINT: nat := 0x1_0000_0000

  /** An unsigned 32-bit counter. */
  type Counter = n: nat | n < UINT

  function Increment(n: Counter): (n': Counter) {
    if n + 1 == UINT then 0 else n + 1
  }

  datatype ProcState = UNUSED | EMBRYO | SLEEPING | RUNNABLE | RUNNING | ZOMBIE

  datatype QType = DEF | RR | LCFS | BJF

  /** changing: the queue of the process was changed while it was running, and it has not yielded since. */
  datatype Proc = Proc(
    state: ProcState, pid: nat, parent: nat, chan: nat, killed: bool, q: QType, waiting: Counter, changing: bool)

  datatype Sched = Sched(procs: seq<Proc>, rr: seq<nat>, lcfs: seq<nat>, bjf: seq<nat>, rrCounter: Counter) {

    function Q(t: QType): (q: seq<nat>) {
      match t
      case RR => rr
      case LCFS => lcfs
      case BJF => bjf
      case DEF => []
    }

    function SetQ(t: QType, q: seq<nat>): (s: Sched) {
      match t
      case RR => this.(rr := q)
      case LCFS => this.(lcfs := q)
      case BJF => this.(bjf := q)
      case DEF => this
    }

    function SetProc(i: nat, p: Proc): (s: Sched)
      requires i < |procs|
    {
      this.(procs := procs[i := p])
    }

    function Pids(): (ids: seq<nat>)
      ensures |ids| == |procs|
      ensures forall i :: 0 <= i < |ids| ==> ids[i] == procs[i].pid
    {
      seq(|procs|, i requires 0 <= i < |procs| => procs[i].pid)
    }
  }

  // ------------------------------------------------------------------
  // The queue invariant

  /** A process that belongs in the queue named by its q. */
  predicate Active(p: Proc) {
    (p.state == RUNNABLE || p.state == RUNNING) && !p.changing
  }

  predicate Belongs(p: Proc, t: QType) {
    Active(p) && p.q == t
  }

  /** q holds exactly the processes that belong in queue t, each once. */
  ghost predicate Holds(procs: seq<Proc>, q: seq<nat>, t: QType) {
    && Entries(q, |procs|)
    && NoRepeat(q)
    && forall i :: 0 <= i < |procs| ==> (i in q <==> Belongs(procs[i], t))
  }

  predicate GoodProc(p: Proc) {
    && (p.changing ==> p.state == RUNNING)
    && (p.state == SLEEPING || p.state == RUNNABLE || p.state == RUNNING ==> p.q != DEF)
  }

  /** Processes in use have distinct pids. */
  predicate DistinctPids(procs: seq<Proc>) {
    forall i, j :: 0 <= i < j < |procs| && procs[i].state != UNUSED && procs[j].state != UNUSED ==>
      procs[i].pid != procs[j].pid
  }

  ghost predicate Inv(s: Sched) {
    && |s.procs| == NPROC
    && DistinctPids(s.procs)
    && (forall i :: 0 <= i < |s.procs| ==> GoodProc(s.procs[i]))
    && Holds(s.procs, s.rr, RR) && Holds(s.procs, s.lcfs, LCFS) && Holds(s.procs, s.bjf, BJF)
  }

  /** `cleanupCorresQueue` for process i; it searches by pid. */
  function Cleanup(s: Sched, i: nat): (s': Sched)
    requires i < |s.procs| && s.Q(s.procs[i].q) != [] && Entries(s.Q(s.procs[i].q), |s.procs|)
  {
    var t := s.procs[i].q;
    s.SetQ(t, Removed(s.Pids(), s.Q(t), s.procs[i].pid))
  }

  /** Append process i to the queue named by its q. */
  function Enqueue(s: Sched, i: nat): (s': Sched)
    requires i < |s.procs|
  {
    s.SetQ(s.procs[i].q, s.Q(s.procs[i].q) + [i])
  }

  /** Process i leaves its queue and becomes p. */
  function Leave(s: Sched, i: nat, p: Proc): (s': Sched)
    requires i < |s.procs| && s.Q(s.procs[i].q) != [] && Entries(s.Q(s.procs[i].q), |s.procs|)
  {
    Cleanup(s, i).SetProc(i, p)
  }

  /** Process i becomes p and joins the queue of p. */
  function Join(s: Sched, i: nat, p: Proc): (s': Sched)
    requires i < |s.procs|
  {
    Enqueue(s.SetProc(i, p), i)
  }

  /** Process i leaves its queue, becomes p and joins the queue of p. */
  function Move(s: Sched, i: nat, p: Proc): (s': Sched)
    requires i < |s.procs| && s.Q(s.procs[i].q) != [] && Entries(s.Q(s.procs[i].q), |s.procs|)
  {
    Join(Cleanup(s, i), i, p)
  }

  /** Removing process i takes out its one entry and leaves the others in order. */
  lemma RemovedIs(s: Sched, i: nat, t: QType)
    requires Inv(s) && i < |s.procs| && Active(s.procs[i]) && s.procs[i].q == t
    ensures t != DEF && s.Q(t) != [] && Entries(s.Q(t), |s.procs|) && Holds(s.procs, s.Q(t), t)
    ensures exists k :: && 0 <= k < |s.Q(t)| && s.Q(t)[k] == i
                        && Removed(s.Pids(), s.Q(t), s.procs[i].pid) == s.Q(t)[..k] + s.Q(t)[k + 1..]
  {
    assert GoodProc(s.procs[i]);
    assert Holds(s.procs, s.Q(t), t);
    var q, pid := s.Q(t), s.procs[i].pid;
    assert i in q;
    var k := Find(s.Pids(), q, pid);
    var j :| 0 <= j < |q| && q[j] == i;
    assert k <= j;
    assert Active(s.procs[q[k]]) by { assert q[k] in q; }
    assert q[k] == i;
  }

  /** The elements of a sequence without position k. */
  lemma WithoutMembers(q: seq<nat>, k: nat)
    requires k < |q| && NoRepeat(q)
    ensures NoRepeat(q[..k] + q[k + 1..])
    ensures forall x: nat :: x in q[..k] + q[k + 1..] <==> x in q && x != q[k]
  {
    var r := q[..k] + q[k + 1..];
    assert forall i :: 0 <= i < |r| ==> r[i] == if i < k then q[i] else q[i + 1];
    forall x: nat ensures x in r <==> x in q && x != q[k] {
      if x in q && x != q[k] {
        var i :| 0 <= i < |q| && q[i] == x;
        assert r[if i < k then i else i - 1] == x;
      }
    }
  }

  lemma QueueUnaffected(procs: seq<Proc>, q: seq<nat>, t: QType, i: nat, p: Proc)
    requires Holds(procs, q, t) && i < |procs| && Belongs(p, t) == Belongs(procs[i], t)
    ensures Holds(procs[i := p], q, t)
  {
  }

  lemma QueueLeft(procs: seq<Proc>, q: seq<nat>, t: QType, k: nat, p: Proc)
    requires Holds(procs, q, t) && k < |q| && !Belongs(p, t)
    ensures Holds(procs[q[k] := p], q[..k] + q[k + 1..], t)
  {
    WithoutMembers(q, k);
    var r := q[..k] + q[k + 1..];
    assert forall j :: 0 <= j < |r| ==> r[j] in r;
  }

  lemma QueueJoined(procs: seq<Proc>, q: seq<nat>, t: QType, i: nat, p: Proc)
    requires Holds(procs, q, t) && i < |procs| && !Belongs(procs[i], t) && Belongs(p, t)
    ensures Holds(procs[i := p], q + [i], t)
  {
    assert i !in q;
  }

  lemma PidsKept(procs: seq<Proc>, i: nat, p: Proc)
    requires DistinctPids(procs) && i < |procs|
    requires p.state == UNUSED || (p.pid == procs[i].pid && procs[i].state != UNUSED)
    ensures DistinctPids(procs[i := p])
  {
  }

  lemma QueueByQueue(s: Sched)
    requires |s.procs| == NPROC && DistinctPids(s.procs)
    requires forall i :: 0 <= i < |s.procs| ==> GoodProc(s.procs[i])
    requires forall u :: u != DEF ==> Holds(s.procs, s.Q(u), u)
    ensures Inv(s)
  {
    assert Holds(s.procs, s.Q(RR), RR) && Holds(s.procs, s.Q(LCFS), LCFS) && Holds(s.procs, s.Q(BJF), BJF);
  }

  /** Process i leaves its queue and becomes p, which belongs in no queue. */
  lemma LeaveKeepsInv(s: Sched, i: nat, p: Proc)
    requires Inv(s) && i < |s.procs| && Active(s.procs[i])
    requires !Active(p) && GoodProc(p) && p.pid == s.procs[i].pid
    ensures s.Q(s.procs[i].q) != [] && Entries(s.Q(s.procs[i].q), |s.procs|)
    ensures Inv(Leave(s, i, p))
  {
    var t := s.procs[i].q;
    OwnQueueLeft(s, i, p, t);
    PidsKept(s.procs, i, p);
    OthersUnaffected(s, t, i, p);
    var s' := Leave(s, i, p);
    forall u | u != DEF ensures Holds(s'.procs, s'.Q(u), u) {
      if u != t {
        assert s'.Q(u) == s.Q(u);
      }
    }
    QueueByQueue(s');
  }

  lemma OwnQueueLeft(s: Sched, i: nat, p: Proc, t: QType)
    requires Inv(s) && i < |s.procs| && Active(s.procs[i]) && s.procs[i].q == t && !Active(p)
    ensures t != DEF && s.Q(t) != [] && Entries(s.Q(t), |s.procs|)
    ensures Holds(s.procs[i := p], Removed(s.Pids(), s.Q(t), s.procs[i].pid), t)
  {
    RemovedIs(s, i, t);
    var k :| && 0 <= k < |s.Q(t)| && s.Q(t)[k] == i
             && Removed(s.Pids(), s.Q(t), s.procs[i].pid) == s.Q(t)[..k] + s.Q(t)[k + 1..];
    QueueLeft(s.procs, s.Q(t), t, k, p);
  }

  lemma OthersUnaffected(s: Sched, t: QType, i: nat, p: Proc)
    requires Inv(s) && i < |s.procs|
    requires forall u :: u != t ==> Belongs(p, u) == Belongs(s.procs[i], u)
    ensures forall u :: u != t && u != DEF ==> Holds(s.procs[i := p], s.Q(u), u)
  {
    forall u | u != t && u != DEF ensures Holds(s.procs[i := p], s.Q(u), u) {
      assert Holds(s.procs, s.Q(u), u);
      QueueUnaffected(s.procs, s.Q(u), u, i, p);
    }
  }

  /** Process i, which is in no queue, becomes p and joins the queue of p. */
  lemma JoinKeepsInv(s: Sched, i: nat, p: Proc)
    requires Inv(s) && i < |s.procs| && !Active(s.procs[i]) && s.procs[i].state != UNUSED
    requires Active(p) && GoodProc(p) && p.pid == s.procs[i].pid
    ensures Inv(Join(s, i, p))
  {
    assert Holds(s.procs, s.Q(p.q), p.q);
    QueueJoined(s.procs, s.Q(p.q), p.q, i, p);
    PidsKept(s.procs, i, p);
    OthersUnaffected(s, p.q, i, p);
    QueueByQueue(Join(s, i, p));
  }

  /** Process i becomes p, which belongs where process i belonged. */
  lemma StayKeepsInv(s: Sched, i: nat, p: Proc)
    requires Inv(s) && i < |s.procs| && GoodProc(p)
    requires p.state == UNUSED || (p.pid == s.procs[i].pid && s.procs[i].state != UNUSED)
    requires Active(p) == Active(s.procs[i]) && (Active(p) ==> p.q == s.procs[i].q)
    ensures Inv(s.SetProc(i, p))
  {
    PidsKept(s.procs, i, p);
    OthersUnaffected(s, DEF, i, p);
    QueueByQueue(s.SetProc(i, p));
  }
}
