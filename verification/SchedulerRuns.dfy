/** What the scheduler picks, runs of the process table, and the bound on waiting. */
module SchedulerRuns {
  import opened Basics
  import opened ReadyQueue
  import opened Scheduler
  import opened SchedulerSteps

  // ------------------------------------------------------------------
  // The choice of the next process

  /** Position of the d-th entry looked at in a round-robin queue of n entries; the counter is a 32-bit number. */
  function RRIndex(counter: nat, d: nat, n: nat): (k: nat)
    requires n > 0
    ensures k < n
  {
    (counter + d) % UINT % n
  }

  predicate Runnable(s: Sched, i: nat) {
    i < |s.procs| && s.procs[i].state == RUNNABLE
  }

  function PickRR(s: Sched, d: nat): (r: Option<nat>)
    requires d <= |s.rr|
    decreases |s.rr| - d
  {
    if d == |s.rr| then None
    else if Runnable(s, s.rr[RRIndex(s.rrCounter, d, |s.rr|)]) then Some(s.rr[RRIndex(s.rrCounter, d, |s.rr|)])
    else PickRR(s, d + 1)
  }

  /** The last of the first k entries that is runnable. */
  function PickLCFS(s: Sched, k: nat): (r: Option<nat>)
    requires k <= |s.lcfs|
  {
    if k == 0 then None
    else if Runnable(s, s.lcfs[k - 1]) then Some(s.lcfs[k - 1])
    else PickLCFS(s, k - 1)
  }

  /** The first runnable process from position i of the table on. */
  function PickTable(s: Sched, i: nat): (r: Option<nat>)
    requires i <= |s.procs|
    decreases |s.procs| - i
  {
    if i == |s.procs| then None else if Runnable(s, i) then Some(i) else PickTable(s, i + 1)
  }

  /** The process that `scheduler` switches to.  From a BJF queue it takes none. */
  function Pick(s: Sched): (r: Option<nat>) {
    if s.rr != [] then PickRR(s, 0)
    else if s.lcfs != [] then PickLCFS(s, |s.lcfs|)
    else if s.bjf != [] then None
    else PickTable(s, 0)
  }

  /** Both panics on an entry that is neither runnable nor running are unreachable. */
  lemma NoPanic(s: Sched, t: QType, k: nat)
    requires Inv(s) && k < |s.Q(t)|
    ensures s.Q(t)[k] < |s.procs| && (s.procs[s.Q(t)[k]].state == RUNNABLE || s.procs[s.Q(t)[k]].state == RUNNING)
  {
    assert Holds(s.procs, s.Q(t), t);
    assert s.Q(t)[k] in s.Q(t);
  }

  lemma {:induction false} PickRRSpec(s: Sched, d: nat)
    requires d <= |s.rr|
    ensures PickRR(s, d) == None <==>
              forall e :: d <= e < |s.rr| ==> !Runnable(s, s.rr[RRIndex(s.rrCounter, e, |s.rr|)])
    ensures PickRR(s, d).Some? ==>
              exists e :: d <= e < |s.rr| && PickRR(s, d) == Some(s.rr[RRIndex(s.rrCounter, e, |s.rr|)])
                && Runnable(s, PickRR(s, d).value)
                && forall f :: d <= f < e ==> !Runnable(s, s.rr[RRIndex(s.rrCounter, f, |s.rr|)])
    decreases |s.rr| - d
  {
    if d < |s.rr| {
      PickRRSpec(s, d + 1);
    }
  }

  lemma ModAdd(c: nat, n: nat, d: nat, k: nat)
    requires n > 0 && k < n && (c % n + d == k || c % n + d == k + n)
    ensures (c + d) % n == k
  {
    var q := c / n;
    assert c == q * n + c % n;
    if c % n + d == k {
      ModIs(c + d, n, q, k);
    } else {
      assert (q + 1) * n == q * n + n;
      ModIs(c + d, n, q + 1, k);
    }
  }

  /**
   The search sees every position of a queue of n entries: the counter does not wrap
   around on the way, or n divides 2^32.
   */
  predicate SeesAll(counter: nat, n: nat)
    requires n > 0
  {
    counter + n <= UINT || UINT % n == 0
  }

  lemma WrapIsHarmless(counter: nat, n: nat, d: nat)
    requires 0 < n && counter < UINT && d < n <= UINT && SeesAll(counter, n)
    ensures RRIndex(counter, d, n) == (counter + d) % n
  {
    if counter + d >= UINT {
      var x, q := counter + d - UINT, UINT / n;
      assert UINT == q * n;
      assert x == x / n * n + x % n;
      assert (q + x / n) * n == q * n + x / n * n;
      ModIs(counter + d, n, q + x / n, x % n);
    }
  }

  lemma RRCovers(counter: nat, n: nat, k: nat) returns (d: nat)
    requires 0 < n <= UINT && counter < UINT && k < n && SeesAll(counter, n)
    ensures d < n && RRIndex(counter, d, n) == k
  {
    var c := counter % n;
    d := if k >= c then k - c else k + n - c;
    ModAdd(counter, n, d, k);
    WrapIsHarmless(counter, n, d);
  }

  /** The search looks at position k. */
  predicate Sees(counter: nat, n: nat, k: nat)
    requires n > 0
  {
    exists d :: 0 <= d < n && RRIndex(counter, d, n) == k
  }

  /** A position that the search does not look at when the counter wraps around and n does not divide 2^32. */
  function Missed(counter: nat, n: nat): (m: nat)
    requires 0 < n <= UINT && counter < UINT && !SeesAll(counter, n)
    ensures m < n
  {
    var w, r := UINT - counter, UINT % n;
    if w <= r then n - 1 else n - w + r - 1
  }

  lemma RRMisses(counter: nat, n: nat, d: nat)
    requires 0 < n <= UINT && counter < UINT && !SeesAll(counter, n) && d < n
    ensures RRIndex(counter, d, n) != Missed(counter, n)
  {
    var w, r, q := UINT - counter, UINT % n, UINT / n;
    assert UINT == q * n + r;
    if d >= w {
      ModIs(d - w, n, 0, d - w);
    } else if r + d >= w {
      ModIs(counter + d, n, q, r + d - w);
    } else {
      assert (q - 1) * n == q * n - n;
      QuotientPositive(UINT, n);
      ModIs(counter + d, n, q - 1, r + d + n - w);
    }
  }

  lemma QuotientPositive(x: nat, n: nat)
    requires 0 < n <= x
    ensures x / n >= 1
  {
  }

  /** The search looks at every position exactly when SeesAll holds. */
  lemma RRCoversExact(counter: nat, n: nat)
    requires 0 < n <= UINT && counter < UINT
    ensures SeesAll(counter, n) <==> forall k: nat :: k < n ==> Sees(counter, n, k)
  {
    if SeesAll(counter, n) {
      forall k: nat | k < n ensures Sees(counter, n, k) {
        var d := RRCovers(counter, n, k);
      }
    } else {
      forall d: nat | d < n ensures RRIndex(counter, d, n) != Missed(counter, n) {
        RRMisses(counter, n, d);
      }
      assert !Sees(counter, n, Missed(counter, n));
    }
  }

  /** The entry d places after the one at rr_counter, going round the queue. */
  function Cyclic(s: Sched, d: nat): (i: nat)
    requires s.rr != []
  {
    s.rr[(s.rrCounter + d) % |s.rr|]
  }

  lemma CyclicIs(s: Sched, d: nat)
    requires d < |s.rr| <= UINT && SeesAll(s.rrCounter, |s.rr|)
    ensures Cyclic(s, d) == s.rr[RRIndex(s.rrCounter, d, |s.rr|)]
  {
    WrapIsHarmless(s.rrCounter, |s.rr|, d);
  }

  /** The entry d places on is the first runnable one. */
  ghost predicate FirstAt(s: Sched, d: nat)
    requires s.rr != []
  {
    Runnable(s, Cyclic(s, d)) && forall e :: 0 <= e < d ==> !Runnable(s, Cyclic(s, e))
  }

  /** With a runnable process in the RR queue, the scheduler picks the first one cyclically from the counter. */
  lemma RRPicksFirst(s: Sched)
    requires |s.rr| <= UINT && exists k :: 0 <= k < |s.rr| && Runnable(s, s.rr[k])
    requires SeesAll(s.rrCounter, |s.rr|)
    ensures exists d :: 0 <= d < |s.rr| && FirstAt(s, d) && Pick(s) == Some(Cyclic(s, d))
  {
    var d := RRFirst(s);
    CyclicIs(s, d);
    forall e | 0 <= e < d ensures !Runnable(s, Cyclic(s, e)) {
      CyclicIs(s, e);
    }
    assert FirstAt(s, d);
  }

  /** Where the search stops. */
  lemma RRFirst(s: Sched) returns (d: nat)
    requires 0 < |s.rr| <= UINT && SeesAll(s.rrCounter, |s.rr|)
    requires exists k :: 0 <= k < |s.rr| && Runnable(s, s.rr[k])
    ensures d < |s.rr| && PickRR(s, 0) == Some(s.rr[RRIndex(s.rrCounter, d, |s.rr|)]) && Runnable(s, PickRR(s, 0).value)
    ensures forall e :: 0 <= e < d ==> !Runnable(s, s.rr[RRIndex(s.rrCounter, e, |s.rr|)])
  {
    PickRRSpec(s, 0);
    var k :| 0 <= k < |s.rr| && Runnable(s, s.rr[k]);
    var c := RRCovers(s.rrCounter, |s.rr|, k);
    d :| 0 <= d < |s.rr| && PickRR(s, 0) == Some(s.rr[RRIndex(s.rrCounter, d, |s.rr|)])
         && forall e :: 0 <= e < d ==> !Runnable(s, s.rr[RRIndex(s.rrCounter, e, |s.rr|)]);
  }

  /**
   Otherwise the scheduler stays idle when the process at the missed position is the
   only runnable one of the queue.
   */
  lemma RRIdles(s: Sched)
    requires Inv(s) && 0 < |s.rr| <= UINT && !SeesAll(s.rrCounter, |s.rr|)
    requires forall k :: 0 <= k < |s.rr| && k != Missed(s.rrCounter, |s.rr|) ==> !Runnable(s, s.rr[k])
    ensures Pick(s) == None
  {
    PickRRSpec(s, 0);
    forall d | 0 <= d < |s.rr| ensures !Runnable(s, s.rr[RRIndex(s.rrCounter, d, |s.rr|)]) {
      RRMisses(s.rrCounter, |s.rr|, d);
    }
  }

  lemma {:induction false} PickLCFSSpec(s: Sched, k: nat)
    requires k <= |s.lcfs|
    ensures PickLCFS(s, k) == None <==> forall j :: 0 <= j < k ==> !Runnable(s, s.lcfs[j])
    ensures PickLCFS(s, k).Some? ==>
              exists e :: 0 <= e < k && PickLCFS(s, k) == Some(s.lcfs[e]) && Runnable(s, s.lcfs[e])
                && forall j :: e < j < k ==> !Runnable(s, s.lcfs[j])
  {
    if k > 0 {
      PickLCFSSpec(s, k - 1);
    }
  }

  /** With an empty RR queue the scheduler picks the most recently enqueued runnable LCFS process. */
  lemma LCFSPicksLatest(s: Sched)
    requires Inv(s) && s.rr == [] && exists k :: 0 <= k < |s.lcfs| && Runnable(s, s.lcfs[k])
    ensures exists e :: 0 <= e < |s.lcfs| && Pick(s) == Some(s.lcfs[e]) && Runnable(s, s.lcfs[e])
              && forall j :: e < j < |s.lcfs| ==> !Runnable(s, s.lcfs[j])
  {
    PickLCFSSpec(s, |s.lcfs|);
  }

  lemma {:induction false} PickTableSpec(s: Sched, i: nat)
    requires i <= |s.procs|
    ensures PickTable(s, i).Some? ==> Runnable(s, PickTable(s, i).value)
    decreases |s.procs| - i
  {
    if i < |s.procs| && !Runnable(s, i) {
      PickTableSpec(s, i + 1);
    }
  }

  /**
   When both the RR and the LCFS queue are empty nothing is picked: a BJF process runs
   only after it has been moved.
   */
  lemma NothingElsePicked(s: Sched)
    requires Inv(s) && s.rr == [] && s.lcfs == []
    ensures Pick(s) == None
  {
    if s.bjf == [] {
      PickTableSpec(s, 0);
      NoneRunnable(s);
    }
  }

  lemma NoneRunnable(s: Sched)
    requires Inv(s) && s.rr == [] && s.lcfs == [] && s.bjf == []
    ensures forall i :: 0 <= i < |s.procs| ==> !Runnable(s, i)
  {
    forall i | 0 <= i < |s.procs| ensures !Runnable(s, i) {
      assert GoodProc(s.procs[i]);
      assert i !in s.rr && i !in s.lcfs && i !in s.bjf;
    }
  }

  lemma PickIsRunnable(s: Sched)
    requires Inv(s) && Pick(s).Some?
    ensures Runnable(s, Pick(s).value) && (Pick(s).value in s.rr || Pick(s).value in s.lcfs)
  {
    if s.rr != [] {
      PickRRSpec(s, 0);
    } else if s.lcfs != [] {
      PickLCFSSpec(s, |s.lcfs|);
    } else {
      NothingElsePicked(s);
    }
  }

  // ------------------------------------------------------------------
  // Runs

  datatype Label =
    | Alloc(i: nat, pid: nat)
    | Fork(i: nat, parent: nat)
    | Run(i: nat)
    | YieldOf(i: nat)
    | SleepOf(i: nat, chan: nat)
    | WakeupOn(chan: nat)
    | KillOf(pid: nat)
    | ExitOf(i: nat, init: nat)
    | Reap(i: nat)
    | ForkFails(i: nat)
    | TimerTick
    | Change(pid: nat, t: QType)

  /** No queue is full; `shiftOutQueue` needs the entry behind the last. */
  predicate Room(s: Sched) {
    |s.rr| < NPROC && |s.lcfs| < NPROC && |s.bjf| < NPROC
  }

  /**
   What the kernel does, within the limits under which it is meant to work: no full
   queue, DEF is not assigned, a process whose queue was changed while it ran yields
   before it sleeps, exits or is changed again, and change_queue gets an existing pid.
   */
  ghost predicate Enabled(s: Sched, a: Label) {
    && Room(s)
    && match a
       case Alloc(i, pid) =>
         && i < |s.procs| && s.procs[i].state == UNUSED
         && forall j :: 0 <= j < |s.procs| && s.procs[j].state != UNUSED ==> s.procs[j].pid != pid
       case Fork(i, parent) => i < |s.procs| && s.procs[i].state == EMBRYO
       case Run(i) => Pick(s) == Some(i)
       case YieldOf(i) => i < |s.procs| && s.procs[i].state == RUNNING
       case SleepOf(i, chan) => i < |s.procs| && s.procs[i].state == RUNNING && !s.procs[i].changing
       case WakeupOn(chan) => true
       case KillOf(pid) => true
       case ExitOf(i, init) =>
         i < |s.procs| && s.procs[i].state == RUNNING && !s.procs[i].changing && s.procs[i].parent != i
       case Reap(i) => i < |s.procs| && s.procs[i].state == ZOMBIE
       case ForkFails(i) => i < |s.procs| && s.procs[i].state == EMBRYO
       case TimerTick => true
       case Change(pid, t) => t != DEF && FindPid(s.procs, pid) < |s.procs| && !s.procs[FindPid(s.procs, pid)].changing
  }

  /** The invariant provides a non-empty queue wherever a step calls `cleanupCorresQueue`, which then does not panic. */
  lemma CleanupNeverPanics(s: Sched, i: nat)
    requires Inv(s) && i < |s.procs| && !s.procs[i].changing
    requires s.procs[i].state == RUNNING || s.procs[i].state == RUNNABLE
    ensures Cleanable(s, i)
  {
    ActiveIsCleanable(s, i);
  }

  /** The process that is picked is in the table. */
  lemma PickInTable(s: Sched)
    requires Inv(s)
    ensures Pick(s).Some? ==> Pick(s).value < |s.procs|
  {
    if Pick(s).Some? {
      PickIsRunnable(s);
    }
  }

  lemma ChangeIsDefined(s: Sched, pid: nat, t: QType)
    requires Inv(s) && Enabled(s, Change(pid, t))
    ensures Changeable(s, pid)
  {
    ChangeKeepsInv(s, pid, t);
  }

  ghost function Next(s: Sched, a: Label): (s': Sched)
    requires Inv(s) && Enabled(s, a)
  {
    match a
    case Alloc(i, pid) => s.SetProc(i, s.procs[i].(state := EMBRYO, pid := pid))
    case Fork(i, parent) =>
      Enqueue(s.SetProc(i, s.procs[i].(q := LCFS, waiting := 0, parent := parent, state := RUNNABLE)), i)
    case Run(i) => PickInTable(s); Dispatch(s, i)
    case YieldOf(i) => Yield(s, i)
    case SleepOf(i, chan) => CleanupNeverPanics(s, i); Sleep(s, i, chan)
    case WakeupOn(chan) => Wakeup(s, chan)
    case KillOf(pid) => Kill(s, pid)
    case ExitOf(i, init) => CleanupNeverPanics(s, i); Exit(s, i, init)
    case Reap(i) => s.SetProc(i, s.procs[i].(state := UNUSED, pid := 0, parent := NULL, killed := false))
    case ForkFails(i) => s.SetProc(i, s.procs[i].(state := UNUSED))
    case TimerTick => Tick(s)
    case Change(pid, t) => ChangeIsDefined(s, pid, t); ChangeQueue(s, pid, t)
  }

  lemma AllocKeepsInv(s: Sched, i: nat, pid: nat)
    requires Inv(s) && Enabled(s, Alloc(i, pid))
    ensures Inv(s.SetProc(i, s.procs[i].(state := EMBRYO, pid := pid)))
  {
    var p := s.procs[i].(state := EMBRYO, pid := pid);
    assert GoodProc(s.procs[i]);
    OthersUnaffected(s, DEF, i, p);
    QueueByQueue(s.SetProc(i, p));
  }

  lemma StepKeepsInv(s: Sched, a: Label)
    requires Inv(s) && Enabled(s, a)
    ensures Inv(Next(s, a))
  {
    PickInTable(s);
    match a
    case Alloc(i, pid) => AllocKeepsInv(s, i, pid);
    case Fork(i, parent) =>
      assert GoodProc(s.procs[i]);
      JoinKeepsInv(s, i, s.procs[i].(q := LCFS, waiting := 0, parent := parent, state := RUNNABLE));
    case Run(i) =>
      PickIsRunnable(s);
      assert GoodProc(s.procs[i]);
      StayKeepsInv(s, i, s.procs[i].(state := RUNNING, waiting := 0));
    case YieldOf(i) => YieldKeepsInv(s, i);
    case SleepOf(i, chan) => SleepKeepsInv(s, i, chan);
    case WakeupOn(chan) => WakeKeepsInv(s, chan, |s.procs|);
    case KillOf(pid) =>
      var i := FindPid(s.procs, pid);
      if i < |s.procs| {
        KillKeepsInv(s, i);
      }
    case ExitOf(i, init) => ExitKeepsInv(s, i, init);
    case Reap(i) =>
      assert GoodProc(s.procs[i]);
      StayKeepsInv(s, i, s.procs[i].(state := UNUSED, pid := 0, parent := NULL, killed := false));
    case ForkFails(i) =>
      assert GoodProc(s.procs[i]);
      StayKeepsInv(s, i, s.procs[i].(state := UNUSED));
    case TimerTick =>
    case Change(pid, t) => ChangeKeepsInv(s, pid, t);
  }

  function Boot(junk: Proc): (s: Sched) {
    Sched(seq(NPROC, i => junk.(state := UNUSED, changing := false)), [], [], [], 0)
  }

  /** A run from boot; `Next` is defined where the invariant holds, which RunKeepsInv shows to be everywhere. */
  ghost predicate IsRun(states: seq<Sched>, labels: seq<Label>) {
    && |states| == |labels| + 1
    && (exists junk :: states[0] == Boot(junk))
    && forall i :: 0 <= i < |labels| ==> StepAt(states, labels, i)
  }

  ghost predicate StepAt(states: seq<Sched>, labels: seq<Label>, i: nat)
    requires i < |labels| < |states|
  {
    Inv(states[i]) ==> Enabled(states[i], labels[i]) && states[i + 1] == Next(states[i], labels[i])
  }

  /** The queue invariant holds at every moment of every run. */
  lemma {:induction false} RunKeepsInv(states: seq<Sched>, labels: seq<Label>, k: nat)
    requires IsRun(states, labels) && k < |states|
    ensures Inv(states[k])
  {
    if k > 0 {
      RunKeepsInv(states, labels, k - 1);
      assert StepAt(states, labels, k - 1);
      StepKeepsInv(states[k - 1], labels[k - 1]);
    }
  }

  /**
   At every moment of every run a process is in exactly the queue its state and q_type
   call for, once, and in no other.
   */
  lemma QueueInvariant(states: seq<Sched>, labels: seq<Label>, k: nat, i: nat, t: QType)
    requires IsRun(states, labels) && k < |states| && i < NPROC
    ensures |states[k].procs| == NPROC
    ensures i in states[k].Q(t) <==> Active(states[k].procs[i]) && states[k].procs[i].q == t
    ensures NoRepeat(states[k].Q(t))
  {
    RunKeepsInv(states, labels, k);
    var s := states[k];
    assert GoodProc(s.procs[i]);
    assert t != DEF ==> Holds(s.procs, s.Q(t), t);
  }

  // ------------------------------------------------------------------
  // A run that leads to a loss

  /** Some run ends in s. */
  ghost predicate Reached(s: Sched) {
    exists states: seq<Sched>, labels: seq<Label> :: IsRun(states, labels) && states[|labels|] == s
  }

  lemma BootReached(junk: Proc)
    ensures Reached(Boot(junk)) && Inv(Boot(junk))
  {
    assert IsRun([Boot(junk)], []);
  }

  lemma ExtendRun(states: seq<Sched>, labels: seq<Label>, a: Label)
    requires IsRun(states, labels) && Inv(states[|labels|]) && Enabled(states[|labels|], a)
    ensures IsRun(states + [Next(states[|labels|], a)], labels + [a])
  {
    var states', labels' := states + [Next(states[|labels|], a)], labels + [a];
    assert states'[0] == states[0];
    forall i | 0 <= i < |labels'| ensures StepAt(states', labels', i) {
      if i < |labels| {
        assert StepAt(states, labels, i);
        assert labels'[i] == labels[i] && states'[i] == states[i] && states'[i + 1] == states[i + 1];
      }
    }
  }

  lemma NextReached(s: Sched, a: Label)
    requires Reached(s) && Inv(s) && Enabled(s, a)
    ensures Reached(Next(s, a)) && Inv(Next(s, a))
  {
    var states: seq<Sched>, labels: seq<Label> :| IsRun(states, labels) && states[|labels|] == s;
    ExtendRun(states, labels, a);
    StepKeepsInv(s, a);
  }

  /** Processes 0 to n-1 have been forked, with pids from 1 on, and are in the LCFS queue; the first is in state st. */
  ghost predicate Forked(s: Sched, n: nat, st: ProcState) {
    && |s.procs| == NPROC && n <= NPROC && s.rr == [] && s.bjf == [] && (st == RUNNABLE || st == RUNNING)
    && |s.lcfs| == n && (forall k :: 0 <= k < n ==> s.lcfs[k] == k)
    && (forall k :: 0 <= k < NPROC ==> ForkedProc(s.procs[k], k, n, st))
  }

  predicate ForkedProc(p: Proc, k: nat, n: nat, st: ProcState) {
    && !p.changing
    && if k >= n then p.state == UNUSED
       else p.pid == k + 1 && p.q == LCFS && p.state == if k == 0 then st else RUNNABLE
  }

  lemma ForkOne(s: Sched, n: nat, st: ProcState, parent: nat) returns (s': Sched)
    requires Reached(s) && Inv(s) && Forked(s, n, st) && n < NPROC && (n == 0 ==> st == RUNNABLE)
    ensures Reached(s') && Inv(s') && Forked(s', n + 1, st)
  {
    var s1 := AllocOne(s, n, st);
    NextReached(s1, Fork(n, parent));
    var p := s1.procs[n].(q := LCFS, waiting := 0, parent := parent, state := RUNNABLE);
    s' := Next(s1, Fork(n, parent));
    ForkedMore(s, n, st, p, s');
  }

  lemma AllocOne(s: Sched, n: nat, st: ProcState) returns (s': Sched)
    requires Reached(s) && Inv(s) && Forked(s, n, st) && n < NPROC
    ensures Reached(s') && Inv(s') && s' == s.SetProc(n, s.procs[n].(state := EMBRYO, pid := n + 1))
  {
    NextReached(s, Alloc(n, n + 1));
    s' := Next(s, Alloc(n, n + 1));
  }

  lemma ForkedMore(s: Sched, n: nat, st: ProcState, p: Proc, s': Sched)
    requires Forked(s, n, st) && n < NPROC && ForkedProc(p, n, n + 1, st)
    requires s' == Join(s, n, p)
    ensures Forked(s', n + 1, st)
  {
  }

  /** The youngest process runs. */
  lemma RunYoungest(s: Sched) returns (s': Sched)
    requires Reached(s) && Inv(s) && Forked(s, 2, RUNNABLE)
    ensures Reached(s') && Inv(s') && s' == Dispatch(s, 1)
  {
    assert PickLCFS(s, 2) == Some(1);
    NextReached(s, Run(1));
    s' := Next(s, Run(1));
  }

  /** It changes its own queue and so leaves it. */
  lemma ChangeOwn(s: Sched) returns (s': Sched)
    requires Reached(s) && Inv(s) && |s.procs| == NPROC && s.rr == [] && s.bjf == [] && s.lcfs == [0, 1]
    requires s.procs[0].pid == 1 && s.procs[1].pid == 2 && s.procs[1].state == RUNNING
    requires s.procs[1].q == LCFS && !s.procs[1].changing
    ensures Reached(s') && Inv(s') && |s'.procs| == NPROC && s'.lcfs == [0]
    ensures s'.procs[0] == s.procs[0] && s'.procs[1] == s.procs[1].(changing := true)
  {
    NextReached(s, Change(2, LCFS));
    s' := Next(s, Change(2, LCFS));
    assert FindPid(s.procs, 2) == 1;
    RemovedIs(s, 1, LCFS);
  }

  /** Process 1 has a change of its queue pending, and process 0 waits in that queue. */
  ghost predicate Pending(s: Sched) {
    && |s.procs| == NPROC && s.lcfs == [0] && s.procs[0].state == RUNNABLE && s.procs[0].q == LCFS
    && s.procs[1].state == RUNNING && s.procs[1].changing && s.procs[1].q == LCFS
  }

  lemma PendingReached() returns (s: Sched)
    ensures Reached(s) && Inv(s) && Pending(s)
  {
    var junk := Proc(UNUSED, 0, NULL, 0, false, DEF, 0, false);
    BootReached(junk);
    s := ForkOne(Boot(junk), 0, RUNNABLE, NULL);
    s := ForkOne(s, 1, RUNNABLE, 0);
    assert s.lcfs == [0, 1];
    s := RunYoungest(s);
    s := ChangeOwn(s);
  }

  lemma PendingLoses(s: Sched, chan: nat)
    requires Inv(s) && Pending(s)
    ensures Cleanable(s, 1) && Lost(Sleep(s, 1, chan), 0, LCFS)
  {
    var j := CleanupLoses(s, 1);
    assert Cleanup(s, 1).lcfs == [];
  }

  /**
   The guard is needed: there is a run after which a process has a change pending and
   the process that it was forked from waits.  If the first one now sleeps without
   yielding, the other one, still runnable, is in no queue.
   */
  lemma LossRun(chan: nat) returns (states: seq<Sched>, labels: seq<Label>)
    ensures IsRun(states, labels) && Inv(states[|labels|])
    ensures var s := states[|labels|];
            Pending(s) && Cleanable(s, 1) && Lost(Sleep(s, 1, chan), 0, LCFS)
  {
    var s := PendingReached();
    PendingLoses(s, chan);
    states, labels :| IsRun(states, labels) && states[|labels|] == s;
  }

  // ------------------------------------------------------------------
  // A run that fills a queue

  /** The first process is running, and forks until there are n. */
  lemma {:induction false} ForkMany(n: nat) returns (s: Sched)
    requires 0 < n <= NPROC
    ensures Reached(s) && Inv(s) && Forked(s, n, RUNNING)
  {
    if n > 1 {
      s := ForkMany(n - 1);
      s := ForkOne(s, n - 1, RUNNING, 0);
    } else {
      var junk := Proc(UNUSED, 0, NULL, 0, false, DEF, 0, false);
      BootReached(junk);
      s := ForkOne(Boot(junk), 0, RUNNABLE, NULL);
      s := RunFirst(s);
    }
  }

  lemma RunFirst(s: Sched) returns (s': Sched)
    requires Reached(s) && Inv(s) && Forked(s, 1, RUNNABLE)
    ensures Reached(s') && Inv(s') && Forked(s', 1, RUNNING)
  {
    assert PickLCFS(s, 1) == Some(0);
    NextReached(s, Run(0));
    s' := Next(s, Run(0));
  }

  /**
   Room runs out: there is a run after which the LCFS queue fills its array, so that
   `shiftOutQueue` on it would leave the array.
   */
  lemma FullRun() returns (states: seq<Sched>, labels: seq<Label>)
    ensures IsRun(states, labels) && Inv(states[|labels|])
    ensures |states[|labels|].lcfs| == NPROC && states[|labels|].procs[0].state == RUNNING
  {
    var s := ForkMany(NPROC);
    states, labels :| IsRun(states, labels) && states[|labels|] == s;
  }

  // ------------------------------------------------------------------
  // Waiting

  /** What an aging pass does to one process, whatever the rest of the table holds. */
  function Aged(p: Proc): (p': Proc) {
    if p.state != RUNNABLE then p
    else
      var w := Increment(p.waiting);
      if w > AGING_BOUND && p.q != RR then p.(waiting := w, q := RR) else p.(waiting := w)
  }

  lemma {:induction false} AgeIsPointwise(s: Sched, n: nat, i: nat)
    requires Inv(s) && n <= |s.procs| && i < |s.procs|
    ensures AgeUpto(s, n).procs[i] == if i < n then Aged(s.procs[i]) else s.procs[i]
  {
    if n > 0 {
      AgeIsPointwise(s, n - 1, i);
      AgeStepAt(s, n, i);
    }
  }

  lemma AgeStepAt(s: Sched, n: nat, i: nat)
    requires Inv(s) && 0 < n <= |s.procs| && i < |s.procs|
    ensures AgeUpto(s, n).procs[i] == var p := AgeUpto(s, n - 1).procs[i]; if i == n - 1 then Aged(p) else p
  {
    AgeOneAt(AgeUpto(s, n - 1), n - 1, i);
  }

  lemma AgeOneAt(s: Sched, j: nat, i: nat)
    requires Inv(s) && j < |s.procs| && i < |s.procs|
    ensures s.procs[j].state == RUNNABLE ==> Cleanable(s, j)
    ensures AgeOne(s, j).procs[i] == if i == j then Aged(s.procs[j]) else s.procs[i]
  {
    AgeOneKeepsInv(s, j);
  }

  /** After every aging pass no runnable process outside the RR queue has waited longer than the bound. */
  lemma AgingBound(s: Sched, i: nat)
    requires Inv(s) && i < |s.procs|
    ensures Tick(s).procs[i] == Aged(s.procs[i])
    ensures Tick(s).procs[i].state == RUNNABLE && Tick(s).procs[i].q != RR ==> Tick(s).procs[i].waiting <= AGING_BOUND
    ensures Tick(s).procs[i].state == RUNNABLE && Tick(s).procs[i].q == RR ==> i in Tick(s).rr
  {
    AgeIsPointwise(s, |s.procs|, i);
    assert Inv(Tick(s));
    assert GoodProc(Tick(s).procs[i]);
  }

  /** Queue and waiting time of process i are the same. */
  predicate SameWait(s: Sched, s': Sched, i: nat) {
    i < |s.procs| && i < |s'.procs| && s'.procs[i].q == s.procs[i].q && s'.procs[i].waiting == s.procs[i].waiting
  }

  lemma {:induction false} WakeLeaves(s: Sched, chan: nat, n: nat, i: nat)
    requires n <= |s.procs| && i < |s.procs|
    ensures SameWait(s, WakeUpto(s, chan, n), i)
  {
    if n > 0 {
      WakeLeaves(s, chan, n - 1, i);
    }
  }

  lemma {:induction false} ReparentLeaves(s: Sched, x: nat, init: nat, n: nat, i: nat)
    requires n <= |s.procs| && i < |s.procs|
    ensures SameWait(s, ReparentUpto(s, x, init, n), i)
  {
    if n > 0 {
      ReparentLeaves(s, x, init, n - 1, i);
      var a := ReparentUpto(s, x, init, n - 1);
      var s1 := a.SetProc(n - 1, a.procs[n - 1].(parent := init));
      WakeLeaves(s1, init, |s1.procs|, i);
    }
  }

  /**
   A step that leaves process i runnable, and does not change its queue by request,
   touches its waiting time only in a tick.
   */
  lemma OtherStepsLeave(s: Sched, a: Label, i: nat)
    requires Inv(s) && Enabled(s, a) && i < |s.procs| && i < |Next(s, a).procs| && a != TimerTick
    requires s.procs[i].state == RUNNABLE && Next(s, a).procs[i].state == RUNNABLE
    requires a.Change? ==> FindPid(s.procs, a.pid) != i
    ensures SameWait(s, Next(s, a), i)
  {
    match a
    case WakeupOn(chan) => WakeLeaves(s, chan, |s.procs|, i);
    case ExitOf(x, init) =>
      CleanupNeverPanics(s, x);
      ExitLeaves(s, x, init, i);
    case Alloc(_, _) =>
    case Fork(_, _) =>
    case Run(_) => PickInTable(s);
    case YieldOf(_) =>
    case SleepOf(x, _) => CleanupNeverPanics(s, x);
    case KillOf(pid) => KillLeaves(s, pid, i);
    case Reap(_) =>
    case ForkFails(_) =>
    case Change(pid, t) =>
      ChangeIsDefined(s, pid, t);
      ChangeLeaves(s, pid, t, i);
  }

  lemma ExitLeaves(s: Sched, x: nat, init: nat, i: nat)
    requires Cleanable(s, x) && i < |s.procs|
    ensures SameWait(s, Exit(s, x, init), i)
  {
    var c := Cleanup(s, x);
    var s1 := Wakeup(c, s.procs[x].parent);
    WakeLeaves(c, s.procs[x].parent, |s.procs|, i);
    ReparentLeaves(s1, x, init, |s1.procs|, i);
  }

  lemma KillLeaves(s: Sched, pid: nat, i: nat)
    requires i < |s.procs|
    ensures SameWait(s, Kill(s, pid), i)
  {
  }

  lemma ChangeLeaves(s: Sched, pid: nat, t: QType, i: nat)
    requires i < |s.procs| && Changeable(s, pid) && FindPid(s.procs, pid) != i
    ensures SameWait(s, ChangeQueue(s, pid, t), i)
  {
  }

  /** Number of timer ticks among the labels from a to b. */
  function Ticks(labels: seq<Label>, a: nat, b: nat): (n: nat)
    requires a <= b <= |labels|
  {
    if a == b then 0 else Ticks(labels, a, b - 1) + if labels[b - 1].TimerTick? then 1 else 0
  }

  /** Process i is runnable from moment a to moment b, and nobody asks to change its queue meanwhile. */
  ghost predicate Waits(states: seq<Sched>, labels: seq<Label>, a: nat, b: nat, i: nat) {
    && a <= b < |states| == |labels| + 1
    && (forall k :: a <= k <= b ==> i < |states[k].procs| && states[k].procs[i].state == RUNNABLE)
    && (forall k :: a <= k < b ==> labels[k].Change? ==> FindPid(states[k].procs, labels[k].pid) != i)
  }

  /** A process that had waited w ticks has since seen n more, unless it has reached the RR queue. */
  predicate Counted(p: Proc, w: nat, n: nat) {
    p.q == RR || (p.waiting == w + n && (n > 0 ==> w + n <= AGING_BOUND))
  }

  lemma CountedTick(p: Proc, w: nat, n: nat)
    requires Counted(p, w, n) && p.state == RUNNABLE && w + 1 < UINT
    ensures Counted(Aged(p), w, n + 1)
  {
  }

  lemma OneStepOfWaiting(s: Sched, a: Label, i: nat, w: nat, n: nat)
    requires Inv(s) && Enabled(s, a) && i < |s.procs| && i < |Next(s, a).procs|
    requires s.procs[i].state == RUNNABLE && Next(s, a).procs[i].state == RUNNABLE
    requires a.Change? ==> FindPid(s.procs, a.pid) != i
    requires Counted(s.procs[i], w, n) && w + 1 < UINT
    ensures Counted(Next(s, a).procs[i], w, if a.TimerTick? then n + 1 else n)
  {
    if a.TimerTick? {
      AgingBound(s, i);
      CountedTick(s.procs[i], w, n);
    } else {
      OtherStepsLeave(s, a, i);
    }
  }

  lemma WaitingStep(states: seq<Sched>, labels: seq<Label>, k: nat, i: nat, w: nat, n: nat)
    requires IsRun(states, labels) && Waits(states, labels, k, k + 1, i) && w + 1 < UINT
    requires Counted(states[k].procs[i], w, n)
    ensures Counted(states[k + 1].procs[i], w, if labels[k].TimerTick? then n + 1 else n)
  {
    RunKeepsInv(states, labels, k);
    assert StepAt(states, labels, k);
    OneStepOfWaiting(states[k], labels[k], i, w, n);
  }

  lemma {:induction false} WaitingCountsTicks(states: seq<Sched>, labels: seq<Label>, a: nat, b: nat, i: nat)
    requires IsRun(states, labels) && Waits(states, labels, a, b, i) && states[a].procs[i].waiting + 1 < UINT
    ensures Counted(states[b].procs[i], states[a].procs[i].waiting, Ticks(labels, a, b))
    decreases b
  {
    if a < b {
      WaitingCountsTicks(states, labels, a, b - 1, i);
      WaitingStep(states, labels, b - 1, i, states[a].procs[i].waiting, Ticks(labels, a, b - 1));
    }
  }

  /**
   Bounded waiting.  A process that stays runnable, and is not moved by request, for
   AGING_BOUND + 1 timer ticks is in the RR queue.
   */
  lemma BoundedWaiting(states: seq<Sched>, labels: seq<Label>, a: nat, b: nat, i: nat)
    requires IsRun(states, labels) && Waits(states, labels, a, b, i) && states[a].procs[i].waiting + 1 < UINT
    requires Ticks(labels, a, b) >= AGING_BOUND + 1
    ensures states[b].procs[i].q == RR && i in states[b].rr
  {
    WaitingCountsTicks(states, labels, a, b, i);
    RunKeepsInv(states, labels, b);
    assert GoodProc(states[b].procs[i]);
  }

  /** A process after n aging passes. */
  function AgedTimes(p: Proc, n: nat): (p': Proc) {
    if n == 0 then p else Aged(AgedTimes(p, n - 1))
  }

  lemma {:induction false} AgedTimesIs(p: Proc, n: nat)
    requires p.state == RUNNABLE && p.q != RR
    ensures AgedTimes(p, n).state == RUNNABLE
    ensures p.waiting + 1 < UINT ==>
              || AgedTimes(p, n).q == RR
              || ((n > 0 ==> p.waiting + n <= AGING_BOUND) && AgedTimes(p, n) == p.(waiting := p.waiting + n))
    ensures p.waiting + 1 == UINT && 0 < n <= AGING_BOUND + 1 ==> AgedTimes(p, n) == p.(waiting := n - 1)
  {
    if n > 0 {
      AgedTimesIs(p, n - 1);
    }
  }

  /**
   The bound is exact up to wraparound of the waiting time: only a process that has
   waited 2^32 - 1 ticks needs one tick more.
   */
  lemma AgingExact(p: Proc)
    requires p.state == RUNNABLE && p.q != RR
    ensures AgedTimes(p, AGING_BOUND + 1).q == RR <==> p.waiting + 1 != UINT
  {
    AgedTimesIs(p, AGING_BOUND + 1);
  }
}
