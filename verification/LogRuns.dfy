/**
 Whole runs of the logging system: operations of many processes interleave, the
 last `end_op` of a group commits it write by write, and the machine may crash at
 any point and recover.  History variables record what the operations did.
 */
module LogRuns {
  import opened BlockStore
  import opened Recovery
  import opened Log

  /** One call of the logging interface, as the history records it. */
  datatype Event = Begin(op: nat) | LogWrite(op: nat, bno: nat, data: Block) | End(op: nat)

  type History = seq<Event>

  /** The operations that have begun and not ended. */
  function OpenOps(h: History): (ops: set<nat>) {
    if h == [] then {}
    else
      var before := OpenOps(h[..|h| - 1]);
      match h[|h| - 1]
      case Begin(op) => before + {op}
      case LogWrite(_, _, _) => before
      case End(op) => before - {op}
  }

  /** A plain disk on which every logged write takes effect at once. */
  function Replay(d: Disk, h: History): (r: Disk)
    ensures |r| == |d|
  {
    if h == [] then d
    else
      var before := Replay(d, h[..|h| - 1]);
      match h[|h| - 1]
      case LogWrite(_, b, v) => Put(before, Write(b, v))
      case _ => before
  }

  predicate Fresh(h: History, op: nat) {
    forall i :: 0 <= i < |h| ==> h[i].op != op
  }

  /** What e may do after h: a new operation begins, or an open one writes or ends. */
  predicate Allowed(h: History, e: Event) {
    if e.Begin? then Fresh(h, e.op) else e.op in OpenOps(h)
  }

  predicate WellFormed(h: History) {
    h == [] || (WellFormed(h[..|h| - 1]) && Allowed(h[..|h| - 1], h[|h| - 1]))
  }

  lemma SnocHistory(d: Disk, h: History, e: Event)
    ensures OpenOps(h + [e]) ==
            match e
            case Begin(op) => OpenOps(h) + {op}
            case LogWrite(_, _, _) => OpenOps(h)
            case End(op) => OpenOps(h) - {op}
    ensures Replay(d, h + [e]) == if e.LogWrite? then Put(Replay(d, h), Write(e.bno, e.data)) else Replay(d, h)
    ensures WellFormed(h) && Allowed(h, e) ==> WellFormed(h + [e])
  {
    assert (h + [e])[..|h|] == h;
  }

  lemma {:induction false} WellFormedPrefix(h: History, k: nat)
    requires WellFormed(h) && k <= |h|
    ensures WellFormed(h[..k])
  {
    if k < |h| {
      WellFormedPrefix(h[..|h| - 1], k);
      assert h[..|h| - 1][..k] == h[..k];
    } else {
      assert h[..k] == h;
    }
  }

  /** No operation has events on both sides of position k. */
  predicate WholeOps(h: History, k: nat)
    requires k <= |h|
  {
    forall i, j :: 0 <= i < k <= j < |h| ==> h[i].op != h[j].op
  }

  /** A prefix after which no operation is open consists of whole operations. */
  lemma {:induction false} QuietPrefixIsWhole(h: History, k: nat)
    requires WellFormed(h) && k <= |h| && OpenOps(h[..k]) == {}
    ensures WholeOps(h, k)
    ensures forall op <- OpenOps(h) :: Fresh(h[..k], op)
    decreases |h|
  {
    if k == |h| {
      assert h[..k] == h;
    } else {
      var h', e := h[..|h| - 1], h[|h| - 1];
      assert h'[..k] == h[..k];
      QuietPrefixIsWhole(h', k);
      if e.Begin? {
        assert Fresh(h', e.op);
        assert forall i :: 0 <= i < k ==> h[i] == h'[i];
        assert Fresh(h[..k], e.op);
      } else {
        assert e.op in OpenOps(h');
        assert Fresh(h[..k], e.op);
      }
      forall i, j | 0 <= i < k <= j < |h| ensures h[i].op != h[j].op {
        if j == |h| - 1 {
          assert h[i] == h[..k][i];
        } else {
          assert h[i] == h'[i] && h[j] == h'[j];
        }
      }
    }
  }

  // ------------------------------------------------------------------
  // The state machine

  /** While committing: the store when the commit began and the number of writes done since. */
  datatype Phase = Running | Committing(base: Store, done: nat)

  datatype State = State(
    store: Store,
    lh: seq<nat>,
    outstanding: nat,
    phase: Phase,
    /** Operations in `log_write` that have passed its first test, and those that have passed all tests. */
    sized: set<nat>,
    passed: set<nat>,
    hist: History,
    /** Length of the part of the history whose commit has returned. */
    durable: nat)

  /**
   One atomic step: a critical section of the log lock, one disk write, or a crash with
   recovery.  `log_write` tests the number of entries before it takes the lock, once
   against LOGSIZE and once against the size of the log area; each test is a step of its
   own, and other operations may add entries before the lock is taken.
   */
  datatype Label =
    | BeginOp(op: nat)
    | TestSize(op: nat)
    | TestArea(op: nat)
    | LogOp(op: nat, bno: nat, data: Block)
    | EndOp(op: nat)
    | CommitWrite
    | CommitDone
    | Crash(cuts: seq<nat>)

  function Boot(d0: Disk): (s: State) {
    State(Store(d0, map[]), [], 0, Running, {}, {}, [], 0)
  }

  /** The history that a crash now would preserve: everything once the header is on disk. */
  function CommitPoint(s: State): (k: nat) {
    if s.phase.Committing? && (s.phase.done > |s.lh| || s.lh == []) then |s.hist| else s.durable
  }

  /** The writes of the commit that is under way. */
  ghost predicate HasWrites(l: Layout, s: State) {
    s.phase.Committing? && Fits(l, |s.phase.base.disk|) && BlocksExist(l, |s.phase.base.disk|, s.lh)
  }

  ghost predicate Enabled(l: Layout, s: State, a: Label) {
    match a
    case BeginOp(op) => s.phase.Running? && HasRoom(|s.lh|, s.outstanding) && Fresh(s.hist, op)
    case TestSize(op) => op in OpenOps(s.hist) && op !in s.sized && op !in s.passed && |s.lh| < LOGSIZE
    case TestArea(op) => op in s.sized && |s.lh| < l.size - 1 && s.outstanding >= 1
    case LogOp(op, b, v) => op in s.passed && b < |s.store.disk| && !InLog(l, b)
    case EndOp(op) => op in OpenOps(s.hist) && op !in s.sized && op !in s.passed
    case CommitWrite => HasWrites(l, s) && s.phase.done < |CommitWrites(l, s.phase.base, s.lh)|
    case CommitDone => HasWrites(l, s) && s.phase.done == |CommitWrites(l, s.phase.base, s.lh)|
    case Crash(_) => GoodDisk(l, s.store.disk) && CommitPoint(s) <= |s.hist|
  }

  ghost function Next(l: Layout, s: State, a: Label): (s': State)
    requires Enabled(l, s, a)
  {
    match a
    case BeginOp(op) => s.(outstanding := s.outstanding + 1, hist := s.hist + [Begin(op)])
    case TestSize(op) => s.(sized := s.sized + {op})
    case TestArea(op) => s.(sized := s.sized - {op}, passed := s.passed + {op})
    case LogOp(op, b, v) => Logged(s, op, b, v)
    case EndOp(op) =>
      var n := if s.outstanding == 0 then 0 else s.outstanding - 1;
      s.(outstanding := n, hist := s.hist + [End(op)], phase := if n == 0 then Committing(s.store, 0) else s.phase)
    case CommitWrite =>
      var w := CommitWrites(l, s.phase.base, s.lh)[s.phase.done];
      s.(store := Store(Put(s.store.disk, w), s.store.pinned - {w.bno}), phase := s.phase.(done := s.phase.done + 1))
    case CommitDone => s.(lh := [], phase := Running, durable := |s.hist|)
    case Crash(cuts) =>
      var k := CommitPoint(s);
      State(Store(RecoverThroughCrashes(l, s.store.disk, cuts), map[]), [], 0, Running, {}, {}, s.hist[..k], k)
  }

  /** `log_write` under the lock. */
  function Logged(s: State, op: nat, b: nat, v: Block): (s': State)
    requires b < |s.store.disk|
  {
    s.(store := s.store.Pin(b, v), lh := Absorb(s.lh, b), passed := s.passed - {op},
       hist := s.hist + [LogWrite(op, b, v)])
  }

  // ------------------------------------------------------------------
  // What every run keeps, whatever the operations log

  ghost predicate HistoryInv(s: State) {
    && WellFormed(s.hist)
    && s.outstanding == |OpenOps(s.hist)|
    && s.durable <= |s.hist|
    && OpenOps(s.hist[..s.durable]) == {}
    && s.sized + s.passed <= OpenOps(s.hist)
    && (s.phase.Committing? ==> OpenOps(s.hist) == {})
  }

  /** An open operation meets no commit: the panics of `end_op` and of `log_write` without one do not happen. */
  lemma NoOpDuringCommit(s: State, op: nat)
    requires HistoryInv(s) && op in OpenOps(s.hist)
    ensures s.phase.Running? && s.outstanding >= 1
  {
    assert OpenOps(s.hist) == {op} + (OpenOps(s.hist) - {op});
  }

  lemma PrefixKept(h: History, e: Event, k: nat)
    requires k <= |h|
    ensures (h + [e])[..k] == h[..k]
  {
  }

  lemma {:induction false} OpenOpsAppear(h: History, op: nat)
    requires Fresh(h, op)
    ensures op !in OpenOps(h)
  {
    if h != [] {
      OpenOpsAppear(h[..|h| - 1], op);
    }
  }

  /** A crash keeps what was durable, and whole operations only. */
  lemma CommitPointIsQuiet(s: State)
    requires HistoryInv(s)
    ensures s.durable <= CommitPoint(s) <= |s.hist| && OpenOps(s.hist[..CommitPoint(s)]) == {}
  {
    assert s.hist[..|s.hist|] == s.hist;
  }

  lemma EventKeepsHistory(s: State, e: Event)
    requires HistoryInv(s) && Allowed(s.hist, e)
    ensures WellFormed(s.hist + [e]) && OpenOps((s.hist + [e])[..s.durable]) == {}
    ensures e.Begin? ==> OpenOps(s.hist + [e]) == OpenOps(s.hist) + {e.op} && e.op !in OpenOps(s.hist)
    ensures e.LogWrite? ==> OpenOps(s.hist + [e]) == OpenOps(s.hist)
    ensures e.End? ==> OpenOps(s.hist + [e]) == OpenOps(s.hist) - {e.op}
  {
    SnocHistory([], s.hist, e);
    PrefixKept(s.hist, e, s.durable);
    if e.Begin? {
      OpenOpsAppear(s.hist, e.op);
    }
  }

  lemma CrashKeepsHistory(l: Layout, s: State, cuts: seq<nat>)
    requires HistoryInv(s) && Enabled(l, s, Crash(cuts))
    ensures HistoryInv(Next(l, s, Crash(cuts)))
  {
    CommitPointIsQuiet(s);
    WellFormedPrefix(s.hist, CommitPoint(s));
    assert s.hist[..CommitPoint(s)][..CommitPoint(s)] == s.hist[..CommitPoint(s)];
  }

  lemma StepKeepsHistory(l: Layout, s: State, a: Label)
    requires HistoryInv(s) && Enabled(l, s, a)
    ensures HistoryInv(Next(l, s, a))
  {
    match a
    case BeginOp(op) => EventKeepsHistory(s, Begin(op));
    case TestSize(op) =>
    case TestArea(op) =>
    case LogOp(op, b, v) => EventKeepsHistory(s, LogWrite(op, b, v));
    case EndOp(op) =>
      NoOpDuringCommit(s, op);
      EventKeepsHistory(s, End(op));
      assert |OpenOps(s.hist) - {op}| == |OpenOps(s.hist)| - 1;
    case CommitWrite =>
    case CommitDone => assert s.hist[..|s.hist|] == s.hist;
    case Crash(cuts) => CrashKeepsHistory(l, s, cuts);
  }

  /** What was durable stays durable. */
  predicate DurableKept(s: State, s': State)
  {
    && s.durable <= s'.durable
    && s.durable <= |s.hist| && s.durable <= |s'.hist|
    && s'.hist[..s.durable] == s.hist[..s.durable]
  }

  lemma DurableTransitive(a: State, b: State, c: State)
    requires DurableKept(a, b) && DurableKept(b, c)
    ensures DurableKept(a, c)
  {
    assert c.hist[..a.durable] == c.hist[..b.durable][..a.durable];
    assert b.hist[..a.durable] == b.hist[..b.durable][..a.durable];
  }

  lemma StepKeepsDurable(l: Layout, s: State, a: Label)
    requires HistoryInv(s) && Enabled(l, s, a)
    ensures DurableKept(s, Next(l, s, a))
  {
    CommitPointIsQuiet(s);
  }

  ghost predicate IsRun(l: Layout, d0: Disk, states: seq<State>, labels: seq<Label>) {
    && |states| == |labels| + 1
    && states[0] == Boot(d0)
    && forall i :: 0 <= i < |labels| ==> StepAt(l, states, labels, i)
  }

  ghost predicate StepAt(l: Layout, states: seq<State>, labels: seq<Label>, i: nat)
    requires i < |labels| < |states|
  {
    Enabled(l, states[i], labels[i]) && states[i + 1] == Next(l, states[i], labels[i])
  }

  lemma {:induction false} RunKeepsHistory(l: Layout, d0: Disk, states: seq<State>, labels: seq<Label>, i: nat)
    requires IsRun(l, d0, states, labels) && i < |states|
    ensures HistoryInv(states[i])
  {
    if i > 0 {
      RunKeepsHistory(l, d0, states, labels, i - 1);
      assert StepAt(l, states, labels, i - 1);
      StepKeepsHistory(l, states[i - 1], labels[i - 1]);
    }
  }

  lemma {:induction false} RunKeepsDurable(l: Layout, d0: Disk, states: seq<State>, labels: seq<Label>, i: nat, j: nat)
    requires IsRun(l, d0, states, labels) && i <= j < |states|
    ensures DurableKept(states[i], states[j])
    decreases j
  {
    if i < j {
      RunKeepsDurable(l, d0, states, labels, i, j - 1);
      StepOfRunKeepsDurable(l, d0, states, labels, j);
      DurableTransitive(states[i], states[j - 1], states[j]);
    } else {
      RunKeepsHistory(l, d0, states, labels, i);
    }
  }

  lemma StepOfRunKeepsDurable(l: Layout, d0: Disk, states: seq<State>, labels: seq<Label>, j: nat)
    requires IsRun(l, d0, states, labels) && 0 < j < |states|
    ensures DurableKept(states[j - 1], states[j])
  {
    RunKeepsHistory(l, d0, states, labels, j - 1);
    assert StepAt(l, states, labels, j - 1);
    StepKeepsDurable(l, states[j - 1], labels[j - 1]);
  }

  // ------------------------------------------------------------------
  // The invariant

  /** st holds the durable state on disk and the whole history in its view. */
  ghost predicate Holds(l: Layout, d0: Disk, s: State, st: Store)
    requires s.durable <= |s.hist|
  {
    && |st.disk| == |d0|
    && Listed(l, st, s.lh)
    && SameHome(l, st.disk, Replay(d0, s.hist[..s.durable]))
    && NewHome(l, st, Replay(d0, s.hist))
  }

  /** st is base after the first `done` of the writes ws; its view stays what the history says. */
  ghost predicate Progress(l: Layout, base: Store, ws: seq<Write>, done: nat, st: Store, view: Disk) {
    && done <= |ws|
    && st.disk == Apply(base.disk, ws[..done])
    && (forall b: nat :: b in st.pinned <==> b in base.pinned && forall i :: 0 <= i < done ==> ws[i].bno != b)
    && NewHome(l, st, view)
  }

  /** A commit whose log blocks are not all in the log area has not written anything. */
  ghost predicate Commits(l: Layout, d0: Disk, s: State)
    requires s.phase.Committing? && s.durable <= |s.hist| && Holds(l, d0, s, s.phase.base)
  {
    if |s.lh| < l.size then
      Progress(l, s.phase.base, CommitWrites(l, s.phase.base, s.lh), s.phase.done, s.store, Replay(d0, s.hist))
    else
      s.phase.done == 0 && s.store == s.phase.base
  }

  ghost predicate Inv(l: Layout, d0: Disk, s: State) {
    && HistoryInv(s)
    && match s.phase
       case Running => Holds(l, d0, s, s.store)
       case Committing(base, done) => Holds(l, d0, s, base) && Commits(l, d0, s)
  }

  lemma BootInv(l: Layout, d0: Disk)
    requires EmptyLog(l, d0)
    ensures Inv(l, d0, Boot(d0))
  {
  }

  // ------------------------------------------------------------------
  // Every step keeps the invariant

  lemma {:induction false} LogWriteAt(l: Layout, s: Store, lh: seq<nat>, n: nat, i: nat)
    requires i < n <= |lh| && HomeEntries(l, |s.disk|, lh)
    ensures LogWrites(l, s, lh, n)[i] == Write(l.start + 1 + i, s.Read(lh[i]))
  {
    if i < n - 1 {
      LogWriteAt(l, s, lh, n - 1, i);
    }
  }

  lemma {:induction false} InstallWriteAt(l: Layout, d: Disk, lh: seq<nat>, n: nat, i: nat)
    requires i < n <= |lh| && BlocksExist(l, |d|, lh)
    ensures InstallWrites(l, d, lh, n)[i] == Write(lh[i], d[l.start + 1 + i])
  {
    if i < n - 1 {
      InstallWriteAt(l, d, lh, n - 1, i);
    }
  }

  /** A commit's install writes put the pinned content of each entry in its home. */
  lemma CommitInstallAt(l: Layout, s: Store, lh: seq<nat>, i: nat)
    requires Fits(l, |s.disk|) && GoodEntries(l, |s.disk|, lh) && i < |lh|
    ensures InstallWrites(l, Committed(l, s, lh), lh, |lh|)[i] == Write(lh[i], s.Read(lh[i]))
  {
    InstallWriteAt(l, Committed(l, s, lh), lh, |lh|, i);
    LoggedAt(l, s, lh, |lh|, l.start + 1 + i);
  }

  /**
   The writes of a commit, one by one: the entries' data to the blocks behind the header,
   then the header with their number and their block numbers, then each to its home, and
   last the header with none.
   */
  lemma CommitOrder(l: Layout, s: Store, lh: seq<nat>, k: nat)
    requires Ready(l, s, lh) && k < |CommitWrites(l, s, lh)|
    ensures |CommitWrites(l, s, lh)| == 2 * |lh| + 2
    ensures var (w, n) := (CommitWrites(l, s, lh)[k], |lh|);
            if k < n then w == Write(l.start + 1 + k, s.Read(lh[k]))
            else if k == n then w.bno == l.start && w.data[0] == n && forall i :: 0 <= i < n ==> w.data[1 + i] == lh[i]
            else if k <= 2 * n then w == Write(lh[k - n - 1], s.Read(lh[k - n - 1]))
            else w.bno == l.start && w.data[0] == 0
  {
    var e := Committed(l, s, lh);
    CommittedHeader(l, s, lh);
    CommitIsLogThenRecover(l, s, lh);
    var iw := InstallWrites(l, e, lh, |lh|);
    ConcatAt(LogWrites(l, s, lh, |lh|), Write(l.start, e[l.start]), iw, Write(l.start, Encode(e[l.start], [])), k);
    if k < |lh| {
      LogWriteAt(l, s, lh, |lh|, k);
    } else if |lh| < k <= 2 * |lh| {
      CommitInstallAt(l, s, lh, k - |lh| - 1);
    } else {
      CommitHeaders(l, s, lh);
    }
  }

  lemma CommitHeaders(l: Layout, s: Store, lh: seq<nat>)
    requires Fits(l, |s.disk|) && GoodEntries(l, |s.disk|, lh)
    ensures var h := Committed(l, s, lh)[l.start];
            h[0] == |lh| && (forall i :: 0 <= i < |lh| ==> h[1 + i] == lh[i]) && Encode(h, [])[0] == 0
  {
    EncodeRoundTrip(Recovery.Logged(l, s, lh, |lh|)[l.start], lh);
    EncodeRoundTrip(Committed(l, s, lh)[l.start], []);
  }

  /** Each write of a commit goes to the log area, or puts the pinned content of an entry in its home. */
  lemma CommitWriteAt(l: Layout, s: Store, lh: seq<nat>, k: nat)
    requires Ready(l, s, lh) && k < |CommitWrites(l, s, lh)|
    ensures |CommitWrites(l, s, lh)| == 2 * |lh| + 2
    ensures var w := CommitWrites(l, s, lh)[k];
            if |lh| < k <= 2 * |lh| then w == Write(lh[k - |lh| - 1], s.Read(lh[k - |lh| - 1]))
            else InLog(l, w.bno) && w.bno < |s.disk|
  {
    CommitOrder(l, s, lh, k);
  }

  lemma ConcatAt<T>(a: seq<T>, h: T, c: seq<T>, h': T, k: nat)
    requires k < |a| + |c| + 2
    ensures (a + [h] + (c + [h']))[k] ==
            if k < |a| then a[k] else if k == |a| then h else if k <= |a| + |c| then c[k - |a| - 1] else h'
  {
  }

  lemma BeginKeepsInv(l: Layout, d0: Disk, s: State, op: nat)
    requires Inv(l, d0, s) && Enabled(l, s, BeginOp(op))
    ensures Inv(l, d0, Next(l, s, BeginOp(op)))
  {
    StepKeepsHistory(l, s, BeginOp(op));
    SnocHistory(d0, s.hist, Begin(op));
    PrefixKept(s.hist, Begin(op), s.durable);
  }

  lemma LogOpKeepsInv(l: Layout, d0: Disk, s: State, op: nat, b: nat, v: Block)
    requires Inv(l, d0, s) && Enabled(l, s, LogOp(op, b, v)) && |Absorb(s.lh, b)| <= LOGSIZE
    ensures Inv(l, d0, Next(l, s, LogOp(op, b, v)))
  {
    StepKeepsHistory(l, s, LogOp(op, b, v));
    NoOpDuringCommit(s, op);
    LogOpHolds(l, d0, s, op, b, v);
  }

  lemma LogOpHolds(l: Layout, d0: Disk, s: State, op: nat, b: nat, v: Block)
    requires HistoryInv(s) && Holds(l, d0, s, s.store) && |Absorb(s.lh, b)| <= LOGSIZE
    requires b < |s.store.disk| && !InLog(l, b)
    ensures Holds(l, d0, Logged(s, op, b, v), Logged(s, op, b, v).store)
  {
    SnocHistory(d0, s.hist, LogWrite(op, b, v));
    PrefixKept(s.hist, LogWrite(op, b, v), s.durable);
    PinKeepsListed(l, s.store, s.lh, b, v);
  }

  lemma EndKeepsInv(l: Layout, d0: Disk, s: State, op: nat)
    requires Inv(l, d0, s) && Enabled(l, s, EndOp(op))
    ensures Inv(l, d0, Next(l, s, EndOp(op)))
  {
    StepKeepsHistory(l, s, EndOp(op));
    NoOpDuringCommit(s, op);
    SnocHistory(d0, s.hist, End(op));
    PrefixKept(s.hist, End(op), s.durable);
  }

  lemma CommitWriteKeepsInv(l: Layout, d0: Disk, s: State)
    requires Inv(l, d0, s) && Enabled(l, s, CommitWrite) && |s.lh| < l.size
    ensures Inv(l, d0, Next(l, s, CommitWrite))
  {
    StepKeepsHistory(l, s, CommitWrite);
    NextCommitWrite(l, s.phase.base, s.lh, s.phase.done, s.store, Replay(d0, s.hist));
  }

  lemma NextCommitWrite(l: Layout, base: Store, lh: seq<nat>, k: nat, st: Store, view: Disk)
    requires Ready(l, base, lh) && k < |CommitWrites(l, base, lh)| && NewHome(l, base, view)
    requires Progress(l, base, CommitWrites(l, base, lh), k, st, view)
    ensures var w := CommitWrites(l, base, lh)[k];
            Progress(l, base, CommitWrites(l, base, lh), k + 1, Store(Put(st.disk, w), st.pinned - {w.bno}), view)
  {
    CommitWriteAt(l, base, lh, k);
    ProgressStep(l, base, CommitWrites(l, base, lh), k, st, view);
  }

  lemma ProgressStep(l: Layout, base: Store, ws: seq<Write>, k: nat, st: Store, view: Disk)
    requires Progress(l, base, ws, k, st, view) && k < |ws| && NewHome(l, base, view)
    requires ws[k].bno < |base.disk|
    requires InLog(l, ws[k].bno) || ws[k].data == base.Read(ws[k].bno)
    ensures Progress(l, base, ws, k + 1, Store(Put(st.disk, ws[k]), st.pinned - {ws[k].bno}), view)
  {
    assert ws[..k + 1] == ws[..k] + [ws[k]];
    ApplySnoc(base.disk, ws[..k], ws[k]);
  }

  lemma CommitDoneKeepsInv(l: Layout, d0: Disk, s: State)
    requires Inv(l, d0, s) && Enabled(l, s, CommitDone)
    ensures Inv(l, d0, Next(l, s, CommitDone))
  {
    var base, ws := s.phase.base, CommitWrites(l, s.phase.base, s.lh);
    assert |s.lh| < l.size;
    assert ws[..|ws|] == ws;
    CompleteCommit(l, base, s.lh);
    assert s.hist[..|s.hist|] == s.hist;
    NothingPinned(l, base, s.lh, s.store, Replay(d0, s.hist));
  }

  lemma NothingPinned(l: Layout, base: Store, lh: seq<nat>, st: Store, view: Disk)
    requires Ready(l, base, lh)
    requires Progress(l, base, CommitWrites(l, base, lh), |CommitWrites(l, base, lh)|, st, view)
    ensures st.pinned == map[]
  {
    forall b: nat ensures b !in st.pinned {
      NotPinned(l, base, lh, st, view, b);
    }
  }

  lemma NotPinned(l: Layout, base: Store, lh: seq<nat>, st: Store, view: Disk, b: nat)
    requires Ready(l, base, lh)
    requires Progress(l, base, CommitWrites(l, base, lh), |CommitWrites(l, base, lh)|, st, view)
    ensures b !in st.pinned
  {
    if b in lh {
      var i :| 0 <= i < |lh| && lh[i] == b;
      CommitWriteAt(l, base, lh, |lh| + 1 + i);
    }
  }

  /** Recovery of a disk with an empty log changes no home block. */
  lemma QuietCrash(l: Layout, d: Disk, cuts: seq<nat>)
    requires EmptyLog(l, d)
    ensures GoodDisk(l, d)
    ensures var r := RecoverThroughCrashes(l, d, cuts); EmptyLog(l, r) && SameHome(l, r, d)
  {
    assert Entries(d[l.start]) == [];
    CrashesEmptyLog(l, d, cuts);
    forall b | 0 <= b < |d| && !InLog(l, b) ensures RecoverThroughCrashes(l, d, cuts)[b] == d[b] {
      CrashesDoNotMatter(l, d, cuts, b);
    }
  }

  /** What a crash at this moment leads to, however often recovery is itself interrupted. */
  lemma CrashNow(l: Layout, d0: Disk, s: State, cuts: seq<nat>)
    requires Inv(l, d0, s)
    ensures GoodDisk(l, s.store.disk)
    ensures s.durable <= CommitPoint(s) <= |s.hist|
    ensures OpenOps(s.hist[..CommitPoint(s)]) == {}
    ensures var r := RecoverThroughCrashes(l, s.store.disk, cuts);
            EmptyLog(l, r) && SameHome(l, r, Replay(d0, s.hist[..CommitPoint(s)]))
  {
    CommitPointIsQuiet(s);
    if s.phase.Committing? && |s.lh| < l.size {
      assert s.hist[..|s.hist|] == s.hist;
      CrashAtomicity(l, s.phase.base, s.lh, s.phase.done, cuts);
    } else {
      QuietCrash(l, s.store.disk, cuts);
    }
  }

  lemma CrashKeepsInv(l: Layout, d0: Disk, s: State, cuts: seq<nat>)
    requires Inv(l, d0, s) && Enabled(l, s, Crash(cuts))
    ensures Inv(l, d0, Next(l, s, Crash(cuts)))
  {
    CrashNow(l, d0, s, cuts);
    WellFormedPrefix(s.hist, CommitPoint(s));
    RestartInv(l, d0, RecoverThroughCrashes(l, s.store.disk, cuts), s.hist[..CommitPoint(s)]);
  }

  lemma RestartInv(l: Layout, d0: Disk, r: Disk, h: History)
    requires EmptyLog(l, r) && SameHome(l, r, Replay(d0, h)) && WellFormed(h) && OpenOps(h) == {}
    ensures Inv(l, d0, State(Store(r, map[]), [], 0, Running, {}, {}, h, |h|))
  {
    assert h[..|h|] == h;
  }

  /** The step overflows neither the array of entries nor the log area. */
  predicate Contained(l: Layout, s: State, a: Label) {
    && (a.LogOp? ==> |Absorb(s.lh, a.bno)| <= LOGSIZE)
    && (a.CommitWrite? ==> |s.lh| < l.size)
  }

  /** Every step that stays within the array and the log area keeps the invariant. */
  lemma StepKeepsInv(l: Layout, d0: Disk, s: State, a: Label)
    requires Inv(l, d0, s) && Enabled(l, s, a) && Contained(l, s, a)
    ensures Inv(l, d0, Next(l, s, a))
  {
    match a
    case BeginOp(op) => BeginKeepsInv(l, d0, s, op);
    case TestSize(op) =>
    case TestArea(op) =>
    case LogOp(op, b, v) => LogOpKeepsInv(l, d0, s, op, b, v);
    case EndOp(op) => EndKeepsInv(l, d0, s, op);
    case CommitWrite => CommitWriteKeepsInv(l, d0, s);
    case CommitDone => CommitDoneKeepsInv(l, d0, s);
    case Crash(cuts) => CrashKeepsInv(l, d0, s, cuts);
  }

  /**
   Recovery, however often it is interrupted, gives the home blocks of the first k events
   of the history, which are whole operations and all that was durable.
   */
  ghost predicate RecoversTo(l: Layout, d0: Disk, s: State, cuts: seq<nat>, k: nat) {
    && GoodDisk(l, s.store.disk)
    && s.durable <= k <= |s.hist| && WholeOps(s.hist, k)
    && SameHome(l, RecoverThroughCrashes(l, s.store.disk, cuts), Replay(d0, s.hist[..k]))
  }

  /** A crash at this moment does no harm. */
  ghost predicate CrashSafe(l: Layout, d0: Disk, s: State) {
    forall cuts: seq<nat> :: Recovers(l, d0, s, cuts)
  }

  ghost predicate Recovers(l: Layout, d0: Disk, s: State, cuts: seq<nat>) {
    exists k: nat :: RecoversTo(l, d0, s, cuts, k)
  }

  lemma InvIsSafe(l: Layout, d0: Disk, s: State, cuts: seq<nat>)
    requires Inv(l, d0, s)
    ensures RecoversTo(l, d0, s, cuts, CommitPoint(s))
  {
    CrashNow(l, d0, s, cuts);
    QuietPrefixIsWhole(s.hist, CommitPoint(s));
  }
}
