/**
 Log space: `begin_op` reserves MAXOPBLOCKS entries for every operation.  As long as
 each operation logs at most that many distinct blocks, a new entry always fits,
 provided that the log area on disk is larger than LOGSIZE blocks.
 */
module LogSpace {
  import opened BlockStore
  import opened Recovery
  import opened Log
  import opened LogRuns

  /** The distinct blocks that an operation has logged. */
  function Blocks(h: History, op: nat): (bs: set<nat>) {
    if h == [] then {}
    else
      var e := h[|h| - 1];
      Blocks(h[..|h| - 1], op) + if e.LogWrite? && e.op == op then {e.bno} else {}
  }

  ghost predicate Bounded(h: History) {
    forall op: nat :: |Blocks(h, op)| <= MAXOPBLOCKS
  }

  /** Reserved entries that the given operations have not used yet. */
  ghost function Unspent(h: History, ops: set<nat>): (n: int) {
    if ops == {} then 0
    else
      var op :| op in ops;
      MAXOPBLOCKS - |Blocks(h, op)| + Unspent(h, ops - {op})
  }

  lemma BlocksSnoc(h: History, e: Event, op: nat)
    ensures Blocks(h + [e], op) == Blocks(h, op) + if e.LogWrite? && e.op == op then {e.bno} else {}
  {
    assert (h + [e])[..|h|] == h;
  }

  lemma {:induction false} UnspentRemove(h: History, ops: set<nat>, x: nat)
    requires x in ops
    ensures Unspent(h, ops) == MAXOPBLOCKS - |Blocks(h, x)| + Unspent(h, ops - {x})
    decreases |ops|
  {
    var op :| op in ops && Unspent(h, ops) == MAXOPBLOCKS - |Blocks(h, op)| + Unspent(h, ops - {op});
    if op != x {
      UnspentRemove(h, ops - {op}, x);
      UnspentRemove(h, ops - {x}, op);
      assert ops - {op} - {x} == ops - {x} - {op};
    }
  }

  lemma {:induction false} UnspentSame(h: History, h': History, ops: set<nat>)
    requires forall op <- ops :: Blocks(h, op) == Blocks(h', op)
    ensures Unspent(h, ops) == Unspent(h', ops)
    decreases |ops|
  {
    if op :| op in ops {
      UnspentRemove(h, ops, op);
      UnspentRemove(h', ops, op);
      UnspentSame(h, h', ops - {op});
    }
  }

  lemma {:induction false} UnspentNonNegative(h: History, ops: set<nat>)
    requires Bounded(h)
    ensures 0 <= Unspent(h, ops) <= |ops| * MAXOPBLOCKS
    decreases |ops|
  {
    if op :| op in ops {
      UnspentRemove(h, ops, op);
      UnspentNonNegative(h, ops - {op});
    }
  }

  /** Entries in use plus unspent reservations fit in the log. */
  ghost predicate SpaceInv(s: State) {
    && (forall op <- OpenOps(s.hist), b <- Blocks(s.hist, op) :: b in s.lh)
    && |s.lh| + Unspent(s.hist, OpenOps(s.hist)) <= LOGSIZE
  }

  lemma BeginKeepsSpace(l: Layout, s: State, op: nat)
    requires HistoryInv(s) && SpaceInv(s) && Enabled(l, s, BeginOp(op)) && Bounded(s.hist)
    ensures SpaceInv(Next(l, s, BeginOp(op)))
  {
    var h' := s.hist + [Begin(op)];
    SnocHistory([], s.hist, Begin(op));
    OpenOpsAppear(s.hist, op);
    FreshHasNoBlocks(s.hist, op);
    forall x: nat ensures Blocks(h', x) == Blocks(s.hist, x) {
      BlocksSnoc(s.hist, Begin(op), x);
    }
    UnspentRemove(h', OpenOps(h'), op);
    assert OpenOps(h') - {op} == OpenOps(s.hist);
    UnspentSame(s.hist, h', OpenOps(s.hist));
    UnspentNonNegative(s.hist, OpenOps(s.hist));
  }

  lemma {:induction false} FreshHasNoBlocks(h: History, op: nat)
    requires Fresh(h, op)
    ensures Blocks(h, op) == {}
  {
    if h != [] {
      FreshHasNoBlocks(h[..|h| - 1], op);
    }
  }

  lemma UnspentAfterLog(h: History, op: nat, b: nat, v: Block, ops: set<nat>)
    requires op in ops
    ensures forall x: nat :: Blocks(h + [LogWrite(op, b, v)], x) == Blocks(h, x) + if x == op then {b} else {}
    ensures Unspent(h + [LogWrite(op, b, v)], ops) == Unspent(h, ops) - if b in Blocks(h, op) then 0 else 1
  {
    var h' := h + [LogWrite(op, b, v)];
    forall x: nat ensures Blocks(h', x) == Blocks(h, x) + if x == op then {b} else {} {
      BlocksSnoc(h, LogWrite(op, b, v), x);
    }
    assert |Blocks(h, op) + {b}| == |Blocks(h, op)| + if b in Blocks(h, op) then 0 else 1 by {
      if b in Blocks(h, op) {
        assert Blocks(h, op) + {b} == Blocks(h, op);
      }
    }
    UnspentRemove(h, ops, op);
    UnspentRemove(h', ops, op);
    UnspentSame(h, h', ops - {op});
  }

  lemma LogOpKeepsSpace(l: Layout, s: State, op: nat, b: nat, v: Block)
    requires HistoryInv(s) && SpaceInv(s) && Enabled(l, s, LogOp(op, b, v))
    ensures SpaceInv(Next(l, s, LogOp(op, b, v)))
  {
    SnocHistory([], s.hist, LogWrite(op, b, v));
    UnspentAfterLog(s.hist, op, b, v, OpenOps(s.hist));
  }

  lemma EndKeepsSpace(l: Layout, s: State, op: nat)
    requires SpaceInv(s) && Enabled(l, s, EndOp(op)) && Bounded(s.hist)
    ensures SpaceInv(Next(l, s, EndOp(op)))
  {
    var h', ops := s.hist + [End(op)], OpenOps(s.hist);
    SnocHistory([], s.hist, End(op));
    forall x: nat ensures Blocks(h', x) == Blocks(s.hist, x) {
      BlocksSnoc(s.hist, End(op), x);
    }
    UnspentRemove(s.hist, ops, op);
    UnspentSame(s.hist, h', ops - {op});
  }

  /** The tests of `log_write` are not needed for this. */
  lemma StepKeepsSpace(l: Layout, s: State, a: Label)
    requires HistoryInv(s) && SpaceInv(s) && Enabled(l, s, a) && Bounded(s.hist)
    ensures SpaceInv(Next(l, s, a))
  {
    match a
    case BeginOp(op) => BeginKeepsSpace(l, s, op);
    case TestSize(op) =>
    case TestArea(op) =>
    case LogOp(op, b, v) => LogOpKeepsSpace(l, s, op, b, v);
    case EndOp(op) => EndKeepsSpace(l, s, op);
    case CommitWrite =>
    case CommitDone =>
    case Crash(cuts) => CommitPointIsQuiet(s);
  }

  /** A run in which every operation stays within its reservation. */
  ghost predicate IsBoundedRun(l: Layout, d0: Disk, states: seq<State>, labels: seq<Label>) {
    IsRun(l, d0, states, labels) && forall i :: 0 <= i < |states| ==> Bounded(states[i].hist)
  }

  lemma OneStepKeepsSpace(l: Layout, d0: Disk, states: seq<State>, labels: seq<Label>, i: nat)
    requires IsBoundedRun(l, d0, states, labels) && i < |labels| && SpaceInv(states[i])
    ensures SpaceInv(states[i + 1])
  {
    RunKeepsHistory(l, d0, states, labels, i);
    assert StepAt(l, states, labels, i);
    StepKeepsSpace(l, states[i], labels[i]);
  }

  lemma {:induction false} RunKeepsSpace(l: Layout, d0: Disk, states: seq<State>, labels: seq<Label>, i: nat)
    requires IsBoundedRun(l, d0, states, labels) && i < |states|
    ensures SpaceInv(states[i])
  {
    if i > 0 {
      RunKeepsSpace(l, d0, states, labels, i - 1);
      OneStepKeepsSpace(l, d0, states, labels, i - 1);
    }
  }

  /** The array of entries never overflows. */
  lemma EntriesFit(l: Layout, d0: Disk, states: seq<State>, labels: seq<Label>, i: nat)
    requires IsBoundedRun(l, d0, states, labels) && i < |states|
    ensures |states[i].lh| <= LOGSIZE
  {
    RunKeepsSpace(l, d0, states, labels, i);
    UnspentNonNegative(states[i].hist, OpenOps(states[i].hist));
  }

  /** An open operation asks to log a block that is not in the log yet and that its reservation covers. */
  ghost predicate NewEntry(l: Layout, s: State, op: nat, b: nat) {
    && op in OpenOps(s.hist) && op !in s.sized && op !in s.passed
    && b < |s.store.disk| && !InLog(l, b)
    && b !in s.lh
    && |Blocks(s.hist, op) + {b}| <= MAXOPBLOCKS
  }

  /** In every bounded run the reservations leave room for every new entry. */
  lemma NewEntryFits(l: Layout, d0: Disk, states: seq<State>, labels: seq<Label>, op: nat, b: nat)
    requires IsBoundedRun(l, d0, states, labels)
    requires NewEntry(l, states[|labels|], op, b)
    ensures |states[|labels|].lh| < LOGSIZE
    ensures l.size > LOGSIZE ==> !TooBig(l, |states[|labels|].lh|)
  {
    var s := states[|labels|];
    RunKeepsSpace(l, d0, states, labels, |labels|);
    UnspentRemove(s.hist, OpenOps(s.hist), op);
    UnspentNonNegative(s.hist, OpenOps(s.hist) - {op});
    assert b !in Blocks(s.hist, op);
  }

  // ------------------------------------------------------------------
  // Runs that fill the log

  /** A commit begins only if it has fewer than `cap` entries. */
  predicate CommitsBelow(cap: nat, s: State, a: Label) {
    a.CommitWrite? && s.phase.Committing? && s.phase.done == 0 ==> |s.lh| < cap
  }

  /** Some bounded run, with commits of fewer than `cap` entries, ends in s. */
  ghost predicate Reached(l: Layout, d0: Disk, cap: nat, s: State) {
    exists states: seq<State>, labels: seq<Label> ::
      IsBoundedRun(l, d0, states, labels) && AllBelow(cap, states, labels) && states[|labels|] == s
  }

  predicate AllBelow(cap: nat, states: seq<State>, labels: seq<Label>)
    requires |states| == |labels| + 1
  {
    forall i {:trigger labels[i]} :: 0 <= i < |labels| ==> CommitsBelow(cap, states[i], labels[i])
  }

  lemma BootReached(l: Layout, d0: Disk, cap: nat)
    ensures Reached(l, d0, cap, Boot(d0))
  {
    assert IsBoundedRun(l, d0, [Boot(d0)], []) && AllBelow(cap, [Boot(d0)], []);
  }

  lemma ExtendRun(l: Layout, d0: Disk, cap: nat, states: seq<State>, labels: seq<Label>, a: Label, s': State)
    requires IsBoundedRun(l, d0, states, labels) && AllBelow(cap, states, labels) && Enabled(l, states[|labels|], a)
    requires s' == Next(l, states[|labels|], a) && Bounded(s'.hist) && CommitsBelow(cap, states[|labels|], a)
    ensures IsBoundedRun(l, d0, states + [s'], labels + [a]) && AllBelow(cap, states + [s'], labels + [a])
  {
    var states', labels' := states + [s'], labels + [a];
    forall i | 0 <= i < |labels'|
      ensures StepAt(l, states', labels', i) && CommitsBelow(cap, states'[i], labels'[i])
    {
      if i < |labels| {
        assert StepAt(l, states, labels, i) && labels'[i] == labels[i];
      }
    }
    assert IsRun(l, d0, states', labels');
  }

  lemma NextReached(l: Layout, d0: Disk, cap: nat, s: State, a: Label)
    requires Reached(l, d0, cap, s) && Enabled(l, s, a) && Bounded(Next(l, s, a).hist) && CommitsBelow(cap, s, a)
    ensures Reached(l, d0, cap, Next(l, s, a))
  {
    var states: seq<State>, labels: seq<Label> :|
      IsBoundedRun(l, d0, states, labels) && AllBelow(cap, states, labels) && states[|labels|] == s;
    ExtendRun(l, d0, cap, states, labels, a, Next(l, s, a));
  }

  /** A cap of LOGSIZE + 1 is no restriction. */
  lemma BoundedIsBelow(l: Layout, d0: Disk, states: seq<State>, labels: seq<Label>)
    requires IsBoundedRun(l, d0, states, labels)
    ensures AllBelow(LOGSIZE + 1, states, labels)
  {
    forall i | 0 <= i < |labels| ensures CommitsBelow(LOGSIZE + 1, states[i], labels[i]) {
      EntriesFit(l, d0, states, labels, i);
    }
  }

  lemma ReachedHistory(l: Layout, d0: Disk, cap: nat, s: State)
    requires Reached(l, d0, cap, s)
    ensures HistoryInv(s) && SpaceInv(s) && |s.lh| <= LOGSIZE
  {
    var states: seq<State>, labels: seq<Label> :|
      IsBoundedRun(l, d0, states, labels) && AllBelow(cap, states, labels) && states[|labels|] == s;
    RunKeepsHistory(l, d0, states, labels, |labels|);
    RunKeepsSpace(l, d0, states, labels, |labels|);
    EntriesFit(l, d0, states, labels, |labels|);
  }

  function Range(first: nat, m: nat): (r: seq<nat>)
    ensures |r| == m && forall b <- r :: first <= b < first + m
  {
    if m == 0 then [] else Range(first, m - 1) + [first + m - 1]
  }

  /**
   Three operations are open and have logged m blocks in turn, from `first` on; those in
   P have passed the tests of `log_write`.
   */
  ghost predicate Filled(s: State, first: nat, m: nat, P: set<nat>) {
    && s.phase.Running? && s.durable == 0
    && OpenOps(s.hist) == {0, 1, 2}
    && s.lh == Range(first, m)
    && SpentBlocks(s.hist, first, m)
    && s.sized == {} && s.passed == P
  }

  /** Each operation has logged its share of the blocks. */
  ghost predicate SpentBlocks(h: History, first: nat, m: nat) {
    && (forall op: nat, b: nat :: b in Blocks(h, op) ==> first <= b < first + m)
    && (forall op: nat :: |Blocks(h, op)| == Spent(m, op))
  }

  /** How many of the first m blocks fall to operation op when three take turns. */
  function Spent(m: nat, op: nat): (n: nat) {
    if op > 2 then 0 else (m + 2 - op) / 3
  }

  lemma SpentStep(m: nat, op: nat)
    ensures Spent(m + 1, op) == Spent(m, op) + if op == m % 3 then 1 else 0
    ensures m <= LOGSIZE ==> Spent(m, op) <= MAXOPBLOCKS
  {
  }

  function FirstOps(j: nat): (ops: set<nat>) {
    if j == 0 then {} else FirstOps(j - 1) + {j - 1}
  }

  /** Operations 0 to j-1 have begun and done nothing. */
  ghost predicate Opened(s: State, j: nat) {
    && s.phase.Running? && s.lh == [] && s.outstanding == j && s.durable == 0
    && OpenOps(s.hist) == FirstOps(j)
    && (forall op: nat :: Blocks(s.hist, op) == {})
    && (forall i :: 0 <= i < |s.hist| ==> s.hist[i].op < j)
    && s.sized == {} && s.passed == {}
  }

  lemma OpenStep(l: Layout, s: State, j: nat)
    requires Opened(s, j) && j < 3
    ensures Enabled(l, s, BeginOp(j)) && Opened(Next(l, s, BeginOp(j)), j + 1)
  {
    SnocHistory([], s.hist, Begin(j));
    forall op: nat ensures Blocks(s.hist + [Begin(j)], op) == {} {
      BlocksSnoc(s.hist, Begin(j), op);
    }
  }

  lemma {:induction false} OpenSome(l: Layout, d0: Disk, cap: nat, j: nat) returns (s: State)
    requires j <= 3
    ensures Reached(l, d0, cap, s) && Opened(s, j) && s.store.disk == d0
  {
    if j == 0 {
      s := Boot(d0);
      BootReached(l, d0, cap);
    } else {
      s := OpenSome(l, d0, cap, j - 1);
      OpenStep(l, s, j - 1);
      NextReached(l, d0, cap, s, BeginOp(j - 1));
      s := Next(l, s, BeginOp(j - 1));
    }
  }

  lemma OpenedIsFilled(s: State, first: nat)
    requires Opened(s, 3)
    ensures Filled(s, first, 0, {})
  {
    assert FirstOps(3) == {0, 1, 2};
  }

  lemma FilledIsBounded(s: State, first: nat, m: nat, P: set<nat>)
    requires Filled(s, first, m, P) && m <= LOGSIZE
    ensures Bounded(s.hist)
  {
    forall op: nat ensures |Blocks(s.hist, op)| <= MAXOPBLOCKS {
      SpentStep(m, op);
    }
  }

  /** Another operation passes the tests, which may take place before others append their entries. */
  lemma PassTests(l: Layout, d0: Disk, cap: nat, s: State, first: nat, m: nat, P: set<nat>, op: nat) returns (s': State)
    requires Reached(l, d0, cap, s) && Filled(s, first, m, P) && s.store.disk == d0
    requires m < LOGSIZE && m < l.size - 1 && op < 3 && op !in P
    ensures Reached(l, d0, cap, s') && Filled(s', first, m, P + {op}) && s'.store == s.store
  {
    ReachedHistory(l, d0, cap, s);
    NoOpDuringCommit(s, op);
    FilledIsBounded(s, first, m, P);
    NextReached(l, d0, cap, s, TestSize(op));
    s' := Next(l, s, TestSize(op));
    NextReached(l, d0, cap, s', TestArea(op));
    s' := Next(l, s', TestArea(op));
  }

  lemma FillBlocks(h: History, first: nat, m: nat, v: Block, x: nat)
    requires |Blocks(h, x)| == Spent(m, x) && forall c <- Blocks(h, x) :: first <= c < first + m
    ensures var bs := Blocks(h + [LogWrite(m % 3, first + m, v)], x);
            |bs| == Spent(m + 1, x) && forall c <- bs :: first <= c < first + m + 1
  {
    SpentStep(m, x);
    BlocksSnoc(h, LogWrite(m % 3, first + m, v), x);
    assert first + m !in Blocks(h, x);
  }

  lemma FillAllBlocks(h: History, first: nat, m: nat, v: Block)
    requires SpentBlocks(h, first, m)
    ensures SpentBlocks(h + [LogWrite(m % 3, first + m, v)], first, m + 1)
  {
    var h' := h + [LogWrite(m % 3, first + m, v)];
    forall x: nat
      ensures |Blocks(h', x)| == Spent(m + 1, x)
      ensures forall c <- Blocks(h', x) :: first <= c < first + m + 1
    {
      FillBlocks(h, first, m, v, x);
    }
  }

  /** The operation whose turn it is appends its entry. */
  lemma AppendNext(l: Layout, d0: Disk, cap: nat, s: State, first: nat, m: nat, P: set<nat>, v: Block)
    returns (s': State)
    requires Reached(l, d0, cap, s) && Filled(s, first, m, P) && s.store.disk == d0
    requires m < LOGSIZE && m % 3 in P && l.start + l.size <= first && first + LOGSIZE <= |d0|
    ensures Reached(l, d0, cap, s') && Filled(s', first, m + 1, P - {m % 3}) && s'.store == s.store.Pin(first + m, v)
  {
    var a := LogOp(m % 3, first + m, v);
    s' := Next(l, s, a);
    FilledMore(s, first, m, P, v, m % 3);
    FilledIsBounded(s', first, m + 1, P - {m % 3});
    NextReached(l, d0, cap, s, a);
  }

  lemma FilledMore(s: State, first: nat, m: nat, P: set<nat>, v: Block, op: nat)
    requires Filled(s, first, m, P) && op == m % 3 && first + m < |s.store.disk|
    ensures Filled(LogRuns.Logged(s, op, first + m, v), first, m + 1, P - {op})
  {
    SnocHistory([], s.hist, LogWrite(op, first + m, v));
    FillAllBlocks(s.hist, first, m, v);
    assert Absorb(s.lh, first + m) == Range(first, m + 1);
  }

  lemma {:induction false} FillLog(l: Layout, d0: Disk, cap: nat, first: nat, m: nat) returns (s: State)
    requires l.start + l.size <= first && first + LOGSIZE <= |d0|
    requires m <= LOGSIZE && m < l.size
    ensures Reached(l, d0, cap, s) && Filled(s, first, m, {}) && s.store.disk == d0
  {
    if m == 0 {
      s := OpenSome(l, d0, cap, 3);
      OpenedIsFilled(s, first);
    } else {
      s := FillLog(l, d0, cap, first, m - 1);
      var op := (m - 1) % 3;
      s := PassTests(l, d0, cap, s, first, m - 1, {}, op);
      s := AppendNext(l, d0, cap, s, first, m - 1, {} + {op}, d0[0]);
      assert {} + {op} - {op} == {};
    }
  }

  // ------------------------------------------------------------------
  // The bound on the log size is exact

  /**
   A log area of more than LOGSIZE blocks is exactly what it takes: with one, no
   bounded run meets the panic in `log_write` on a new entry; with LOGSIZE or fewer,
   some bounded run does.
   */
  lemma LogSizeExact(l: Layout, d0: Disk)
    requires EmptyLog(l, d0) && l.start + l.size + LOGSIZE <= |d0|
    ensures l.size > LOGSIZE <==>
            forall states: seq<State>, labels: seq<Label>, op: nat, b: nat ::
              IsBoundedRun(l, d0, states, labels) && NewEntry(l, states[|labels|], op, b)
              ==> !TooBig(l, |states[|labels|].lh|)
  {
    if l.size > LOGSIZE {
      forall states: seq<State>, labels: seq<Label>, op: nat, b: nat
        | IsBoundedRun(l, d0, states, labels) && NewEntry(l, states[|labels|], op, b)
        ensures !TooBig(l, |states[|labels|].lh|)
      {
        NewEntryFits(l, d0, states, labels, op, b);
      }
    } else {
      var first, m := l.start + l.size, l.size - 1;
      var s := FillLog(l, d0, LOGSIZE + 1, first, m);
      var states: seq<State>, labels: seq<Label> :|
        IsBoundedRun(l, d0, states, labels) && AllBelow(LOGSIZE + 1, states, labels) && states[|labels|] == s;
      FilledNewEntry(l, d0, s, first, m);
      assert TooBig(l, |s.lh|);
    }
  }

  lemma FilledNewEntry(l: Layout, d0: Disk, s: State, first: nat, m: nat)
    requires Filled(s, first, m, {}) && s.store.disk == d0 && m < LOGSIZE
    requires l.start + l.size <= first && first + LOGSIZE <= |d0|
    ensures NewEntry(l, s, m % 3, first + m)
  {
    SpentStep(m, m % 3);
    SpentStep(m + 1, m % 3);
  }

  /**
   The guard of `log_write` comes before absorption, so once the log holds LOGSIZE
   entries even logging an already logged block again panics, however large the log
   area is and although no operation exceeds its reservation.
   */
  lemma RelogPanics(l: Layout, d0: Disk) returns (states: seq<State>, labels: seq<Label>, op: nat, b: nat)
    requires EmptyLog(l, d0) && l.start + l.size + LOGSIZE <= |d0| && l.size > LOGSIZE
    ensures IsBoundedRun(l, d0, states, labels)
    ensures op in OpenOps(states[|labels|].hist) && b in Blocks(states[|labels|].hist, op)
    ensures TooBig(l, |states[|labels|].lh|)
  {
    var s := FillLog(l, d0, LOGSIZE + 1, l.start + l.size, LOGSIZE);
    states, labels :|
      IsBoundedRun(l, d0, states, labels) && AllBelow(LOGSIZE + 1, states, labels) && states[|labels|] == s;
    op := 0;
    assert |Blocks(s.hist, 0)| == 10;
    b :| b in Blocks(s.hist, op);
  }

  /** In a bounded run on a large enough log, `log_write` panics exactly when the log holds LOGSIZE entries. */
  lemma PanicExactlyWhenFull(l: Layout, d0: Disk, states: seq<State>, labels: seq<Label>)
    requires IsBoundedRun(l, d0, states, labels) && l.size > LOGSIZE
    ensures |states[|labels|].lh| <= LOGSIZE
    ensures TooBig(l, |states[|labels|].lh|) <==> |states[|labels|].lh| == LOGSIZE
    ensures TooBig(l, |states[|labels|].lh|) ==> Unspent(states[|labels|].hist, OpenOps(states[|labels|].hist)) == 0
  {
    var s := states[|labels|];
    RunKeepsSpace(l, d0, states, labels, |labels|);
    UnspentNonNegative(s.hist, OpenOps(s.hist));
  }
}
