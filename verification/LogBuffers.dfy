/**
 The log on top of the buffer cache.  Each write of a commit goes through a buffer for
 a log block, while the logged blocks keep theirs.  Since the log has as many entries
 as the cache has buffers, a full log cannot be committed.
 */
module LogBuffers {
  import opened Basics
  import opened BlockStore
  import opened Recovery
  import opened Log
  import opened LogRuns
  import opened LogSafety
  import opened LogSpace
  import Cache = BufferCache

  /** How many blocks a commit of n entries has installed after `done` writes. */
  function InstalledBy(n: nat, done: nat): (k: nat)
    ensures k <= n
  {
    if done <= n + 1 then 0 else if done <= 2 * n + 1 then done - n - 1 else n
  }

  /** The log block that the next write of a commit reads or writes: a log block or the header. */
  function NextLogBlock(l: Layout, n: nat, done: nat): (b: nat) {
    if done < n then l.start + 1 + done
    else if n < done <= 2 * n then l.start + 1 + (done - n - 1)
    else l.start
  }

  /** Entry j has its home written by exactly one write of the commit. */
  lemma WriteHits(l: Layout, base: Store, lh: seq<nat>, i: nat, j: nat)
    requires Ready(l, base, lh) && i < |CommitWrites(l, base, lh)| && j < |lh|
    ensures CommitWrites(l, base, lh)[i].bno == lh[j] <==> i == |lh| + 1 + j
  {
    CommitWriteAt(l, base, lh, i);
  }

  /** During a commit the blocks that are not yet installed stay pinned. */
  lemma EntryPinned(l: Layout, base: Store, lh: seq<nat>, done: nat, st: Store, view: Disk, j: nat)
    requires Ready(l, base, lh) && Progress(l, base, CommitWrites(l, base, lh), done, st, view) && j < |lh|
    ensures lh[j] in st.pinned <==> done <= |lh| + 1 + j
  {
    var ws, b := CommitWrites(l, base, lh), lh[j];
    assert b in base.pinned;
    if done <= |lh| + 1 + j {
      forall i | 0 <= i < done ensures ws[i].bno != b {
        WriteHits(l, base, lh, i, j);
      }
    } else {
      WriteHits(l, base, lh, |lh| + 1 + j, j);
    }
  }

  lemma PinnedLeft(l: Layout, base: Store, lh: seq<nat>, done: nat, st: Store, view: Disk, b: nat)
    requires Ready(l, base, lh) && lh != [] && Progress(l, base, CommitWrites(l, base, lh), done, st, view)
    ensures b in st.pinned <==> b in lh[InstalledBy(|lh|, done)..]
  {
    var j := Index(lh, |lh|, b);
    if j < |lh| {
      EntryPinned(l, base, lh, done, st, view, j);
      InSuffix(lh, InstalledBy(|lh|, done), j);
    } else {
      assert b !in lh;
    }
  }

  lemma InSuffix(lh: seq<nat>, k: nat, j: nat)
    requires NoRepeat(lh) && k <= |lh| && j < |lh|
    ensures lh[j] in lh[k..] <==> k <= j
  {
    if k <= j {
      assert lh[k..][j - k] == lh[j];
    }
  }

  lemma PinnedCount(l: Layout, base: Store, lh: seq<nat>, done: nat, st: Store, view: Disk)
    requires Ready(l, base, lh) && lh != [] && Progress(l, base, CommitWrites(l, base, lh), done, st, view)
    ensures |st.pinned| == |lh| - InstalledBy(|lh|, done)
  {
    var rest := lh[InstalledBy(|lh|, done)..];
    forall b: nat ensures b in st.pinned.Keys <==> b in Members(rest) {
      PinnedLeft(l, base, lh, done, st, view, b);
    }
    assert st.pinned.Keys == Members(rest);
    SuffixCount(lh, InstalledBy(|lh|, done));
  }

  lemma SuffixCount(lh: seq<nat>, i: nat)
    requires NoRepeat(lh) && i <= |lh|
    ensures |Members(lh[i..])| == |lh| - i
  {
    MembersCount(lh[i..]);
  }

  predicate Idle(bufs: seq<Cache.Buf>) {
    forall i :: 0 <= i < |bufs| ==> bufs[i].refcnt == 0
  }

  /** A commit is under way and has a write to do. */
  ghost predicate MustWrite(l: Layout, s: State) {
    s.phase.Committing? && Enabled(l, s, CommitWrite)
  }

  /**
   At every moment of every run, with no buffer in use, a commit can bring in the log
   block that it needs next exactly when the log is not full or an entry has already
   been installed.
   */
  lemma NextBlockExact(l: Layout, d0: Disk, s: State, bufs: seq<Cache.Buf>)
    requires Inv(l, d0, s) && MustWrite(l, s) && Cache.Represents(bufs, s.store) && Idle(bufs)
    requires |s.lh| < l.size || l.size >= 2
    ensures Cache.CanBring(bufs, NextLogBlock(l, |s.lh|, s.phase.done)) <==>
            |s.lh| < Cache.NBUF || s.phase.done > |s.lh| + 1
  {
    var base, done, b := s.phase.base, s.phase.done, NextLogBlock(l, |s.lh|, s.phase.done);
    assert s.lh != [];
    if |s.lh| < l.size {
      PinnedCount(l, base, s.lh, done, s.store, Replay(d0, s.hist));
      PinnedLeft(l, base, s.lh, done, s.store, Replay(d0, s.hist), b);
    } else {
      ListedCount(l, s.store, s.lh);
    }
    assert InLog(l, b) && b !in s.lh;
    Cache.CanBringExact(bufs, s.store, b);
  }

  lemma ListedCount(l: Layout, s: Store, lh: seq<nat>)
    requires Lists(l, s, lh)
    ensures |s.pinned| == |lh|
  {
    assert s.pinned.Keys == Members(lh);
    MembersCount(lh);
  }

  // ------------------------------------------------------------------
  // How many blocks are pinned, also where the log area overflows

  /** Only entries are pinned, and during a commit only those that have not been written to their homes. */
  ghost predicate PinInv(l: Layout, s: State) {
    match s.phase
    case Running => Lists(l, s.store, s.lh)
    case Committing(base, done) =>
      && Lists(l, base, s.lh) && |s.store.disk| == |base.disk|
      && (forall b <- s.store.pinned :: b in base.pinned && NotWritten(l, s, b))
  }

  /** None of the writes of the commit so far went to block b. */
  ghost predicate NotWritten(l: Layout, s: State, b: nat)
    requires s.phase.Committing?
  {
    HasWrites(l, s) ==>
      forall i :: 0 <= i < s.phase.done && i < |CommitWrites(l, s.phase.base, s.lh)| ==>
        CommitWrites(l, s.phase.base, s.lh)[i].bno != b
  }

  /** Every entry is written to its home in the end. */
  lemma HomeIsWritten(l: Layout, s: Store, lh: seq<nat>, j: nat)
    requires Fits(l, |s.disk|) && BlocksExist(l, |s.disk|, lh) && j < |lh|
    ensures |CommitWrites(l, s, lh)| == 2 * |lh| + 2 && CommitWrites(l, s, lh)[|lh| + 1 + j].bno == lh[j]
  {
    var d := Apply(s.disk, LogWrites(l, s, lh, |lh|));
    InstallWriteAt(l, d, lh, |lh|, j);
  }

  lemma DoneUnpins(l: Layout, s: State)
    requires PinInv(l, s) && Enabled(l, s, CommitDone)
    ensures s.store.pinned == map[]
  {
    forall b: nat ensures b !in s.store.pinned {
      if b in s.lh {
        var j :| 0 <= j < |s.lh| && s.lh[j] == b;
        HomeIsWritten(l, s.phase.base, s.lh, j);
        assert !NotWritten(l, s, b);
      }
    }
  }

  lemma WriteKeepsPins(l: Layout, s: State)
    requires PinInv(l, s) && Enabled(l, s, CommitWrite)
    ensures PinInv(l, Next(l, s, CommitWrite))
  {
    var s' := Next(l, s, CommitWrite);
    forall b <- s'.store.pinned ensures b in s'.phase.base.pinned && NotWritten(l, s', b) {
      assert NotWritten(l, s, b);
    }
  }

  lemma StepKeepsPins(l: Layout, s: State, a: Label)
    requires HistoryInv(s) && PinInv(l, s) && Enabled(l, s, a) && (a.LogOp? ==> |Absorb(s.lh, a.bno)| <= LOGSIZE)
    ensures PinInv(l, Next(l, s, a))
  {
    match a
    case BeginOp(op) =>
    case TestSize(op) =>
    case TestArea(op) =>
    case LogOp(op, b, v) =>
      NoOpDuringCommit(s, op);
      PinKeepsListed(l, s.store, s.lh, b, v);
    case EndOp(op) => NoOpDuringCommit(s, op);
    case CommitWrite => WriteKeepsPins(l, s);
    case CommitDone => DoneUnpins(l, s);
    case Crash(cuts) =>
  }

  lemma {:induction false} RunKeepsPins(l: Layout, d0: Disk, states: seq<State>, labels: seq<Label>, i: nat)
    requires IsBoundedRun(l, d0, states, labels) && i < |states|
    ensures PinInv(l, states[i])
  {
    if i > 0 {
      RunKeepsPins(l, d0, states, labels, i - 1);
      RunKeepsHistory(l, d0, states, labels, i - 1);
      EntriesFit(l, d0, states, labels, i);
      assert StepAt(l, states, labels, i - 1);
      StepKeepsPins(l, states[i - 1], labels[i - 1]);
    }
  }

  lemma PinnedAtMost(l: Layout, s: State)
    requires PinInv(l, s)
    ensures |s.store.pinned| <= |s.lh|
  {
    var base := if s.phase.Committing? then s.phase.base else s.store;
    ListedCount(l, base, s.lh);
    assert s.store.pinned.Keys <= base.pinned.Keys;
    SubsetSize(s.store.pinned.Keys, base.pinned.Keys);
  }

  /** At most three operations are open, so at most two entries too many are appended after stale tests. */
  lemma {:induction false} StaleBound(l: Layout, d0: Disk, states: seq<State>, labels: seq<Label>, i: nat)
    requires IsRun(l, d0, states, labels) && i < |states| && l.size >= 1
    ensures states[i].outstanding <= 3 && |states[i].lh| + |states[i].passed| <= l.size + 1
  {
    if i > 0 {
      StaleBound(l, d0, states, labels, i - 1);
      StepOfStaleBound(l, d0, states, labels, i);
    }
  }

  lemma StepOfStaleBound(l: Layout, d0: Disk, states: seq<State>, labels: seq<Label>, i: nat)
    requires IsRun(l, d0, states, labels) && 0 < i < |states| && l.size >= 1
    requires states[i - 1].outstanding <= 3 && |states[i - 1].lh| + |states[i - 1].passed| <= l.size + 1
    ensures states[i].outstanding <= 3 && |states[i].lh| + |states[i].passed| <= l.size + 1
  {
    RunKeepsHistory(l, d0, states, labels, i - 1);
    RunKeepsHistory(l, d0, states, labels, i);
    assert StepAt(l, states, labels, i - 1);
    StaleStep(l, states[i - 1], labels[i - 1], states[i]);
  }

  lemma StaleStep(l: Layout, s: State, a: Label, s': State)
    requires HistoryInv(s) && Enabled(l, s, a) && s' == Next(l, s, a) && HistoryInv(s') && l.size >= 1
    requires s.outstanding <= 3 && |s.lh| + |s.passed| <= l.size + 1
    ensures s'.outstanding <= 3 && |s'.lh| + |s'.passed| <= l.size + 1
  {
    if a.TestArea? {
      SubsetSize(s.passed + {a.op}, OpenOps(s.hist));
    } else if a.LogOp? {
      assert s.passed == (s.passed - {a.op}) + {a.op};
    }
  }

  // ------------------------------------------------------------------
  // Which panic some run meets

  /** Three operations fill the log, with as many stale tests as it takes. */
  lemma FullLog(l: Layout, d0: Disk, cap: nat) returns (s: State)
    requires l.start + l.size + LOGSIZE <= |d0| && l.size >= LOGSIZE - 1
    ensures Reached(l, d0, cap, s) && Filled(s, l.start + l.size, LOGSIZE, {}) && s.store.disk == d0
  {
    var first := l.start + l.size;
    if l.size > LOGSIZE {
      s := FillLog(l, d0, cap, first, LOGSIZE);
    } else if l.size == LOGSIZE {
      s := Overfill(l, d0, cap, first, d0[0]);
    } else {
      s := FillLog(l, d0, cap, first, 27);
      s := PassTests(l, d0, cap, s, first, 27, {}, 0);
      s := PassTests(l, d0, cap, s, first, 27, {} + {0}, 1);
      s := PassTests(l, d0, cap, s, first, 27, {} + {0} + {1}, 2);
      s := AppendThree(l, d0, cap, s, first, {} + {0} + {1} + {2});
    }
  }

  lemma AppendThree(l: Layout, d0: Disk, cap: nat, s: State, first: nat, P: set<nat>) returns (s': State)
    requires Reached(l, d0, cap, s) && Filled(s, first, 27, P) && s.store.disk == d0 && P == {0, 1, 2}
    requires l.start + l.size <= first && first + LOGSIZE <= |d0|
    ensures Reached(l, d0, cap, s') && Filled(s', first, LOGSIZE, {}) && s'.store.disk == d0
  {
    s' := AppendNext(l, d0, cap, s, first, 27, P, d0[0]);
    s' := AppendNext(l, d0, cap, s', first, 28, P - {0}, d0[0]);
    s' := AppendNext(l, d0, cap, s', first, 29, P - {0} - {1}, d0[0]);
    assert P - {0} - {1} - {2} == {};
  }

  /** Some bounded run starts to commit a full log. */
  lemma FullCommitReached(l: Layout, d0: Disk, cap: nat) returns (s: State)
    requires l.start + l.size + LOGSIZE <= |d0| && l.size >= LOGSIZE - 1
    ensures Reached(l, d0, cap, s) && s.phase == Committing(s.store, 0) && |s.lh| == LOGSIZE
    ensures Lists(l, s.store, s.lh) && s.store.disk == d0
  {
    s := FullLog(l, d0, cap);
    s := CloseAll(l, d0, cap, s, l.start + l.size, LOGSIZE);
    ReachedPins(l, d0, cap, s);
  }

  lemma ReachedPins(l: Layout, d0: Disk, cap: nat, s: State)
    requires Reached(l, d0, cap, s)
    ensures PinInv(l, s) && (l.size >= 1 ==> |s.lh| <= l.size + 1)
  {
    var states: seq<State>, labels: seq<Label> :|
      IsBoundedRun(l, d0, states, labels) && AllBelow(cap, states, labels) && states[|labels|] == s;
    RunKeepsPins(l, d0, states, labels, |labels|);
    if l.size >= 1 {
      StaleBound(l, d0, states, labels, |labels|);
    }
  }

  /** The cache that holds just the logged blocks. */
  function LoggedBufs(s: Store, lh: seq<nat>): (bufs: seq<Cache.Buf>)
    requires forall i :: 0 <= i < |lh| ==> lh[i] < |s.disk|
    ensures |bufs| == |lh|
    ensures forall i :: 0 <= i < |lh| ==> bufs[i] == Cache.Buf(1, lh[i], true, true, 0, false, s.Read(lh[i]))
  {
    seq(|lh|, i requires 0 <= i < |lh| => Cache.Buf(1, lh[i], true, true, 0, false, s.Read(lh[i])))
  }

  lemma LoggedBufsRepresent(l: Layout, s: Store, lh: seq<nat>)
    requires Lists(l, s, lh) && |lh| == Cache.NBUF
    ensures Cache.Represents(LoggedBufs(s, lh), s) && Idle(LoggedBufs(s, lh))
  {
    var bufs := LoggedBufs(s, lh);
    forall i | 0 <= i < |bufs| ensures Cache.Agrees(s, bufs[i]) {
      assert lh[i] in lh;
    }
    forall b <- s.pinned ensures Cache.Pinned(bufs, b) {
      assert b in lh;
      var i :| 0 <= i < |lh| && lh[i] == b;
      assert Cache.Holds(bufs[i], b);
    }
  }

  /** An operation within its reservation meets the panic of `log_write` on a new entry. */
  ghost predicate EntryPanics(l: Layout, s: State) {
    exists op: nat, b: nat :: NewEntry(l, s, op, b) && TooBig(l, |s.lh|)
  }

  /** With no buffer in use, the commit meets the panic of `bget`. */
  ghost predicate CommitPanics(l: Layout, s: State) {
    && MustWrite(l, s)
    && exists bufs: seq<Cache.Buf> ::
         && Cache.Represents(bufs, s.store) && Idle(bufs)
         && !Cache.CanBring(bufs, NextLogBlock(l, |s.lh|, s.phase.done))
  }

  lemma FullCommitPanics(l: Layout, d0: Disk, s: State)
    requires s.phase == Committing(s.store, 0) && |s.lh| == LOGSIZE && Lists(l, s.store, s.lh)
    requires l.size >= 2 && l.start + l.size + LOGSIZE <= |s.store.disk|
    ensures CommitPanics(l, s)
  {
    ListedCount(l, s.store, s.lh);
    LoggedBufsRepresent(l, s.store, s.lh);
    assert InLog(l, l.start + 1) && l.start + 1 !in s.lh;
    Cache.CanBringExact(LoggedBufs(s.store, s.lh), s.store, l.start + 1);
  }

  lemma SmallCommitGoesOn(l: Layout, s: State)
    requires PinInv(l, s) && |s.lh| < Cache.NBUF
    ensures !CommitPanics(l, s)
  {
    PinnedAtMost(l, s);
    if MustWrite(l, s) {
      forall bufs: seq<Cache.Buf> | Cache.Represents(bufs, s.store) && Idle(bufs)
        ensures Cache.CanBring(bufs, NextLogBlock(l, |s.lh|, s.phase.done))
      {
        Cache.RoomForOneMore(bufs, s.store, NextLogBlock(l, |s.lh|, s.phase.done));
      }
    }
  }

  /**
   Whatever the size of the log area, some run in which every operation stays within its
   reservation panics: on a new entry exactly if the area has at most LOGSIZE blocks, for
   want of a buffer in a commit exactly if it has at least LOGSIZE - 1.
   */
  lemma PanicByLogSize(l: Layout, d0: Disk)
    requires EmptyLog(l, d0) && l.start + l.size + LOGSIZE <= |d0|
    ensures l.size <= LOGSIZE <==> exists s: State :: Reached(l, d0, Cache.NBUF, s) && EntryPanics(l, s)
    ensures l.size >= LOGSIZE - 1 <==> exists s: State :: Reached(l, d0, Cache.NBUF, s) && CommitPanics(l, s)
  {
    EntryPanicExact(l, d0);
    if l.size >= LOGSIZE - 1 {
      var s := FullCommitReached(l, d0, Cache.NBUF);
      FullCommitPanics(l, d0, s);
    } else {
      forall s: State | Reached(l, d0, Cache.NBUF, s) ensures !CommitPanics(l, s) {
        ReachedPins(l, d0, Cache.NBUF, s);
        SmallCommitGoesOn(l, s);
      }
    }
  }

  lemma EntryPanicExact(l: Layout, d0: Disk)
    requires EmptyLog(l, d0) && l.start + l.size + LOGSIZE <= |d0|
    ensures l.size <= LOGSIZE <==> exists s: State :: Reached(l, d0, Cache.NBUF, s) && EntryPanics(l, s)
  {
    if l.size <= LOGSIZE {
      var first, m := l.start + l.size, l.size - 1;
      var s := FillLog(l, d0, Cache.NBUF, first, m);
      FilledNewEntry(l, d0, s, first, m);
      assert EntryPanics(l, s);
    } else {
      forall s: State | Reached(l, d0, Cache.NBUF, s) ensures !EntryPanics(l, s) {
        NoEntryPanic(l, d0, s);
      }
    }
  }

  lemma NoEntryPanic(l: Layout, d0: Disk, s: State)
    requires Reached(l, d0, Cache.NBUF, s) && l.size > LOGSIZE
    ensures !EntryPanics(l, s)
  {
    var states: seq<State>, labels: seq<Label> :|
      IsBoundedRun(l, d0, states, labels) && AllBelow(Cache.NBUF, states, labels) && states[|labels|] == s;
    forall op: nat, b: nat | NewEntry(l, s, op, b) ensures !TooBig(l, |s.lh|) {
      NewEntryFits(l, d0, states, labels, op, b);
    }
  }

  /**
   With the buffer cache, the log area that mkfs lays out, of LOGSIZE blocks, is just large
   enough: a commit of LOGSIZE entries would overflow it, but cannot get a buffer.
   */
  lemma CachedLogSafeExact(l: Layout, d0: Disk)
    requires EmptyLog(l, d0) && l.start + l.size + 1 + LOGSIZE <= |d0|
    ensures l.size >= LOGSIZE || l.size == 1 <==>
            forall s: State :: Reached(l, d0, Cache.NBUF, s) ==> CrashSafe(l, d0, s)
  {
    LogSafeExact(l, d0, Cache.NBUF);
  }
}
