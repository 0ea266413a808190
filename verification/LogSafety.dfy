/**
 Crash safety of the log over whole runs, and how large the log area must be for it.
 The tests of `log_write` may be stale when it appends its entry, so that a small log
 area can overflow, and then a commit overwrites a home block before its header.
 */
module LogSafety {
  import opened BlockStore
  import opened Recovery
  import opened Log
  import opened LogRuns
  import opened LogSpace

  /**
   The log area has room for every commit of fewer than `cap` entries, or is so small that
   `log_write` always panics.
   */
  predicate SafeSize(l: Layout, cap: nat) {
    l.size >= cap || l.size == 1
  }

  lemma {:induction false} TinyLogStaysEmpty(l: Layout, d0: Disk, states: seq<State>, labels: seq<Label>, i: nat)
    requires IsRun(l, d0, states, labels) && i < |states| && l.size == 1
    ensures states[i].lh == [] && states[i].passed == {}
  {
    if i > 0 {
      TinyLogStaysEmpty(l, d0, states, labels, i - 1);
      assert StepAt(l, states, labels, i - 1);
    }
  }

  lemma StepIsContained(l: Layout, d0: Disk, cap: nat, states: seq<State>, labels: seq<Label>, i: nat)
    requires IsBoundedRun(l, d0, states, labels) && AllBelow(cap, states, labels) && SafeSize(l, cap)
    requires i < |labels| && Inv(l, d0, states[i])
    ensures Contained(l, states[i], labels[i])
  {
    EntriesFit(l, d0, states, labels, i + 1);
    assert StepAt(l, states, labels, i);
    if l.size == 1 {
      TinyLogStaysEmpty(l, d0, states, labels, i);
    }
    assert CommitsBelow(cap, states[i], labels[i]);
  }

  /** The log's global invariant holds at every moment of every bounded run on a safe log area. */
  lemma {:induction false} RunKeepsInv(l: Layout, d0: Disk, cap: nat, states: seq<State>, labels: seq<Label>, i: nat)
    requires EmptyLog(l, d0) && IsBoundedRun(l, d0, states, labels) && AllBelow(cap, states, labels)
    requires SafeSize(l, cap) && i < |states|
    ensures Inv(l, d0, states[i])
  {
    if i == 0 {
      BootInv(l, d0);
    } else {
      RunKeepsInv(l, d0, cap, states, labels, i - 1);
      StepIsContained(l, d0, cap, states, labels, i - 1);
      StepOfRunKeepsInv(l, d0, states, labels, i - 1);
    }
  }

  lemma StepOfRunKeepsInv(l: Layout, d0: Disk, states: seq<State>, labels: seq<Label>, i: nat)
    requires IsRun(l, d0, states, labels) && i < |labels| && Inv(l, d0, states[i])
    requires Contained(l, states[i], labels[i])
    ensures Inv(l, d0, states[i + 1])
  {
    assert StepAt(l, states, labels, i);
    StepKeepsInv(l, d0, states[i], labels[i]);
  }

  /**
   Group commit.  At every moment of every bounded run on a large enough log area, with
   any earlier crashes, a crash followed by any number of interrupted recoveries gives a
   disk whose home blocks are those of a prefix of the history.  That prefix consists of
   whole operations, and it contains everything that was durable at this or any earlier
   moment.  The commits have fewer than `cap` entries: LOGSIZE + 1 stands for all runs, and
   NBUF for those in which the buffer cache has room for every commit.
   */
  lemma GroupCommit(l: Layout, d0: Disk, cap: nat, states: seq<State>, labels: seq<Label>, i: nat, cuts: seq<nat>)
    requires EmptyLog(l, d0) && IsBoundedRun(l, d0, states, labels) && AllBelow(cap, states, labels)
    requires SafeSize(l, cap) && i < |states|
    ensures var (s, k) := (states[i], CommitPoint(states[i]));
            && RecoversTo(l, d0, s, cuts, k)
            && forall j :: 0 <= j <= i ==> states[j].durable <= k && DurableKept(states[j], s)
  {
    RunKeepsInv(l, d0, cap, states, labels, i);
    InvIsSafe(l, d0, states[i], cuts);
    forall j | 0 <= j <= i ensures states[j].durable <= CommitPoint(states[i]) && DurableKept(states[j], states[i]) {
      RunKeepsDurable(l, d0, states, labels, j, i);
    }
  }

  /** A crash may strike at every moment of such a run, and the log never keeps a commit from going on. */
  lemma NothingBlocks(l: Layout, d0: Disk, states: seq<State>, labels: seq<Label>, i: nat, cuts: seq<nat>)
    requires EmptyLog(l, d0) && IsBoundedRun(l, d0, states, labels) && SafeSize(l, LOGSIZE + 1) && i < |states|
    ensures Enabled(l, states[i], Crash(cuts))
    ensures states[i].phase.Committing? ==> Enabled(l, states[i], CommitWrite) || Enabled(l, states[i], CommitDone)
  {
    BoundedIsBelow(l, d0, states, labels);
    RunKeepsInv(l, d0, LOGSIZE + 1, states, labels, i);
    CrashNow(l, d0, states[i], cuts);
    if states[i].phase.Committing? {
      EntriesFit(l, d0, states, labels, i);
      if l.size == 1 {
        TinyLogStaysEmpty(l, d0, states, labels, i);
      }
      CommitGoesOn(l, d0, states[i]);
    }
  }

  lemma CommitGoesOn(l: Layout, d0: Disk, s: State)
    requires Inv(l, d0, s) && s.phase.Committing? && |s.lh| < l.size
    ensures Enabled(l, s, CommitWrite) || Enabled(l, s, CommitDone)
  {
  }

  /** At every moment of such a run a block reads as the last data logged for it. */
  lemma ReadsSeeLastLogged(l: Layout, d0: Disk, cap: nat, states: seq<State>, labels: seq<Label>, i: nat, b: nat)
    requires EmptyLog(l, d0) && IsBoundedRun(l, d0, states, labels) && AllBelow(cap, states, labels)
    requires SafeSize(l, cap) && i < |states| && b < |d0| && !InLog(l, b)
    ensures |states[i].store.disk| == |d0|
    ensures states[i].store.Read(b) == Replay(d0, states[i].hist)[b]
  {
    RunKeepsInv(l, d0, cap, states, labels, i);
  }

  // ------------------------------------------------------------------
  // A run that overflows the log area

  /** The last of the first k operations ends; if it was the only one, the commit starts. */
  lemma CloseOne(l: Layout, d0: Disk, cap: nat, s: State, k: nat) returns (s': State)
    requires Reached(l, d0, cap, s) && OpenOps(s.hist) == FirstOps(k) && k > 0
    requires Bounded(s.hist) && s.sized == {} && s.passed == {}
    ensures Reached(l, d0, cap, s') && OpenOps(s'.hist) == FirstOps(k - 1) && Bounded(s'.hist)
    ensures s'.sized == {} && s'.passed == {} && s'.store == s.store && s'.lh == s.lh && s'.durable == s.durable
    ensures s'.phase == if k == 1 then Committing(s.store, 0) else Running
    ensures forall op: nat :: Blocks(s'.hist, op) == Blocks(s.hist, op)
  {
    CanClose(l, d0, cap, s, k);
    EndCloses(s.hist, k);
    NextReached(l, d0, cap, s, EndOp(k - 1));
    s' := Next(l, s, EndOp(k - 1));
  }

  lemma CanClose(l: Layout, d0: Disk, cap: nat, s: State, k: nat)
    requires Reached(l, d0, cap, s) && OpenOps(s.hist) == FirstOps(k) && k > 0
    ensures k - 1 in OpenOps(s.hist) && s.phase.Running? && s.outstanding == k
  {
    ReachedHistory(l, d0, cap, s);
    FirstOpsCount(k);
    NoOpDuringCommit(s, k - 1);
  }

  lemma {:induction false} FirstOpsCount(k: nat)
    ensures |FirstOps(k)| == k && forall op: nat :: op in FirstOps(k) <==> op < k
  {
    if k > 0 {
      FirstOpsCount(k - 1);
    }
  }

  lemma EndCloses(h: History, k: nat)
    requires OpenOps(h) == FirstOps(k) && k > 0
    ensures OpenOps(h + [End(k - 1)]) == FirstOps(k - 1)
    ensures forall x: nat :: Blocks(h + [End(k - 1)], x) == Blocks(h, x)
  {
    SnocHistory([], h, End(k - 1));
    WithoutLast(k);
    forall x: nat ensures Blocks(h + [End(k - 1)], x) == Blocks(h, x) {
      BlocksSnoc(h, End(k - 1), x);
    }
  }

  lemma WithoutLast(k: nat)
    requires k > 0
    ensures FirstOps(k) - {k - 1} == FirstOps(k - 1)
  {
    FirstOpsCount(k - 1);
  }

  /** All three operations end, and the commit is about to write its first block. */
  lemma CloseAll(l: Layout, d0: Disk, cap: nat, s: State, first: nat, m: nat) returns (s': State)
    requires Reached(l, d0, cap, s) && Filled(s, first, m, {}) && m <= LOGSIZE
    ensures Reached(l, d0, cap, s') && s'.phase == Committing(s.store, 0) && s'.store == s.store
    ensures s'.lh == Range(first, m) && s'.durable == 0 && Bounded(s'.hist)
    ensures forall op: nat, b: nat :: b in Blocks(s'.hist, op) ==> first <= b
  {
    FilledIsBounded(s, first, m, {});
    assert FirstOps(3) == {0, 1, 2};
    s' := CloseOne(l, d0, cap, s, 3);
    s' := CloseOne(l, d0, cap, s', 2);
    s' := CloseOne(l, d0, cap, s', 1);
  }

  /** Two operations pass the tests while there is room for one, and both append their entries. */
  lemma Overfill(l: Layout, d0: Disk, cap: nat, first: nat, v: Block) returns (s: State)
    requires 2 <= l.size <= LOGSIZE && l.start + l.size <= first && first + LOGSIZE <= |d0|
    ensures Reached(l, d0, cap, s) && Filled(s, first, l.size, {}) && s.store.disk == d0
    ensures s.store.Read(first + l.size - 1) == v
  {
    var m := l.size - 2;
    var a, b := Turns(m);
    s := FillLog(l, d0, cap, first, m);
    s := PassTests(l, d0, cap, s, first, m, {}, a);
    s := PassTests(l, d0, cap, s, first, m, {} + {a}, b);
    s := AppendNext(l, d0, cap, s, first, m, {} + {a} + {b}, v);
    s := AppendNext(l, d0, cap, s, first, m + 1, {} + {a} + {b} - {a}, v);
    assert {} + {a} + {b} - {a} - {b} == {};
  }

  lemma Turns(m: nat) returns (a: nat, b: nat)
    ensures a == m % 3 && b == (m + 1) % 3 && a < 3 && b < 3 && a != b
  {
    a, b := m % 3, (m + 1) % 3;
  }

  /** The commit of s0 has done j writes, all of them copies to the log. */
  ghost predicate Copied(l: Layout, s0: State, s: State, j: nat)
    requires HasWrites(l, s0)
  {
    && s == s0.(store := s.store, phase := s0.phase.(done := j))
    && j <= |s0.lh| && s.store.disk == Apply(s0.phase.base.disk, CommitWrites(l, s0.phase.base, s0.lh)[..j])
  }

  lemma CopyOne(l: Layout, d0: Disk, cap: nat, s0: State, s: State, j: nat) returns (s': State)
    requires HasWrites(l, s0) && Reached(l, d0, cap, s) && Copied(l, s0, s, j) && j < |s0.lh| < cap && Bounded(s0.hist)
    ensures Reached(l, d0, cap, s') && Copied(l, s0, s', j + 1)
  {
    var ws := CommitWrites(l, s0.phase.base, s0.lh);
    assert ws[..j + 1] == ws[..j] + [ws[j]];
    ApplySnoc(s0.phase.base.disk, ws[..j], ws[j]);
    NextReached(l, d0, cap, s, CommitWrite);
    s' := Next(l, s, CommitWrite);
  }

  lemma {:induction false} CopySome(l: Layout, d0: Disk, cap: nat, s0: State, j: nat) returns (s: State)
    requires HasWrites(l, s0) && Reached(l, d0, cap, s0) && s0.phase == Committing(s0.store, 0) && Bounded(s0.hist)
    requires j <= |s0.lh| < cap
    ensures Reached(l, d0, cap, s) && Copied(l, s0, s, j)
  {
    if j == 0 {
      s := s0;
      assert CommitWrites(l, s0.phase.base, s0.lh)[..0] == [];
    } else {
      s := CopySome(l, d0, cap, s0, j - 1);
      s := CopyOne(l, d0, cap, s0, s, j - 1);
    }
  }

  /** The first writes of a commit copy the entries to the blocks behind the header, wherever the log area ends. */
  lemma CopyWrites(l: Layout, s: Store, lh: seq<nat>)
    requires Fits(l, |s.disk|) && BlocksExist(l, |s.disk|, lh)
    ensures |lh| <= |CommitWrites(l, s, lh)| && CommitWrites(l, s, lh)[..|lh|] == LogWrites(l, s, lh, |lh|)
  {
  }

  lemma {:induction false} ReplayElsewhere(d: Disk, h: History, b: nat)
    requires b < |d| && forall op: nat :: b !in Blocks(h, op)
    ensures Replay(d, h)[b] == d[b]
  {
    if h != [] {
      var h', e := h[..|h| - 1], h[|h| - 1];
      assert h == h' + [e];
      forall op: nat ensures b !in Blocks(h', op) {
        BlocksSnoc(h', e, op);
      }
      ReplayElsewhere(d, h', b);
      BlocksSnoc(h', e, e.op);
    }
  }

  lemma {:induction false} BlocksOfPrefix(h: History, k: nat, op: nat)
    requires k <= |h|
    ensures Blocks(h[..k], op) <= Blocks(h, op)
  {
    if k < |h| {
      BlocksOfPrefix(h[..|h| - 1], k, op);
      assert h[..|h| - 1][..k] == h[..k];
    } else {
      assert h[..k] == h;
    }
  }

  /** A home block that no operation has logged has changed. */
  lemma Corrupted(l: Layout, d0: Disk, s: State, b: nat)
    requires EmptyLog(l, s.store.disk) && |s.store.disk| == |d0| && b < |d0| && !InLog(l, b)
    requires s.store.disk[b] != d0[b] && forall op: nat :: b !in Blocks(s.hist, op)
    ensures !CrashSafe(l, d0, s)
  {
    QuietCrash(l, s.store.disk, []);
    forall k: nat ensures !RecoversTo(l, d0, s, [], k) {
      if k <= |s.hist| {
        forall op: nat ensures b !in Blocks(s.hist[..k], op) {
          BlocksOfPrefix(s.hist, k, op);
        }
        ReplayElsewhere(d0, s.hist[..k], b);
      }
    }
    assert !Recovers(l, d0, s, []);
  }

  /** A commit that has copied all its entries, the last one to the block behind the log area. */
  lemma CopiedBeyond(l: Layout, s: Store, lh: seq<nat>, d: Disk)
    requires EmptyLog(l, s.disk) && BlocksExist(l, |s.disk|, lh) && |lh| == l.size
    requires d == Apply(s.disk, CommitWrites(l, s, lh)[..|lh|])
    ensures EmptyLog(l, d) && d[l.start + l.size] == s.Read(lh[l.size - 1])
  {
    CopyWrites(l, s, lh);
    LogApplies(l, s, lh, |lh|);
    LoggedAt(l, s, lh, |lh|, l.start);
    LoggedAt(l, s, lh, |lh|, l.start + l.size);
  }

  /**
   With stale tests of `log_write` a bounded run fills a log area of at most LOGSIZE blocks
   beyond its end; the commit then overwrites the home block behind the area before the
   header is written, and a crash loses that block.
   */
  lemma StaleTestsOverflow(l: Layout, d0: Disk, cap: nat) returns (s: State)
    requires EmptyLog(l, d0) && l.start + l.size + 1 + LOGSIZE <= |d0| && 2 <= l.size < cap && l.size <= LOGSIZE
    ensures Reached(l, d0, cap, s) && !CrashSafe(l, d0, s) && |s.lh| == l.size && CommitPoint(s) == 0
  {
    var x := l.start + l.size;
    var v: Block := d0[x][0 := d0[x][0] + 1];
    s := Overfill(l, d0, cap, x + 1, v);
    s := CloseAll(l, d0, cap, s, x + 1, l.size);
    s := CopyBeyond(l, d0, cap, s, v);
    Corrupted(l, d0, s, x);
  }

  lemma CopyBeyond(l: Layout, d0: Disk, cap: nat, s0: State, v: Block) returns (s: State)
    requires EmptyLog(l, d0) && l.start + l.size + 1 + LOGSIZE <= |d0| && 2 <= l.size < cap && l.size <= LOGSIZE
    requires Reached(l, d0, cap, s0) && s0.phase == Committing(s0.store, 0) && s0.store.disk == d0 && Bounded(s0.hist)
    requires s0.lh == Range(l.start + l.size + 1, l.size) && s0.store.Read(l.start + 2 * l.size) == v
    ensures Reached(l, d0, cap, s) && s.hist == s0.hist && s.lh == s0.lh && s.durable == s0.durable
    ensures s.phase == Committing(s0.store, l.size) && |s.store.disk| == |d0|
    ensures EmptyLog(l, s.store.disk) && s.store.disk[l.start + l.size] == v
  {
    RangeIsHome(l, l.start + l.size + 1, l.size, |d0|);
    s := CopySome(l, d0, cap, s0, l.size);
    CopiedBeyond(l, s0.store, s0.lh, s.store.disk);
  }

  lemma RangeIsHome(l: Layout, first: nat, m: nat, disksize: nat)
    requires l.start + l.size <= first && first + m <= disksize && m <= LOGSIZE
    ensures HomeEntries(l, disksize, Range(first, m))
    ensures m > 0 ==> Range(first, m)[m - 1] == first + m - 1
  {
    forall i | 0 <= i < m ensures Range(first, m)[i] == first + i {
      RangeAt(first, m, i);
    }
  }

  lemma {:induction false} RangeAt(first: nat, m: nat, i: nat)
    requires i < m
    ensures Range(first, m)[i] == first + i
  {
    if i < m - 1 {
      RangeAt(first, m - 1, i);
    }
  }

  /**
   Exactly the safe sizes of the log area make every moment of every bounded run safe
   against crashes.
   */
  lemma LogSafeExact(l: Layout, d0: Disk, cap: nat)
    requires EmptyLog(l, d0) && l.start + l.size + 1 + LOGSIZE <= |d0| && cap <= LOGSIZE + 1
    ensures SafeSize(l, cap) <==> forall s: State :: Reached(l, d0, cap, s) ==> CrashSafe(l, d0, s)
  {
    if SafeSize(l, cap) {
      forall s: State | Reached(l, d0, cap, s) ensures CrashSafe(l, d0, s) {
        ReachedInv(l, d0, cap, s);
        forall cuts: seq<nat> ensures Recovers(l, d0, s, cuts) {
          InvIsSafe(l, d0, s, cuts);
        }
      }
    } else {
      var s := StaleTestsOverflow(l, d0, cap);
    }
  }

  lemma ReachedInv(l: Layout, d0: Disk, cap: nat, s: State)
    requires EmptyLog(l, d0) && SafeSize(l, cap) && Reached(l, d0, cap, s)
    ensures Inv(l, d0, s)
  {
    var states: seq<State>, labels: seq<Label> :|
      IsBoundedRun(l, d0, states, labels) && AllBelow(cap, states, labels) && states[|labels|] == s;
    RunKeepsInv(l, d0, cap, states, labels, |labels|);
  }
}
