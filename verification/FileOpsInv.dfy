/** The invariant of the concurrent file writes: files at rest hold the completed writes; no block is lost or shared. */
module FileOpsInv {
  import opened Basics
  import opened FsLayout
  import opened FsSteps
  import opened FileOps
  import opened FileOpsSteps

  /** The content of file n after the completed writes, in the order in which they released the lock. */
  ghost function After(f0: Fs, done: seq<Tx>, n: nat): (s: seq<byte>)
    requires WellFormed(f0) && n < |f0.inodes| && f0.inodes[n].size <= MAXFILE * BSIZE
  {
    if done == [] then Content(f0, n)
    else
      var s, t := After(f0, done[..|done| - 1], n), done[|done| - 1];
      if t.n == n && t.off <= |s| then Splice(s, t.off, t.src) else s
  }

  lemma AfterOne(f0: Fs, done: seq<Tx>, t: Tx, n: nat)
    requires WellFormed(f0) && n < |f0.inodes| && f0.inodes[n].size <= MAXFILE * BSIZE
    ensures After(f0, done + [t], n) ==
            var s := After(f0, done, n); if t.n == n && t.off <= |s| then Splice(s, t.off, t.src) else s
  {
    assert (done + [t])[..|done|] == done;
  }

  ghost predicate OpOk(f0: Fs, c: Config, op: Op)
    requires Consistent(f0)
  {
    match op
    case Waiting => true
    case Active(w) =>
      && WriterOk(c.fs, w) && w.n < |f0.inodes|
      && f0.inodes[w.n].size <= MAXFILE * BSIZE && Content(w.start, w.n) == After(f0, c.done, w.n)
    case Finished(w) => |w.logged| <= 10
  }

  /** Two writers have different inodes and different blocks in hand. */
  predicate Apart(op: Op, op': Op) {
    op.Active? && op'.Active? ==> op.w.n != op'.w.n && (op.w.Hand() == 0 || op.w.Hand() != op'.w.Hand())
  }

  /** File n is at rest. */
  ghost predicate AtRest(f0: Fs, c: Config, n: nat)
    requires Consistent(f0) && WellFormed(c.fs) && n < |c.fs.inodes| == |f0.inodes|
  {
    Settled(c.fs, n) && f0.inodes[n].size <= MAXFILE * BSIZE && Content(c.fs, n) == After(f0, c.done, n)
  }

  ghost predicate Inv(f0: Fs, c: Config) {
    && Consistent(f0) && Owned(c.fs) && c.fs.sb == f0.sb && |c.fs.inodes| == |f0.inodes|
    && (forall op <- c.ops :: OpOk(f0, c, c.ops[op]))
    && (forall op <- c.ops, op' <- c.ops :: op != op' ==> Apart(c.ops[op], c.ops[op']))
    && (forall n :: 0 <= n < |f0.inodes| && !Held(c, n) ==> AtRest(f0, c, n))
  }

  lemma Initially(f0: Fs)
    requires Consistent(f0)
    ensures Inv(f0, Config(f0, map[], []))
  {
  }

  /** When no operation is open, the file system is consistent. */
  lemma QuietIsConsistent(f0: Fs, c: Config)
    requires Inv(f0, c) && c.ops == map[]
    ensures Consistent(c.fs)
    ensures forall n :: 0 <= n < |f0.inodes| ==>
              && f0.inodes[n].size <= MAXFILE * BSIZE && c.fs.inodes[n].size <= MAXFILE * BSIZE
              && Content(c.fs, n) == After(f0, c.done, n)
  {
    forall n | 0 <= n < |f0.inodes|
      ensures AtRest(f0, c, n) && c.fs.dinodes[n] == c.fs.inodes[n]
      ensures c.fs.inodes[n].size <= MAXFILE * BSIZE && Mapped(c.fs, n, BlocksFor(c.fs.inodes[n].size))
    {
      assert !Held(c, n);
    }
    assert c.fs.dinodes == c.fs.inodes;
  }

  // ------------------------------------------------------------------
  // One writer's step

  /** What a step leaves of the writer: it goes on, or its file is settled. */
  ghost predicate Outcome(fs: Fs, w: Writer, r: Result) {
    && Owned(r.fs) && Elsewhere(fs, r.fs, w.n, w.Hand())
    && r.w.n == w.n && r.w.off == w.off && r.w.src == w.src && r.w.start == w.start && r.w.Hand() in {0, w.Hand()}
    && WellFormed(w.start) && w.n < |w.start.inodes| && w.off <= w.start.inodes[w.n].size <= MAXFILE * BSIZE
    && if Complete(r.fs, Log(r.w, r.bno)) then
         && |Log(r.w, r.bno).logged| <= 10
         && Settled(r.fs, w.n) && Content(r.fs, w.n) == Splice(Content(w.start, w.n), w.off, w.src)
       else WriterOk(r.fs, Log(r.w, r.bno))
  }

  lemma LoggedBound(fs: Fs, w: Writer)
    requires LogOk(fs, w) && w.off <= w.start.inodes[w.n].size && |w.src| <= 3 * BSIZE
    ensures |w.logged| <= 10
  {
    LogSetSize(fs, w);
    SubsetSize(w.logged, LogSet(fs, w));
  }

  lemma ClearOutcome(fs: Fs, w: Writer)
    requires Owned(fs) && WriterOk(fs, w) && w.stage.Got?
    ensures Fits(fs, w) && Outcome(fs, w, Clear(fs, w))
  {
    if w.stage.k < NDIRECT {
      ClearDirect(fs, w);
    } else if w.stage.k == NDIRECT {
      ClearIndirect(fs, w);
    } else {
      ClearEntry(fs, w);
    }
  }

  lemma EnterOutcome(fs: Fs, w: Writer)
    requires Owned(fs) && WriterOk(fs, w) && w.stage.Zeroed?
    ensures Fits(fs, w) && Outcome(fs, w, Enter(fs, w))
  {
    EnterEntry(fs, w);
  }

  lemma CopyOutcome(fs: Fs, w: Writer)
    requires Owned(fs) && WriterOk(fs, w) && w.stage.Look?
    requires w.o < w.End() && w.o / BSIZE < MAXFILE && Wanted(fs, w).None?
    ensures Fits(fs, w) && Outcome(fs, w, Copy(fs, w))
  {
    CopyIs(fs, w);
    var r := Copy(fs, w);
    var w' := Log(r.w, r.bno);
    WantedIsNew(fs, w);
    CopyElsewhere(fs, w, r.bno, r.fs);
    CopyFile(fs, w, r.bno, r.fs);
    LogKeepsFile(r.fs, r.w, r.bno);
    CopyLogs(fs, w, r.fs);
    LoggedBound(r.fs, w');
    if Complete(r.fs, w') {
      WriteSettles(r.fs, w', r.fs);
    }
  }

  lemma UpdateOutcome(fs: Fs, w: Writer)
    requires Owned(fs) && WriterOk(fs, w) && w.stage.Look? && w.o == w.End()
    ensures Fits(fs, w) && Outcome(fs, w, Update(fs, w))
  {
    UpdateIs(fs, w);
    UpdateLogs(fs, w);
    var r := Update(fs, w);
    WriteSettles(fs, w, r.fs);
    LoggedBound(r.fs, Log(r.w, r.bno));
  }

  lemma ProceedOutcome(fs: Fs, w: Writer)
    requires Owned(fs) && WriterOk(fs, w) && Fits(fs, w) && (w.stage.Look? && w.o < w.End() ==> Wanted(fs, w).None?)
    ensures Outcome(fs, w, Proceed(fs, w))
  {
    match w.stage
    case Got(_, _) => ClearOutcome(fs, w);
    case Zeroed(_, _) => EnterOutcome(fs, w);
    case Look =>
      if w.o < w.End() {
        CopyOutcome(fs, w);
      } else {
        UpdateOutcome(fs, w);
      }
  }

  // ------------------------------------------------------------------
  // Every step keeps the invariant

  /** Another writer is not affected. */
  lemma OtherOp(f0: Fs, c: Config, op: nat, w: Writer, r: Result, done: seq<Tx>, x: nat)
    requires Inv(f0, c) && op in c.ops && c.ops[op] == Active(w) && Outcome(c.fs, w, r) && x in c.ops && x != op
    requires done == c.done || (exists t: Tx :: t.n == w.n && done == c.done + [t])
    ensures OpOk(f0, Config(r.fs, c.ops, done), c.ops[x])
  {
    if c.ops[x].Active? {
      var v := c.ops[x].w;
      assert OpOk(f0, c, c.ops[x]) && Apart(c.ops[x], c.ops[op]);
      assert c.fs.bitmap[0];
      WriterFramed(c.fs, r.fs, w.n, w.Hand(), v);
      if done != c.done {
        var t: Tx :| t.n == w.n && done == c.done + [t];
        AfterOne(f0, c.done, t, v.n);
      }
    }
  }

  lemma OtherFile(f0: Fs, c: Config, w: Writer, r: Result, done: seq<Tx>, n: nat)
    requires Consistent(f0) && WellFormed(c.fs) && n < |c.fs.inodes| == |f0.inodes| && n != w.n && AtRest(f0, c, n)
    requires Elsewhere(c.fs, r.fs, w.n, w.Hand())
    requires done == c.done || (exists t: Tx :: t.n == w.n && done == c.done + [t])
    ensures AtRest(f0, Config(r.fs, c.ops, done), n)
  {
    SameMapped(c.fs, r.fs, n, BlocksFor(c.fs.inodes[n].size));
    SameFirstBytes(c.fs, r.fs, n, c.fs.inodes[n].size);
    if done != c.done {
      var t: Tx :| t.n == w.n && done == c.done + [t];
      AfterOne(f0, c.done, t, n);
    }
  }

  /** The step of an active operation, other than taking a block from the bitmap. */
  lemma ProceedKeepsInv(f0: Fs, c: Config, op: nat, w: Writer, r: Result)
    requires Inv(f0, c) && op in c.ops && c.ops[op] == Active(w) && Outcome(c.fs, w, r)
    ensures Inv(f0, Stepped(c, op, r))
  {
    var c' := Stepped(c, op, r);
    OwnOp(f0, c, op, w, r);
    forall x <- c'.ops ensures OpOk(f0, c', c'.ops[x]) {
      if x != op {
        OtherOp(f0, c, op, w, r, c'.done, x);
      }
    }
    forall x <- c'.ops, y <- c'.ops | x != y ensures Apart(c'.ops[x], c'.ops[y]) {
      SteppedApart(f0, c, op, w, r, x, y);
    }
    forall n | 0 <= n < |f0.inodes| && !Held(c', n) ensures AtRest(f0, c', n) {
      SteppedRest(f0, c, op, w, r, n);
    }
  }

  /** A file that nobody holds after the step is at rest. */
  lemma SteppedRest(f0: Fs, c: Config, op: nat, w: Writer, r: Result, n: nat)
    requires Inv(f0, c) && op in c.ops && c.ops[op] == Active(w) && Outcome(c.fs, w, r)
    requires n < |f0.inodes| && !Held(Stepped(c, op, r), n)
    ensures AtRest(f0, Stepped(c, op, r), n)
  {
    var c' := Stepped(c, op, r);
    OwnOp(f0, c, op, w, r);
    if n != w.n {
      StillHeld(c, op, w, r, n);
      OtherFile(f0, c, w, r, c'.done, n);
    } else {
      assert c'.ops[op].Finished?;
    }
  }

  /** The operation itself, and its file once it is finished. */
  lemma OwnOp(f0: Fs, c: Config, op: nat, w: Writer, r: Result)
    requires Inv(f0, c) && op in c.ops && c.ops[op] == Active(w) && Outcome(c.fs, w, r)
    ensures var c' := Stepped(c, op, r);
            && OpOk(f0, c', c'.ops[op]) && w.n < |c'.fs.inodes| == |f0.inodes|
            && (c'.ops[op].Finished? ==> AtRest(f0, c', w.n))
            && (c'.done == c.done || c'.done == c.done + [Tx(w.n, w.off, w.src)])
  {
    assert OpOk(f0, c, c.ops[op]);
    AfterOne(f0, c.done, Tx(w.n, w.off, w.src), w.n);
  }

  lemma SteppedApart(f0: Fs, c: Config, op: nat, w: Writer, r: Result, x: nat, y: nat)
    requires Inv(f0, c) && op in c.ops && c.ops[op] == Active(w) && Outcome(c.fs, w, r)
    requires x in c.ops && y in c.ops && x != y
    ensures Apart(Stepped(c, op, r).ops[x], Stepped(c, op, r).ops[y])
  {
    assert Apart(c.ops[x], c.ops[y]) && Apart(c.ops[y], c.ops[x]);
  }

  /** Another inode is held as before. */
  lemma StillHeld(c: Config, op: nat, w: Writer, r: Result, n: nat)
    requires op in c.ops && c.ops[op] == Active(w) && r.w.n == w.n && n != w.n
    ensures Held(Stepped(c, op, r), n) <==> Held(c, n)
  {
    var c' := Stepped(c, op, r);
    if Held(c, n) {
      var x :| x in c.ops && c.ops[x].Active? && c.ops[x].w.n == n;
      assert c'.ops[x] == c.ops[x];
    }
    if Held(c', n) {
      var x :| x in c'.ops && c'.ops[x].Active? && c'.ops[x].w.n == n;
      assert c.ops[x] == c'.ops[x];
    }
  }

  /** The state of one operation is replaced; the file system and the lock stay. */
  lemma OneOpKeepsInv(f0: Fs, c: Config, op: nat, st: Op)
    requires Inv(f0, c) && OpOk(f0, c, st)
    requires forall x <- c.ops :: x != op ==> Apart(st, c.ops[x]) && Apart(c.ops[x], st)
    requires op in c.ops && c.ops[op].Active? ==> st.Active? && st.w.n == c.ops[op].w.n
    ensures Inv(f0, c.(ops := c.ops[op := st]))
  {
    var c' := c.(ops := c.ops[op := st]);
    forall x <- c'.ops ensures OpOk(f0, c', c'.ops[x]) {
      assert x != op ==> OpOk(f0, c, c.ops[x]);
    }
    forall x <- c'.ops, y <- c'.ops | x != y ensures Apart(c'.ops[x], c'.ops[y]) {
      assert x != op && y != op ==> Apart(c.ops[x], c.ops[y]);
    }
    forall n | 0 <= n < |f0.inodes| && !Held(c', n) ensures AtRest(f0, c', n) {
      HeldKept(c, c', n);
      assert AtRest(f0, c, n);
    }
  }

  /** Who holds a lock still holds it. */
  lemma HeldKept(c: Config, c': Config, n: nat)
    requires forall x <- c.ops ::
               c.ops[x].Active? ==> x in c'.ops && c'.ops[x].Active? && c'.ops[x].w.n == c.ops[x].w.n
    ensures Held(c, n) ==> Held(c', n)
  {
  }

  /** `balloc` marks a block in the bitmap, which is then in the writer's hand. */
  lemma MarkKeepsInv(f0: Fs, c: Config, op: nat, w: Writer, b: nat)
    requires Inv(f0, c) && op in c.ops && c.ops[op] == Active(w) && FreeBlock(c, b)
    requires w.stage.Look? && w.o < w.End() && w.o / BSIZE < MAXFILE && Fits(c.fs, w) && Wanted(c.fs, w).Some?
    ensures var w' := Log(w.(stage := Got(b, Wanted(c.fs, w).value)), BitmapBlock(c.fs.sb, b));
            Inv(f0, c.(ops := c.ops[op := Active(w')]))
  {
    var w' := Log(w.(stage := Got(b, Wanted(c.fs, w).value)), BitmapBlock(c.fs.sb, b));
    assert OpOk(f0, c, c.ops[op]);
    assert c.fs.bitmap[0];
    MarkKeeps(c.fs, w, b);
    forall x <- c.ops | x != op ensures Apart(Active(w'), c.ops[x]) && Apart(c.ops[x], Active(w')) {
      assert Apart(c.ops[op], c.ops[x]);
    }
    OneOpKeepsInv(f0, c, op, Active(w'));
  }

  /** A write that has just taken the lock of a file at rest. */
  lemma StartOk(f0: Fs, c: Config, w: Writer)
    requires Inv(f0, c) && MayStart(c, w.n, w.off, w.src) && w == Started(c, w)
    ensures OpOk(f0, c, Active(w))
  {
    assert AtRest(f0, c, w.n);
    var size := c.fs.inodes[w.n].size;
    StartBlocks(w.off, |w.src|, size);
    assert MapOk(c.fs, w);
  }

  lemma StartBlocks(off: nat, len: nat, size: nat)
    requires off <= size <= MAXFILE * BSIZE && off + len <= MAXFILE * BSIZE
    ensures Max(BlocksFor(size), BlocksFor(off)) == BlocksFor(size) && BlocksFor(off + len) <= MAXFILE
  {
  }

  /** Operation op, which was waiting, is about to take its first step. */
  lemma StartKeepsInv(f0: Fs, c: Config, op: nat, w: Writer)
    requires Inv(f0, c) && op in c.ops && c.ops[op].Waiting? && MayStart(c, w.n, w.off, w.src) && w == Started(c, w)
    ensures Inv(f0, c.(ops := c.ops[op := Active(w)]))
  {
    StartOk(f0, c, w);
    OneOpKeepsInv(f0, c, op, Active(w));
  }

  lemma ActiveStepKeepsInv(f0: Fs, c: Config, op: nat, w: Writer, bno: nat, c': Config)
    requires Inv(f0, c) && op in c.ops && c.ops[op] == Active(w) && WriterStep(c, op, w, bno, c')
    ensures Inv(f0, c')
  {
    assert OpOk(f0, c, c.ops[op]);
    if w.stage.Look? && w.o < w.End() && Wanted(c.fs, w).Some? {
      MarkKeepsInv(f0, c, op, w, c'.ops[op].w.stage.b);
    } else {
      ProceedOutcome(c.fs, w);
      ProceedKeepsInv(f0, c, op, w, Proceed(c.fs, w));
    }
  }

  /** Every step of every operation keeps the invariant, however the operations interleave. */
  lemma OpStepKeepsInv(f0: Fs, c: Config, op: nat, bno: nat, c': Config)
    requires Inv(f0, c) && OpStep(c, op, bno, c')
    ensures Inv(f0, c')
  {
    if c.ops[op].Active? {
      ActiveStepKeepsInv(f0, c, op, c.ops[op].w, bno, c');
    } else {
      var w := Started(c, c'.ops[op].w);
      StartKeepsInv(f0, c, op, w);
      var c1 := c.(ops := c.ops[op := Active(w)]);
      FirstStep(f0, c, op, w, bno, c');
      ActiveStepKeepsInv(f0, c1, op, w, bno, c');
    }
  }

  lemma FirstStep(f0: Fs, c: Config, op: nat, w: Writer, bno: nat, c': Config)
    requires Inv(f0, c) && op in c.ops && c.ops[op].Waiting? && w.Hand() == 0 && WriterStep(c, op, w, bno, c')
    ensures WriterStep(c.(ops := c.ops[op := Active(w)]), op, w, bno, c')
  {
    var c1 := c.(ops := c.ops[op := Active(w)]);
    assert c.fs.bitmap[0];
    assert c1.ops[op := c'.ops[op]] == c.ops[op := c'.ops[op]];
  }

  lemma BeginKeepsInv(f0: Fs, c: Config, op: nat)
    requires Inv(f0, c) && op !in c.ops
    ensures Inv(f0, c.(ops := c.ops[op := Waiting]))
  {
    OneOpKeepsInv(f0, c, op, Waiting);
  }

  lemma EndKeepsInv(f0: Fs, c: Config, op: nat)
    requires Inv(f0, c) && op in c.ops && !c.ops[op].Active?
    ensures Inv(f0, c.(ops := c.ops - {op}))
  {
    var c' := c.(ops := c.ops - {op});
    forall x <- c'.ops ensures OpOk(f0, c', c'.ops[x]) {
      assert OpOk(f0, c, c.ops[x]);
    }
    forall x <- c'.ops, y <- c'.ops | x != y ensures Apart(c'.ops[x], c'.ops[y]) {
      assert Apart(c.ops[x], c.ops[y]);
    }
    forall n | 0 <= n < |f0.inodes| && !Held(c', n) ensures AtRest(f0, c', n) {
      EndHeld(c, op, n);
      assert AtRest(f0, c, n);
    }
  }

  lemma EndHeld(c: Config, op: nat, n: nat)
    requires op in c.ops && !c.ops[op].Active?
    ensures Held(c, n) ==> Held(c.(ops := c.ops - {op}), n)
  {
    HeldKept(c, c.(ops := c.ops - {op}), n);
  }

  /** A write gets to its end unless no block is free: it can always take its next step. */
  lemma WriterGoesOn(f0: Fs, c: Config, op: nat, w: Writer) returns (bno: nat, c': Config)
    requires Inv(f0, c) && op in c.ops && c.ops[op] == Active(w) && exists b :: FreeBlock(c, b)
    ensures OpStep(c, op, bno, c')
  {
    assert OpOk(f0, c, c.ops[op]);
    StepFits(c.fs, w);
    if w.stage.Look? && w.o < w.End() && Wanted(c.fs, w).Some? {
      var b :| FreeBlock(c, b);
      bno := BitmapBlock(c.fs.sb, b);
      c' := c.(ops := c.ops[op := Active(Log(w.(stage := Got(b, Wanted(c.fs, w).value)), bno))]);
    } else {
      var r := Proceed(c.fs, w);
      bno, c' := r.bno, Stepped(c, op, r);
    }
  }

  lemma StepFits(fs: Fs, w: Writer)
    requires Owned(fs) && WriterOk(fs, w)
    ensures Fits(fs, w)
  {
    match w.stage
    case Got(_, _) => ClearOutcome(fs, w);
    case Zeroed(_, _) => EnterOutcome(fs, w);
    case Look =>
      if w.o < w.End() {
        AtBlock(w);
        assert Slot(fs, w.n, DataSlot(w.o / BSIZE)) < fs.sb.size;
      }
  }
}
