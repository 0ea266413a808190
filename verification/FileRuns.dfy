/**
 Concurrent file writes on top of the log: what the disk holds after a crash at any
 moment of any run.
 */
module FileRuns {
  import opened Basics
  import opened FsLayout
  import opened FileOps
  import opened FileOpsInv
  import Bits = Bitmap
  import Disks = BlockStore
  import Inodes = DiskInode
  import Log
  import Runs = LogRuns
  import Safety = LogSafety
  import Space = LogSpace
  import Recovery
  import Steps = FileOpsSteps

  // ------------------------------------------------------------------
  // Blocks on disk

  /** Byte i of a little-endian word. */
  function ByteOf(w: nat, i: nat): (b: byte)
    requires i < 4
  {
    if i == 0 then w % 0x100 else if i == 1 then w / 0x100 % 0x100 else if i == 2 then w / 0x1_0000 % 0x100
    else w / 0x100_0000 % 0x100
  }

  /** The bytes of a block, which the log keeps as words. */
  function BytesOf(b: Disks.Block): (r: Block) {
    seq(512, i requires 0 <= i < 512 => ByteOf(b[i / 4], i % 4))
  }

  function WordsOf(r: Block): (b: Disks.Block) {
    seq(128, j requires 0 <= j < 128 => Word(r, j))
  }

  /** Every content of a block in bytes is that of a block in words. */
  lemma WordsAndBytes(r: Block)
    ensures BytesOf(WordsOf(r)) == r
  {
    var s := BytesOf(WordsOf(r));
    forall i | 0 <= i < 512 ensures s[i] == r[i] {
      var j := i / 4;
      assert 4 * j + i % 4 == i;
      BytesOfWord(r[4 * j], r[4 * j + 1], r[4 * j + 2], r[4 * j + 3]);
    }
  }

  lemma BytesOfWord(a: byte, b: byte, c: byte, d: byte)
    ensures var w := a + 0x100 * b + 0x1_0000 * c + 0x100_0000 * d;
            w >= 0 && ByteOf(w, 0) == a && ByteOf(w, 1) == b && ByteOf(w, 2) == c && ByteOf(w, 3) == d
  {
    var x: nat := c + 0x100 * d;
    var y: nat := b + 0x100 * x;
    var w: nat := a + 0x100 * y;
    LowByte(a, y);
    LowByte(b, x);
    LowByte(c, d);
    HighBytes(w);
  }

  lemma LowByte(a: byte, x: nat)
    ensures (a + 0x100 * x) % 0x100 == a && (a + 0x100 * x) / 0x100 == x
  {
  }

  lemma HighBytes(w: nat)
    ensures w / 0x1_0000 == w / 0x100 / 0x100 && w / 0x100_0000 == w / 0x100 / 0x100 / 0x100
  {
  }

  /** The bit of block b in a block of the bitmap. */
  predicate BitIn(r: Block, b: nat) {
    r[b % BPB / 8] / Bits.Pow2(b % 8) % 2 == 1
  }

  /** The operation has block b in hand. */
  predicate Holds(op: Op, b: nat) {
    op.Active? && !op.w.stage.Look? && op.w.stage.b == b
  }

  ghost predicate InHand(c: Config, b: nat) {
    exists op :: op in c.ops && Holds(c.ops[op], b)
  }

  /** Block b is marked in the bitmap. */
  ghost predicate Marked(c: Config, b: nat)
    requires b < |c.fs.bitmap|
  {
    c.fs.bitmap[b] || InHand(c, b)
  }

  /** What the file system keeps in block bno is r: a data block, bits, or inodes. */
  ghost predicate BlockShows(r: Block, bno: nat, c: Config) {
    && WellFormed(c.fs)
    && (c.fs.sb.nmeta <= bno < c.fs.sb.size ==> r == c.fs.blocks[bno])
    && (forall b :: 0 <= b < c.fs.sb.size && BitmapBlock(c.fs.sb, b) == bno ==> BitIn(r, b) == Marked(c, b))
    && (forall n :: 0 <= n < |c.fs.dinodes| && InodeBlock(c.fs.sb, n) == bno ==>
          Inodes.GetInode(r, n % IPB) == c.fs.dinodes[n])
  }

  ghost predicate DiskShows(d: Disks.Disk, c: Config) {
    && WellFormed(c.fs) && |d| == c.fs.sb.size
    && forall bno :: 0 <= bno < |d| ==> BlockShows(BytesOf(d[bno]), bno, c)
  }

  /** The disk holds the file system fs. */
  ghost predicate Decodes(d: Disks.Disk, fs: Fs) {
    DiskShows(d, Config(fs, map[], []))
  }

  /** The log area, the inodes, the bitmap and the data blocks follow each other. */
  predicate Laid(l: Recovery.Layout, fs: Fs) {
    && l.start + l.size <= fs.sb.inodestart <= fs.sb.bmapstart
    && (forall n :: 0 <= n < |fs.inodes| ==> InodeBlock(fs.sb, n) < fs.sb.bmapstart)
    && (forall b :: 0 <= b < fs.sb.size ==> BitmapBlock(fs.sb, b) < fs.sb.nmeta <= fs.sb.size)
  }

  // ------------------------------------------------------------------
  // A step changes the block that it logs, and no other

  ghost predicate Changes(c: Config, c': Config, bno: nat) {
    && WellFormed(c.fs) && WellFormed(c'.fs) && c'.fs.sb == c.fs.sb && |c'.fs.inodes| == |c.fs.inodes|
    && (forall x :: 0 <= x < c.fs.sb.size && x != bno ==> c'.fs.blocks[x] == c.fs.blocks[x])
    && (forall b :: 0 <= b < c.fs.sb.size && BitmapBlock(c.fs.sb, b) != bno ==> Marked(c', b) == Marked(c, b))
    && (forall n :: 0 <= n < |c.fs.dinodes| && InodeBlock(c.fs.sb, n) != bno ==> c'.fs.dinodes[n] == c.fs.dinodes[n])
  }

  /** An operation other than op has block b in hand. */
  ghost predicate OtherHand(c: Config, op: nat, b: nat) {
    exists x :: x in c.ops && x != op && Holds(c.ops[x], b)
  }

  lemma HandSplit(c: Config, op: nat, b: nat)
    requires op in c.ops
    ensures InHand(c, b) <==> Holds(c.ops[op], b) || OtherHand(c, op, b)
  {
  }

  lemma SameOthers(c: Config, c': Config, op: nat, b: nat)
    requires op in c.ops && op in c'.ops && c'.ops == c.ops[op := c'.ops[op]]
    ensures OtherHand(c', op, b) <==> OtherHand(c, op, b)
  {
    if OtherHand(c, op, b) {
      var x :| x in c.ops && x != op && Holds(c.ops[x], b);
      assert c'.ops[x] == c.ops[x];
    }
    if OtherHand(c', op, b) {
      var x :| x in c'.ops && x != op && Holds(c'.ops[x], b);
      assert c.ops[x] == c'.ops[x];
    }
  }

  /** Only what operation op does to block b matters. */
  lemma MarkedAfter(c: Config, c': Config, op: nat, b: nat)
    requires WellFormed(c.fs) && WellFormed(c'.fs) && c'.fs.sb == c.fs.sb && b < c.fs.sb.size
    requires op in c.ops && op in c'.ops && c'.ops == c.ops[op := c'.ops[op]]
    requires c'.fs.bitmap[b] || Holds(c'.ops[op], b) <==> c.fs.bitmap[b] || Holds(c.ops[op], b)
    ensures Marked(c', b) == Marked(c, b)
  {
    HandSplit(c, op, b);
    HandSplit(c', op, b);
    SameOthers(c, c', op, b);
  }

  /** A step of a writer that has a block in hand, or is copying bytes or updating the inode. */
  lemma ProceedChanges(c: Config, op: nat, w: Writer, r: Result)
    requires op in c.ops && c.ops[op] == Active(w) && Owned(c.fs) && Steps.WriterOk(c.fs, w) && Fits(c.fs, w)
    requires (w.stage.Look? && w.o < w.End() ==> Wanted(c.fs, w).None?) && r == Proceed(c.fs, w)
    ensures Changes(c, Stepped(c, op, r), r.bno)
  {
    var c' := Stepped(c, op, r);
    ProceedFields(c.fs, w, r);
    forall b | 0 <= b < c.fs.sb.size ensures Marked(c', b) == Marked(c, b) {
      MarkedAfter(c, c', op, b);
    }
  }

  /** One block or one inode changes, and the block in hand stays marked when it is put into the file. */
  lemma ProceedFields(fs: Fs, w: Writer, r: Result)
    requires Owned(fs) && Steps.WriterOk(fs, w) && Fits(fs, w)
    requires (w.stage.Look? && w.o < w.End() ==> Wanted(fs, w).None?) && r == Proceed(fs, w)
    ensures WellFormed(r.fs) && r.fs.sb == fs.sb && |r.fs.inodes| == |fs.inodes|
    ensures forall x :: 0 <= x < fs.sb.size && x != r.bno ==> r.fs.blocks[x] == fs.blocks[x]
    ensures forall n :: 0 <= n < |fs.dinodes| && InodeBlock(fs.sb, n) != r.bno ==> r.fs.dinodes[n] == fs.dinodes[n]
    ensures forall b :: 0 <= b < fs.sb.size ==>
              (r.fs.bitmap[b] || Holds(Active(r.w), b) <==> fs.bitmap[b] || Holds(Active(w), b))
    ensures Complete(r.fs, r.w) ==> r.w.stage.Look?
  {
    match w.stage
    case Got(b, k) =>
    case Zeroed(b, k) => Steps.EnterIs(fs, w);
    case Look =>
  }

  lemma MarkChanges(c: Config, op: nat, w: Writer, b: nat, w': Writer)
    requires op in c.ops && c.ops[op] == Active(w) && WellFormed(c.fs) && w.stage.Look? && b < c.fs.sb.size
    requires w'.stage.Got? && w'.stage.b == b
    ensures Changes(c, c.(ops := c.ops[op := Active(w')]), BitmapBlock(c.fs.sb, b))
  {
    var c' := c.(ops := c.ops[op := Active(w')]);
    forall x | 0 <= x < c.fs.sb.size && BitmapBlock(c.fs.sb, x) != BitmapBlock(c.fs.sb, b)
      ensures Marked(c', x) == Marked(c, x)
    {
      MarkedAfter(c, c', op, x);
    }
  }

  lemma ActiveStepChanges(f0: Fs, c: Config, op: nat, w: Writer, bno: nat, c': Config)
    requires Inv(f0, c) && op in c.ops && c.ops[op] == Active(w) && WriterStep(c, op, w, bno, c')
    ensures Changes(c, c', bno)
  {
    assert OpOk(f0, c, c.ops[op]);
    if w.stage.Look? && w.o < w.End() && Wanted(c.fs, w).Some? {
      MarkChanges(c, op, w, c'.ops[op].w.stage.b, c'.ops[op].w);
    } else {
      ProceedChanges(c, op, w, Proceed(c.fs, w));
    }
  }

  lemma StepChanges(f0: Fs, c: Config, op: nat, bno: nat, c': Config)
    requires Inv(f0, c) && OpStep(c, op, bno, c')
    ensures Changes(c, c', bno)
  {
    if c.ops[op].Active? {
      ActiveStepChanges(f0, c, op, c.ops[op].w, bno, c');
    } else {
      var w := Started(c, c'.ops[op].w);
      var c1 := c.(ops := c.ops[op := Active(w)]);
      StartKeepsInv(f0, c, op, w);
      FirstStep(f0, c, op, w, bno, c');
      ActiveStepChanges(f0, c1, op, w, bno, c');
      forall b | 0 <= b < c.fs.sb.size ensures Marked(c1, b) == Marked(c, b) {
        MarkedAfter(c, c1, op, b);
      }
    }
  }

  /** Logging the block brings the disk up to date. */
  lemma StepShows(f0: Fs, d: Disks.Disk, c: Config, op: nat, bno: nat, v: Disks.Block, c': Config)
    requires Inv(f0, c) && DiskShows(d, c) && OpStep(c, op, bno, c') && BlockShows(BytesOf(v), bno, c')
    ensures DiskShows(Disks.Put(d, Disks.Write(bno, v)), c')
  {
    StepChanges(f0, c, op, bno, c');
    var d' := Disks.Put(d, Disks.Write(bno, v));
    forall x | 0 <= x < |d'| ensures BlockShows(BytesOf(d'[x]), x, c') {
      if x != bno {
        assert BlockShows(BytesOf(d[x]), x, c);
      }
    }
  }

  // ------------------------------------------------------------------
  // Histories of file writes

  /** What one call of the logging interface means for the file system. */
  ghost predicate EventStep(c: Config, e: Runs.Event, c': Config) {
    match e
    case Begin(op) => op !in c.ops && c' == c.(ops := c.ops[op := Waiting])
    case LogWrite(op, b, v) => OpStep(c, op, b, c') && BlockShows(BytesOf(v), b, c')
    case End(op) => op in c.ops && !c.ops[op].Active? && c' == c.(ops := c.ops - {op})
  }

  /** The operations of history h are file writes; cs are the configurations they go through. */
  ghost predicate IsFileRun(f0: Fs, h: Runs.History, cs: seq<Config>) {
    && |cs| == |h| + 1 && cs[0] == Config(f0, map[], [])
    && forall i {:trigger h[i]} :: 0 <= i < |h| ==> EventStep(cs[i], h[i], cs[i + 1])
  }

  ghost predicate OnlyWrites(f0: Fs, h: Runs.History) {
    exists cs: seq<Config> :: IsFileRun(f0, h, cs)
  }

  lemma EventKeepsInv(f0: Fs, c: Config, e: Runs.Event, c': Config)
    requires Inv(f0, c) && EventStep(c, e, c')
    ensures Inv(f0, c')
  {
    match e
    case Begin(op) => BeginKeepsInv(f0, c, op);
    case LogWrite(op, b, v) => OpStepKeepsInv(f0, c, op, b, c');
    case End(op) => EndKeepsInv(f0, c, op);
  }

  lemma {:induction false} FileRunKeepsInv(f0: Fs, h: Runs.History, cs: seq<Config>, i: nat)
    requires Consistent(f0) && IsFileRun(f0, h, cs) && i <= |h|
    ensures Inv(f0, cs[i])
  {
    if i == 0 {
      Initially(f0);
    } else {
      FileRunKeepsInv(f0, h, cs, i - 1);
      StepOfRun(f0, h, cs, i);
      EventKeepsInv(f0, cs[i - 1], h[i - 1], cs[i]);
    }
  }

  lemma StepOfRun(f0: Fs, h: Runs.History, cs: seq<Config>, i: nat)
    requires IsFileRun(f0, h, cs) && 0 < i <= |h|
    ensures EventStep(cs[i - 1], h[i - 1], cs[i])
  {
  }

  /** Completed writes stay completed. */
  lemma {:induction false} DoneGrows(f0: Fs, h: Runs.History, cs: seq<Config>, i: nat, j: nat)
    requires IsFileRun(f0, h, cs) && i <= j <= |h|
    ensures cs[i].done <= cs[j].done
    decreases j
  {
    if i < j {
      DoneGrows(f0, h, cs, i, j - 1);
      DoneNext(f0, h, cs, j);
    }
  }

  lemma DoneNext(f0: Fs, h: Runs.History, cs: seq<Config>, j: nat)
    requires IsFileRun(f0, h, cs) && 0 < j <= |h|
    ensures cs[j - 1].done <= cs[j].done
  {
    StepOfRun(f0, h, cs, j);
  }

  // ------------------------------------------------------------------
  // Each write stays within its reservation

  function LoggedBy(op: Op): (s: set<nat>) {
    if op.Waiting? then {} else op.w.logged
  }

  /** The history records exactly the blocks that operation op has logged, and they are at most ten. */
  ghost predicate RecordedOp(h: Runs.History, c: Config, op: nat) {
    && (op in c.ops ==> Space.Blocks(h, op) == LoggedBy(c.ops[op]))
    && |Space.Blocks(h, op)| <= Log.MAXOPBLOCKS
  }

  ghost predicate Recorded(h: Runs.History, c: Config) {
    && c.ops.Keys == Runs.OpenOps(h)
    && forall op: nat {:trigger RecordedOp(h, c, op)} :: RecordedOp(h, c, op)
  }

  lemma OpBound(f0: Fs, c: Config, op: nat)
    requires Inv(f0, c) && op in c.ops
    ensures |LoggedBy(c.ops[op])| <= 10
  {
    assert OpOk(f0, c, c.ops[op]);
    if c.ops[op].Active? {
      LoggedBound(c.fs, c.ops[op].w);
    }
  }

  lemma StepLogs(c: Config, op: nat, bno: nat, c': Config)
    requires OpStep(c, op, bno, c')
    ensures c'.ops.Keys == c.ops.Keys && LoggedBy(c'.ops[op]) == LoggedBy(c.ops[op]) + {bno}
    ensures forall x <- c.ops :: x != op ==> c'.ops[x] == c.ops[x]
  {
  }

  lemma EventRecorded(f0: Fs, h: Runs.History, c: Config, e: Runs.Event, c': Config)
    requires Recorded(h, c) && EventStep(c, e, c') && Inv(f0, c') && Runs.Allowed(h, e)
    ensures Recorded(h + [e], c')
  {
    Runs.SnocHistory([], h, e);
    if e.LogWrite? {
      StepLogs(c, e.op, e.bno, c');
    }
    forall x: nat ensures RecordedOp(h + [e], c', x) {
      EventRecordsOp(f0, h, c, e, c', x);
    }
  }

  lemma EventRecordsOp(f0: Fs, h: Runs.History, c: Config, e: Runs.Event, c': Config, x: nat)
    requires RecordedOp(h, c, x) && EventStep(c, e, c') && Inv(f0, c') && Runs.Allowed(h, e)
    ensures RecordedOp(h + [e], c', x)
  {
    Space.BlocksSnoc(h, e, x);
    if e.LogWrite? {
      StepLogs(c, e.op, e.bno, c');
      OpBound(f0, c', e.op);
    } else if e.Begin? {
      Space.FreshHasNoBlocks(h, e.op);
    }
  }

  lemma {:induction false} FileRunRecorded(f0: Fs, h: Runs.History, cs: seq<Config>, i: nat)
    requires Consistent(f0) && IsFileRun(f0, h, cs) && Runs.WellFormed(h) && i <= |h|
    ensures Recorded(h[..i], cs[i])
  {
    if i == 0 {
      forall op: nat ensures RecordedOp(h[..0], cs[0], op) {
      }
    } else {
      FileRunRecorded(f0, h, cs, i - 1);
      FileRunKeepsInv(f0, h, cs, i);
      StepOfRun(f0, h, cs, i);
      RecordedNext(f0, h, cs[i - 1], cs[i], i);
    }
  }

  lemma RecordedNext(f0: Fs, h: Runs.History, c: Config, c': Config, i: nat)
    requires 0 < i <= |h| && Runs.WellFormed(h) && Recorded(h[..i - 1], c) && EventStep(c, h[i - 1], c') && Inv(f0, c')
    ensures Recorded(h[..i], c')
  {
    AllowedAt(h, i);
    EventRecorded(f0, h[..i - 1], c, h[i - 1], c');
  }

  lemma AllowedAt(h: Runs.History, i: nat)
    requires Runs.WellFormed(h) && 0 < i <= |h|
    ensures h[..i] == h[..i - 1] + [h[i - 1]] && Runs.Allowed(h[..i - 1], h[i - 1])
  {
    Runs.WellFormedPrefix(h, i);
    assert h[..i][..i - 1] == h[..i - 1];
  }

  /** Operations that are file writes stay within their reservations, however they interleave. */
  lemma WritesAreBounded(f0: Fs, h: Runs.History)
    requires Consistent(f0) && OnlyWrites(f0, h) && Runs.WellFormed(h)
    ensures Space.Bounded(h)
  {
    var cs: seq<Config> :| IsFileRun(f0, h, cs);
    FileRunRecorded(f0, h, cs, |h|);
    assert h[..|h|] == h;
    forall op: nat ensures |Space.Blocks(h, op)| <= Log.MAXOPBLOCKS {
      assert RecordedOp(h, cs[|h|], op);
    }
  }

  lemma RunIsBounded(l: Recovery.Layout, d0: Disks.Disk, f0: Fs, states: seq<Runs.State>, labels: seq<Runs.Label>)
    requires Consistent(f0) && Runs.IsRun(l, d0, states, labels)
    requires forall i :: 0 <= i < |states| ==> OnlyWrites(f0, states[i].hist)
    ensures Space.IsBoundedRun(l, d0, states, labels)
  {
    forall i | 0 <= i < |states| ensures Space.Bounded(states[i].hist) {
      Runs.RunKeepsHistory(l, d0, states, labels, i);
      WritesAreBounded(f0, states[i].hist);
    }
  }

  /**
   In a run whose operations are file writes, on a log area of more than LOGSIZE blocks,
   every new block that a write goes on to log passes the tests of `log_write`.
   */
  lemma WritesFit(l: Recovery.Layout, d0: Disks.Disk, f0: Fs, states: seq<Runs.State>, labels: seq<Runs.Label>,
                  op: nat, b: nat, v: Disks.Block)
    requires Consistent(f0) && Runs.IsRun(l, d0, states, labels)
    requires forall i :: 0 <= i < |states| ==> OnlyWrites(f0, states[i].hist)
    requires OnlyWrites(f0, states[|labels|].hist + [Runs.LogWrite(op, b, v)])
    requires op in Runs.OpenOps(states[|labels|].hist)
    requires op !in states[|labels|].sized && op !in states[|labels|].passed
    requires b < |states[|labels|].store.disk| && !Recovery.InLog(l, b) && b !in states[|labels|].lh
    ensures |states[|labels|].lh| < Recovery.LOGSIZE
    ensures l.size > Recovery.LOGSIZE ==> !Log.TooBig(l, |states[|labels|].lh|)
  {
    var s := states[|labels|];
    RunIsBounded(l, d0, f0, states, labels);
    Runs.RunKeepsHistory(l, d0, states, labels, |labels|);
    Runs.SnocHistory([], s.hist, Runs.LogWrite(op, b, v));
    WritesAreBounded(f0, s.hist + [Runs.LogWrite(op, b, v)]);
    Space.BlocksSnoc(s.hist, Runs.LogWrite(op, b, v), op);
    Space.NewEntryFits(l, d0, states, labels, op, b);
  }

  // ------------------------------------------------------------------
  // Crashes

  lemma EventShows(f0: Fs, d: Disks.Disk, c: Config, e: Runs.Event, c': Config)
    requires Inv(f0, c) && DiskShows(d, c) && EventStep(c, e, c')
    ensures DiskShows(if e.LogWrite? then Disks.Put(d, Disks.Write(e.bno, e.data)) else d, c')
  {
    match e
    case Begin(op) => SameMarks(c, c');
    case LogWrite(op, b, v) => StepShows(f0, d, c, op, b, v, c');
    case End(op) => SameMarks(c, c');
  }

  lemma SameMarks(c: Config, c': Config)
    requires WellFormed(c.fs) && c'.fs == c.fs
    requires forall x <- c.ops :: c.ops[x].Active? ==> x in c'.ops && c'.ops[x] == c.ops[x]
    requires forall x <- c'.ops :: c'.ops[x].Active? ==> x in c.ops && c'.ops[x] == c.ops[x]
    ensures forall b :: 0 <= b < c.fs.sb.size ==> Marked(c', b) == Marked(c, b)
  {
  }

  lemma {:induction false} FileRunShows(d0: Disks.Disk, f0: Fs, h: Runs.History, cs: seq<Config>, i: nat)
    requires Consistent(f0) && Decodes(d0, f0) && IsFileRun(f0, h, cs) && i <= |h|
    ensures DiskShows(Runs.Replay(d0, h[..i]), cs[i])
  {
    if i > 0 {
      FileRunShows(d0, f0, h, cs, i - 1);
      FileRunKeepsInv(f0, h, cs, i - 1);
      StepOfRun(f0, h, cs, i);
      ShowsNext(d0, f0, h, cs[i - 1], cs[i], i);
    }
  }

  lemma ShowsNext(d0: Disks.Disk, f0: Fs, h: Runs.History, c: Config, c': Config, i: nat)
    requires 0 < i <= |h| && Inv(f0, c) && DiskShows(Runs.Replay(d0, h[..i - 1]), c) && EventStep(c, h[i - 1], c')
    ensures DiskShows(Runs.Replay(d0, h[..i]), c')
  {
    assert h[..i] == h[..i - 1] + [h[i - 1]];
    Runs.SnocHistory(d0, h[..i - 1], h[i - 1]);
    EventShows(f0, Runs.Replay(d0, h[..i - 1]), c, h[i - 1], c');
  }

  /** The file system is in the home blocks alone. */
  lemma HomeShows(l: Recovery.Layout, d: Disks.Disk, r: Disks.Disk, c: Config)
    requires DiskShows(d, c) && Laid(l, c.fs) && Recovery.SameHome(l, r, d)
    ensures DiskShows(r, c)
  {
    forall bno | 0 <= bno < |r| ensures BlockShows(BytesOf(r[bno]), bno, c) {
      assert BlockShows(BytesOf(d[bno]), bno, c);
      if Recovery.InLog(l, bno) {
        InLogShows(l, BytesOf(r[bno]), bno, c);
      } else {
        assert r[bno] == d[bno];
      }
    }
  }

  lemma InLogShows(l: Recovery.Layout, r: Block, bno: nat, c: Config)
    requires WellFormed(c.fs) && Laid(l, c.fs) && Recovery.InLog(l, bno)
    ensures BlockShows(r, bno, c)
  {
    assert BitmapBlock(c.fs.sb, 0) < c.fs.sb.nmeta;
  }

  /**
   Crash consistency.  In a run whose operations are file writes, at every moment, a
   crash followed by any number of interrupted recoveries leaves a disk that holds a
   consistent file system.  Its files have the content that a prefix of the completed
   writes gives them, each write whole, and that prefix contains every operation that
   was durable at this or any earlier moment.  The log area has room for the commits,
   which have fewer than `cap` entries: all runs are included with LOGSIZE + 1, and with
   NBUF those in which the buffer cache has room for every commit.
   */
  lemma CrashConsistency(l: Recovery.Layout, d0: Disks.Disk, f0: Fs, cap: nat, states: seq<Runs.State>,
                         labels: seq<Runs.Label>, i: nat, cuts: seq<nat>, cs: seq<Config>)
    requires Recovery.EmptyLog(l, d0) && Safety.SafeSize(l, cap)
    requires Consistent(f0) && Decodes(d0, f0) && Laid(l, f0)
    requires Runs.IsRun(l, d0, states, labels) && forall j :: 0 <= j < |states| ==> OnlyWrites(f0, states[j].hist)
    requires Space.AllBelow(cap, states, labels)
    requires i < |states| && IsFileRun(f0, states[i].hist, cs)
    ensures Recovery.GoodDisk(l, states[i].store.disk)
    ensures var (s, k) := (states[i], Runs.CommitPoint(states[i]));
            && k <= |s.hist| && Runs.WholeOps(s.hist, k) && (forall j :: 0 <= j <= i ==> states[j].durable <= k)
            && Consistent(cs[k].fs) && cs[k].done <= cs[|s.hist|].done
            && Decodes(Recovery.RecoverThroughCrashes(l, s.store.disk, cuts), cs[k].fs)
            && |cs[k].fs.inodes| == |f0.inodes|
            && forall n :: 0 <= n < |f0.inodes| ==> HoldsWrites(f0, cs[k], n)
  {
    var (s, k) := (states[i], Runs.CommitPoint(states[i]));
    RunIsBounded(l, d0, f0, states, labels);
    Safety.GroupCommit(l, d0, cap, states, labels, i, cuts);
    Runs.RunKeepsHistory(l, d0, states, labels, i);
    Runs.CommitPointIsQuiet(s);
    QuietPrefix(d0, f0, s.hist, cs, k);
    DoneGrows(f0, s.hist, cs, k, |s.hist|);
    QuietShows(l, Runs.Replay(d0, s.hist[..k]), Recovery.RecoverThroughCrashes(l, s.store.disk, cuts), f0, cs[k]);
  }

  /** File n has the content that the completed writes give it. */
  ghost predicate HoldsWrites(f0: Fs, c: Config, n: nat) {
    && Consistent(f0) && n < |f0.inodes| == |c.fs.inodes| && WellFormed(c.fs)
    && f0.inodes[n].size <= MAXFILE * BSIZE && c.fs.inodes[n].size <= MAXFILE * BSIZE
    && Content(c.fs, n) == After(f0, c.done, n)
  }

  lemma QuietPrefix(d0: Disks.Disk, f0: Fs, h: Runs.History, cs: seq<Config>, k: nat)
    requires Consistent(f0) && Decodes(d0, f0) && IsFileRun(f0, h, cs) && Runs.WellFormed(h) && k <= |h|
    requires Runs.OpenOps(h[..k]) == {}
    ensures Inv(f0, cs[k]) && cs[k].ops == map[] && DiskShows(Runs.Replay(d0, h[..k]), cs[k])
  {
    FileRunKeepsInv(f0, h, cs, k);
    FileRunRecorded(f0, h, cs, k);
    FileRunShows(d0, f0, h, cs, k);
  }

  lemma QuietShows(l: Recovery.Layout, d: Disks.Disk, r: Disks.Disk, f0: Fs, c: Config)
    requires Inv(f0, c) && c.ops == map[] && DiskShows(d, c) && Laid(l, f0) && Recovery.SameHome(l, r, d)
    ensures Consistent(c.fs) && Decodes(r, c.fs) && |c.fs.inodes| == |f0.inodes|
    ensures forall n :: 0 <= n < |f0.inodes| ==> HoldsWrites(f0, c, n)
  {
    QuietIsConsistent(f0, c);
    HomeShows(l, d, r, c);
    SameMarks(c, Config(c.fs, map[], []));
  }
}
