/**
 File writes of many processes at once.  Each holds the lock of its inode, but they
 share the bitmap, and their steps interleave: a step changes one block and logs it.
 fs is the file system with the blocks that are in use; a block that a write has marked
 in the bitmap but not yet put into its inode is in the hand of that write.
 */
module FileOps {
  import opened Basics
  import opened FsLayout
  import opened FsSteps
  import F = FileSystem

  /**
   Look: the next file block is about to be looked up.  Got: block b is marked in the
   bitmap for slot k of the inode.  Zeroed: it is also cleared.
   */
  datatype Stage = Look | Got(b: nat, k: nat) | Zeroed(b: nat, k: nat)

  /** A call of `writei` that has written up to offset o; start is the file system when it took the lock. */
  datatype Writer = Writer(n: nat, off: nat, src: seq<byte>, start: Fs, o: nat, stage: Stage, logged: set<nat>) {

    function End(): (e: nat) {
      off + |src|
    }

    /** The block in hand; block 0 stands for none. */
    function Hand(): (b: nat) {
      if stage.Look? then 0 else stage.b
    }
  }

  /** An operation before it takes the lock, while it holds it, and when it has released it. */
  datatype Op = Waiting | Active(w: Writer) | Finished(w: Writer)

  /** A completed write. */
  datatype Tx = Tx(n: nat, off: nat, src: seq<byte>)

  datatype Config = Config(fs: Fs, ops: map<nat, Op>, done: seq<Tx>)

  // ------------------------------------------------------------------
  // Steps

  /** The slot that `bmap` has to fill before offset o can be written. */
  function Wanted(fs: Fs, w: Writer): (k: Option<nat>)
    requires WellFormed(fs) && w.n < |fs.inodes| && w.o / BSIZE < MAXFILE
  {
    var k := DataSlot(w.o / BSIZE);
    if k > NDIRECT && Slot(fs, w.n, NDIRECT) == 0 then Some(NDIRECT)
    else if Slot(fs, w.n, k) == 0 then Some(k)
    else None
  }

  /** What a step makes of the file system and the writer, and the block that it logs. */
  datatype Result = Result(fs: Fs, w: Writer, bno: nat)

  /** A slot and a block that the file system has. */
  predicate Fits(fs: Fs, w: Writer) {
    && WellFormed(fs) && w.n < |fs.inodes| && w.off <= w.o <= w.End() <= MAXFILE * BSIZE
    && match w.stage
       case Look => w.o < w.End() && Wanted(fs, w).None? ==> Slot(fs, w.n, DataSlot(w.o / BSIZE)) < fs.sb.size
       case Got(b, k) => b < fs.sb.size && k < NSLOTS
       case Zeroed(b, k) => b < fs.sb.size && NDIRECT < k < NSLOTS && 0 < Slot(fs, w.n, NDIRECT) < fs.sb.size
  }

  /** `bzero` and, for an address in the inode, the assignment that follows in `bmap`. */
  function Clear(fs: Fs, w: Writer): (r: Result)
    requires Fits(fs, w) && w.stage.Got?
  {
    var (b, k) := (w.stage.b, w.stage.k);
    if k <= NDIRECT then Result(SetAddr(Alloc(fs, b), w.n, k, b), w.(stage := Look), b)
    else Result(fs.(blocks := fs.blocks[b := Zero()]), w.(stage := Zeroed(b, k)), b)
  }

  /** The new entry of the indirect block. */
  function Enter(fs: Fs, w: Writer): (r: Result)
    requires Fits(fs, w) && w.stage.Zeroed?
  {
    var (b, k) := (w.stage.b, w.stage.k);
    Result(SetEntry(Alloc(fs, b), w.n, k - NDIRECT - 1, b), w.(stage := Look), Slot(fs, w.n, NDIRECT))
  }

  /** The bytes of one file block. */
  function Copy(fs: Fs, w: Writer): (r: Result)
    requires Fits(fs, w) && w.stage.Look? && w.o < w.End() && Wanted(fs, w).None?
  {
    var (a, m) := (Slot(fs, w.n, DataSlot(w.o / BSIZE)), Chunk(w.o, w.End()));
    Result(PutBytes(fs, a, w.o % BSIZE, w.src[w.o - w.off..w.o - w.off + m]), w.(o := w.o + m), a)
  }

  /** The new size and `iupdate`. */
  function Update(fs: Fs, w: Writer): (r: Result)
    requires Fits(fs, w) && w.stage.Look? && w.o == w.End()
  {
    Result(F.Resized(fs, w.n, w.End()), w, InodeBlock(fs.sb, w.n))
  }

  function Proceed(fs: Fs, w: Writer): (r: Result)
    requires Fits(fs, w) && (w.stage.Look? && w.o < w.End() ==> Wanted(fs, w).None?)
  {
    match w.stage
    case Got(_, _) => Clear(fs, w)
    case Zeroed(_, _) => Enter(fs, w)
    case Look => if w.o < w.End() then Copy(fs, w) else Update(fs, w)
  }

  /** `balloc` may take any block that is neither in use nor in a hand. */
  predicate FreeBlock(c: Config, b: nat) {
    && WellFormed(c.fs) && b < c.fs.sb.size && !c.fs.bitmap[b]
    && forall op <- c.ops :: c.ops[op].Active? ==> c.ops[op].w.Hand() != b
  }

  function Log(w: Writer, bno: nat): (w': Writer) {
    w.(logged := w.logged + {bno})
  }

  /** All is written and the size is up to date. */
  predicate Complete(fs: Fs, w: Writer) {
    w.n < |fs.inodes| && w.stage.Look? && w.o == w.End() <= fs.inodes[w.n].size
  }

  /** The operation goes on, or it is finished and releases the lock. */
  function Stepped(c: Config, op: nat, r: Result): (c': Config) {
    var w := Log(r.w, r.bno);
    if Complete(r.fs, w) then Config(r.fs, c.ops[op := Finished(w)], c.done + [Tx(w.n, w.off, w.src)])
    else Config(r.fs, c.ops[op := Active(w)], c.done)
  }

  /** The writer w of operation op takes a step that logs block bno. */
  predicate WriterStep(c: Config, op: nat, w: Writer, bno: nat, c': Config) {
    && Fits(c.fs, w)
    && if w.stage.Look? && w.o < w.End() && Wanted(c.fs, w).Some? then
         && op in c'.ops && c'.ops[op].Active? && c'.ops[op].w.stage.Got?
         && var b := c'.ops[op].w.stage.b;
            && FreeBlock(c, b) && bno == BitmapBlock(c.fs.sb, b)
            && c' == c.(ops := c.ops[op := Active(Log(w.(stage := Got(b, Wanted(c.fs, w).value)), bno))])
       else
         var r := Proceed(c.fs, w);
         bno == r.bno && c' == Stepped(c, op, r)
  }

  /** Inode n is locked. */
  predicate Held(c: Config, n: nat) {
    exists op :: op in c.ops && c.ops[op].Active? && c.ops[op].w.n == n
  }

  /** The part of a file that one transaction writes, after the lock is taken and the tests of `writei` are passed. */
  predicate MayStart(c: Config, n: nat, off: nat, src: seq<byte>) {
    && n < |c.fs.inodes| && !Held(c, n)
    && 0 < |src| <= 3 * BSIZE && off <= c.fs.inodes[n].size && off + |src| <= MAXFILE * BSIZE
  }

  function Started(c: Config, w: Writer): (w': Writer) {
    Writer(w.n, w.off, w.src, c.fs, w.off, Look, {})
  }

  /** Operation op takes the lock, if it has not got it, and makes a step that logs block bno. */
  predicate OpStep(c: Config, op: nat, bno: nat, c': Config) {
    && op in c.ops && op in c'.ops && !c.ops[op].Finished? && !c'.ops[op].Waiting?
    && if c.ops[op].Active? then WriterStep(c, op, c.ops[op].w, bno, c')
       else
         var w := Started(c, c'.ops[op].w);
         MayStart(c, w.n, w.off, w.src) && WriterStep(c, op, w, bno, c')
  }

  // ------------------------------------------------------------------
  // The blocks that a write logs

  /** Slot k of the inode, with the block in hand where it belongs. */
  function SlotOrHand(fs: Fs, w: Writer, k: nat): (b: nat)
    requires WellFormed(fs) && w.n < |fs.inodes| && k < NSLOTS
  {
    if !w.stage.Look? && w.stage.k == k then w.stage.b else Slot(fs, w.n, k)
  }

  /** The data blocks of the file blocks lo to hi. */
  function DataSet(fs: Fs, w: Writer, lo: nat, hi: nat): (s: set<nat>)
    requires WellFormed(fs) && w.n < |fs.inodes| && hi <= MAXFILE
  {
    if hi <= lo then {}
    else
      var b := SlotOrHand(fs, w, DataSlot(hi - 1));
      DataSet(fs, w, lo, hi - 1) + if b == 0 then {} else {b}
  }

  /** The bitmap blocks of the data blocks of the file blocks lo to hi. */
  function BitSet(fs: Fs, w: Writer, lo: nat, hi: nat): (s: set<nat>)
    requires WellFormed(fs) && w.n < |fs.inodes| && hi <= MAXFILE
  {
    if hi <= lo then {}
    else
      var b := SlotOrHand(fs, w, DataSlot(hi - 1));
      BitSet(fs, w, lo, hi - 1) + if b == 0 then {} else {BitmapBlock(fs.sb, b)}
  }

  /** The indirect block and its bitmap block. */
  function IndSet(fs: Fs, w: Writer): (s: set<nat>)
    requires WellFormed(fs) && w.n < |fs.inodes|
  {
    var b := SlotOrHand(fs, w, NDIRECT);
    if b == 0 then {} else {b, BitmapBlock(fs.sb, b)}
  }

  /** All blocks that the write may have logged. */
  function LogSet(fs: Fs, w: Writer): (s: set<nat>)
    requires WellFormed(fs) && w.n < |fs.inodes| && w.n < |w.start.inodes| && BlocksFor(w.End()) <= MAXFILE
  {
    DataSet(fs, w, w.off / BSIZE, BlocksFor(w.End())) +
    BitSet(fs, w, BlocksFor(w.start.inodes[w.n].size), BlocksFor(w.End())) +
    IndSet(fs, w) + {InodeBlock(fs.sb, w.n)}
  }

  lemma {:induction false} DataSetSize(fs: Fs, w: Writer, lo: nat, hi: nat)
    requires WellFormed(fs) && w.n < |fs.inodes| && hi <= MAXFILE
    ensures |DataSet(fs, w, lo, hi)| <= (if hi <= lo then 0 else hi - lo)
    ensures |BitSet(fs, w, lo, hi)| <= (if hi <= lo then 0 else hi - lo)
  {
    if lo < hi {
      DataSetSize(fs, w, lo, hi - 1);
      var b := SlotOrHand(fs, w, DataSlot(hi - 1));
      OneMore(DataSet(fs, w, lo, hi - 1), b == 0, b, DataSet(fs, w, lo, hi));
      OneMore(BitSet(fs, w, lo, hi - 1), b == 0, BitmapBlock(fs.sb, b), BitSet(fs, w, lo, hi));
    }
  }

  lemma OneMore(s: set<nat>, none: bool, b: nat, s': set<nat>)
    requires s' == s + if none then {} else {b}
    ensures |s'| <= |s| + 1
  {
    UnionSize(s, {b});
    if none {
      assert s' == s;
    }
  }

  lemma ThreeBlocks(off: nat, len: nat, size: nat)
    requires off <= size && len <= 3 * BSIZE
    ensures BlocksFor(off + len) - off / BSIZE <= 4 && BlocksFor(off + len) - BlocksFor(size) <= 3
  {
  }

  /** A write of at most three blocks' length logs at most ten blocks, whatever the other writes do. */
  lemma LogSetSize(fs: Fs, w: Writer)
    requires WellFormed(fs) && w.n < |fs.inodes| && w.n < |w.start.inodes| && BlocksFor(w.End()) <= MAXFILE
    requires w.off <= w.start.inodes[w.n].size && |w.src| <= 3 * BSIZE
    ensures |LogSet(fs, w)| <= 10
  {
    var (lo, mid, hi) := (w.off / BSIZE, BlocksFor(w.start.inodes[w.n].size), BlocksFor(w.End()));
    var D, B, I := DataSet(fs, w, lo, hi), BitSet(fs, w, mid, hi), IndSet(fs, w);
    ThreeBlocks(w.off, |w.src|, w.start.inodes[w.n].size);
    DataSetSize(fs, w, lo, hi);
    DataSetSize(fs, w, mid, hi);
    IndSetSize(fs, w);
    UnionOfFour(D, B, I, InodeBlock(fs.sb, w.n));
  }

  lemma IndSetSize(fs: Fs, w: Writer)
    requires WellFormed(fs) && w.n < |fs.inodes|
    ensures |IndSet(fs, w)| <= 2
  {
  }

  lemma UnionOfFour(a: set<nat>, b: set<nat>, c: set<nat>, x: nat)
    ensures |a + b + c + {x}| <= |a| + |b| + |c| + 1
  {
    UnionSize(a, b);
    UnionSize(a + b, c);
    UnionSize(a + b + c, {x});
  }

  lemma {:induction false} InDataSet(fs: Fs, w: Writer, lo: nat, hi: nat, j: nat)
    requires WellFormed(fs) && w.n < |fs.inodes| && lo <= j < hi <= MAXFILE && SlotOrHand(fs, w, DataSlot(j)) != 0
    ensures SlotOrHand(fs, w, DataSlot(j)) in DataSet(fs, w, lo, hi)
    ensures BitmapBlock(fs.sb, SlotOrHand(fs, w, DataSlot(j))) in BitSet(fs, w, lo, hi)
  {
    if j < hi - 1 {
      InDataSet(fs, w, lo, hi - 1, j);
    }
  }

  /** Slots of the writer are filled but never changed. */
  predicate SlotsGrow(fs: Fs, w: Writer, fs': Fs, w': Writer) {
    && WellFormed(fs) && WellFormed(fs') && fs'.sb == fs.sb && w.n == w'.n < |fs.inodes| == |fs'.inodes|
    && w'.off == w.off && w'.src == w.src && w'.start == w.start
    && forall k :: 0 <= k < NSLOTS && SlotOrHand(fs, w, k) != 0 ==> SlotOrHand(fs', w', k) == SlotOrHand(fs, w, k)
  }

  lemma {:induction false} DataSetGrows(fs: Fs, w: Writer, fs': Fs, w': Writer, lo: nat, hi: nat)
    requires SlotsGrow(fs, w, fs', w') && hi <= MAXFILE
    ensures DataSet(fs, w, lo, hi) <= DataSet(fs', w', lo, hi)
    ensures BitSet(fs, w, lo, hi) <= BitSet(fs', w', lo, hi)
  {
    if lo < hi {
      DataSetGrows(fs, w, fs', w', lo, hi - 1);
    }
  }

  lemma LogSetGrows(fs: Fs, w: Writer, fs': Fs, w': Writer)
    requires SlotsGrow(fs, w, fs', w') && w.n < |w.start.inodes| && BlocksFor(w.End()) <= MAXFILE
    ensures LogSet(fs, w) <= LogSet(fs', w')
  {
    DataSetGrows(fs, w, fs', w', w.off / BSIZE, BlocksFor(w.End()));
    DataSetGrows(fs, w, fs', w', BlocksFor(w.start.inodes[w.n].size), BlocksFor(w.End()));
  }
}
