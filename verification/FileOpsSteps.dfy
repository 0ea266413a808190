/** What each step of the concurrent file writes keeps. */
module FileOpsSteps {
  import opened Basics
  import opened FsLayout
  import opened FsSteps
  import opened FileOps
  import F = FileSystem

  // ------------------------------------------------------------------
  // One writer

  /** The ranges of a writer, and its inode in memory and on disk. */
  ghost predicate InodeOk(fs: Fs, w: Writer) {
    && WellFormed(fs) && WellFormed(w.start) && fs.sb == w.start.sb && w.n < |fs.inodes| == |w.start.inodes|
    && var size := w.start.inodes[w.n].size;
       && w.off <= size <= MAXFILE * BSIZE && 0 < |w.src| <= 3 * BSIZE
       && w.off <= w.o <= w.End() <= MAXFILE * BSIZE
       && (w.o == w.off || w.o % BSIZE == 0 || w.o == w.End())
       && fs.inodes[w.n] == w.start.inodes[w.n].(addrs := fs.inodes[w.n].addrs)
       && fs.dinodes[w.n] == w.start.inodes[w.n]
       && (w.End() <= size ==> fs.inodes[w.n] == w.start.inodes[w.n])
  }

  /** The file blocks that the file has had from the start, and those that are written. */
  function Covered(w: Writer): (nb: nat)
    requires w.n < |w.start.inodes|
  {
    Max(BlocksFor(w.start.inodes[w.n].size), BlocksFor(w.o))
  }

  /** The file blocks that are mapped: besides those, perhaps the one that is about to be written. */
  function Rows(fs: Fs, w: Writer): (nb: nat)
    requires WellFormed(fs) && w.n < |fs.inodes| && w.n < |w.start.inodes|
  {
    var bn := w.o / BSIZE;
    if w.o < w.End() && bn < MAXFILE && bn == Covered(w) && Slot(fs, w.n, DataSlot(bn)) != 0 then bn + 1 else Covered(w)
  }

  predicate MapOk(fs: Fs, w: Writer)
    requires WellFormed(fs) && w.n < |fs.inodes| && w.n < |w.start.inodes|
  {
    var nb := Rows(fs, w);
    && nb <= MAXFILE
    && (forall bn :: 0 <= bn < MAXFILE ==> (Slot(fs, w.n, DataSlot(bn)) != 0 <==> bn < nb))
    && (nb > NDIRECT ==> Slot(fs, w.n, NDIRECT) != 0)
    && (Slot(fs, w.n, NDIRECT) != 0 ==> nb > NDIRECT || (w.o < w.End() && w.o / BSIZE >= NDIRECT))
  }

  /** The bytes that are written, and the others as they were. */
  predicate BytesOk(fs: Fs, w: Writer)
    requires WellFormed(fs) && WellFormed(w.start) && w.n < |fs.inodes| && w.n < |w.start.inodes| && w.o <= w.End()
  {
    forall i :: 0 <= i < MAXFILE * BSIZE ==>
      ByteAt(fs, w.n, i) == if w.off <= i < w.o then w.src[i - w.off] else ByteAt(w.start, w.n, i)
  }

  /** The block in hand is free and belongs where it is wanted. */
  predicate HandOk(fs: Fs, w: Writer)
    requires WellFormed(fs) && w.n < |fs.inodes|
  {
    !w.stage.Look? ==>
      && w.o < w.End() && w.o / BSIZE < MAXFILE && Wanted(fs, w) == Some(w.stage.k)
      && w.stage.b < fs.sb.size && !fs.bitmap[w.stage.b]
      && (w.stage.Zeroed? ==> w.stage.k > NDIRECT && fs.blocks[w.stage.b] == Zero())
  }

  ghost predicate FileOk(fs: Fs, w: Writer) {
    InodeOk(fs, w) && MapOk(fs, w) && BytesOk(fs, w) && HandOk(fs, w)
  }

  /** Only blocks of the write have been logged. */
  predicate LogOk(fs: Fs, w: Writer) {
    && WellFormed(fs) && w.n < |fs.inodes| && w.n < |w.start.inodes| && BlocksFor(w.End()) <= MAXFILE
    && w.logged <= LogSet(fs, w)
  }

  /** When all bytes are written, only the new size is missing. */
  ghost predicate WriterOk(fs: Fs, w: Writer) {
    FileOk(fs, w) && LogOk(fs, w) && (w.o == w.End() ==> w.End() > w.start.inodes[w.n].size)
  }

  /** Block arithmetic of the file block that is about to be written. */
  lemma AtBlock(w: Writer)
    requires w.n < |w.start.inodes| && w.off <= w.start.inodes[w.n].size && w.off <= w.o < w.End() <= MAXFILE * BSIZE
    requires w.o == w.off || w.o % BSIZE == 0
    ensures w.off / BSIZE <= w.o / BSIZE < BlocksFor(w.End()) <= MAXFILE && w.o / BSIZE <= Covered(w)
    ensures w.o / BSIZE == Covered(w) ==> BlocksFor(w.start.inodes[w.n].size) <= w.o / BSIZE
    ensures w.o / BSIZE == Covered(w) ==> w.End() > w.start.inodes[w.n].size
  {
    StepBlocks(w.o, 1, w.start.inodes[w.n].size, w.off);
  }

  // ------------------------------------------------------------------
  // The other files

  /** Everything about other files, and all free blocks but one, is as it was. */
  predicate Elsewhere(fs: Fs, fs': Fs, n: nat, hand: nat) {
    && WellFormed(fs) && WellFormed(fs') && fs'.sb == fs.sb && |fs'.inodes| == |fs.inodes|
    && (forall m :: 0 <= m < |fs.inodes| && m != n ==> fs'.inodes[m] == fs.inodes[m] && fs'.dinodes[m] == fs.dinodes[m])
    && (forall m, l :: 0 <= m < |fs.inodes| && m != n && 0 <= l < NSLOTS ==> Slot(fs', m, l) == Slot(fs, m, l))
    && (forall m, i :: 0 <= m < |fs.inodes| && m != n && 0 <= i < MAXFILE * BSIZE ==>
          ByteAt(fs', m, i) == ByteAt(fs, m, i))
    && (forall x :: 0 <= x < fs.sb.size && x != hand && !fs.bitmap[x] ==>
          !fs'.bitmap[x] && fs'.blocks[x] == fs.blocks[x])
  }

  /** A step of one writer leaves the others as they are. */
  lemma WriterFramed(fs: Fs, fs': Fs, n: nat, hand: nat, w: Writer)
    requires Elsewhere(fs, fs', n, hand) && WriterOk(fs, w) && w.n != n && (w.Hand() == 0 || w.Hand() != hand)
    requires fs.bitmap[0]
    ensures WriterOk(fs', w)
  {
    assert SlotsGrow(fs, w, fs', w);
    LogSetGrows(fs, w, fs', w);
  }

  // ------------------------------------------------------------------
  // balloc

  /** The slot that is wanted is empty, and the file block is the first one that is not covered. */
  lemma WantedIsNew(fs: Fs, w: Writer)
    requires InodeOk(fs, w) && MapOk(fs, w) && w.o < w.End()
    ensures w.o / BSIZE < MAXFILE && w.off / BSIZE <= w.o / BSIZE < BlocksFor(w.End())
    ensures Wanted(fs, w).Some? ==> IsNew(fs, w, Wanted(fs, w).value)
  {
    AtBlock(w);
  }

  predicate IsNew(fs: Fs, w: Writer, k: nat)
    requires WellFormed(fs) && w.n < |fs.inodes| && w.n < |w.start.inodes| && w.o / BSIZE < MAXFILE
  {
    var bn := w.o / BSIZE;
    && (k == NDIRECT || k == DataSlot(bn)) && Slot(fs, w.n, k) == 0 && Slot(fs, w.n, DataSlot(bn)) == 0
    && bn == Covered(w) && w.End() > w.start.inodes[w.n].size && BlocksFor(w.start.inodes[w.n].size) <= bn
  }

  lemma MarkKeeps(fs: Fs, w: Writer, b: nat)
    requires WriterOk(fs, w) && w.stage.Look? && w.o < w.End() && w.o / BSIZE < MAXFILE && Wanted(fs, w).Some?
    requires 0 < b < fs.sb.size && !fs.bitmap[b]
    ensures WriterOk(fs, Log(w.(stage := Got(b, Wanted(fs, w).value)), BitmapBlock(fs.sb, b)))
  {
    var k := Wanted(fs, w).value;
    WantedIsNew(fs, w);
    MarkLogs(fs, w, b, k);
  }

  lemma MarkLogs(fs: Fs, w: Writer, b: nat, k: nat)
    requires LogOk(fs, w) && w.stage.Look? && b > 0 && w.o / BSIZE < BlocksFor(w.End()) && IsNew(fs, w, k)
    ensures LogOk(fs, Log(w.(stage := Got(b, k)), BitmapBlock(fs.sb, b)))
  {
    var w1 := w.(stage := Got(b, k));
    assert SlotOrHand(fs, w1, k) == b;
    if k != NDIRECT {
      InDataSet(fs, w1, BlocksFor(w.start.inodes[w.n].size), BlocksFor(w.End()), w.o / BSIZE);
    }
    LogMore(fs, w, fs, w1, BitmapBlock(fs.sb, b));
  }

  /** One more block of the write is logged. */
  lemma LogMore(fs: Fs, w: Writer, fs': Fs, w': Writer, bno: nat)
    requires LogOk(fs, w) && SlotsGrow(fs, w, fs', w') && w'.logged == w.logged && bno in LogSet(fs', w')
    ensures LogOk(fs', Log(w', bno))
  {
    LogSetGrows(fs, w, fs', w');
    SameSets(fs', w', w.logged + {bno}, w.off / BSIZE, BlocksFor(w.End()));
    SameSets(fs', w', w.logged + {bno}, BlocksFor(w.start.inodes[w.n].size), BlocksFor(w.End()));
  }

  /** The record of logged blocks is of no account to the set of blocks that may be logged. */
  lemma {:induction false} SameSets(fs: Fs, w: Writer, logged: set<nat>, lo: nat, hi: nat)
    requires WellFormed(fs) && w.n < |fs.inodes| && hi <= MAXFILE
    ensures DataSet(fs, w.(logged := logged), lo, hi) == DataSet(fs, w, lo, hi)
    ensures BitSet(fs, w.(logged := logged), lo, hi) == BitSet(fs, w, lo, hi)
  {
    if lo < hi {
      SameSets(fs, w, logged, lo, hi - 1);
    }
  }

  // ------------------------------------------------------------------
  // A new block of the file

  /** A data block is put into the file. */
  lemma AttachKeeps(fs: Fs, w: Writer, fs': Fs, bno: nat)
    requires WriterOk(fs, w) && !w.stage.Look? && w.stage.k == DataSlot(w.o / BSIZE)
    requires Owned(fs) && Bmapped(fs, fs', w.n, w.o / BSIZE, w.stage.b)
    requires bno == w.stage.b || (bno == Slot(fs', w.n, NDIRECT) != 0)
    ensures WriterOk(fs', Log(w.(stage := Look), bno))
  {
    WantedIsNew(fs, w);
    AttachFile(fs, w, fs');
    LogKeepsFile(fs', w.(stage := Look), bno);
    AttachLogs(fs, w, fs', bno);
  }

  lemma LogKeepsFile(fs: Fs, w: Writer, bno: nat)
    requires FileOk(fs, w)
    ensures FileOk(fs, Log(w, bno))
  {
  }

  lemma AttachFile(fs: Fs, w: Writer, fs': Fs)
    requires FileOk(fs, w) && !w.stage.Look? && w.stage.k == DataSlot(w.o / BSIZE)
    requires Owned(fs) && Bmapped(fs, fs', w.n, w.o / BSIZE, w.stage.b)
    ensures FileOk(fs', w.(stage := Look))
  {
    WantedIsNew(fs, w);
    AttachMaps(fs, w, fs');
    forall i | 0 <= i < MAXFILE * BSIZE ensures ByteAt(fs', w.n, i) == ByteAt(fs, w.n, i) {
      BmapKeepsBytes(fs, fs', w.n, w.o / BSIZE, w.stage.b, w.n, i);
    }
  }

  lemma AttachLogs(fs: Fs, w: Writer, fs': Fs, bno: nat)
    requires LogOk(fs, w) && HandOkFor(fs, w) && w.off / BSIZE <= w.o / BSIZE < BlocksFor(w.End())
    requires Bmapped(fs, fs', w.n, w.o / BSIZE, w.stage.b)
    requires bno == w.stage.b || (bno == Slot(fs', w.n, NDIRECT) != 0)
    ensures LogOk(fs', Log(w.(stage := Look), bno))
  {
    var w1 := w.(stage := Look);
    AttachGrows(fs, w, fs');
    InDataSet(fs', w1, w.off / BSIZE, BlocksFor(w.End()), w.o / BSIZE);
    LogMore(fs, w, fs', w1, bno);
  }

  lemma AttachGrows(fs: Fs, w: Writer, fs': Fs)
    requires HandOkFor(fs, w) && Bmapped(fs, fs', w.n, w.o / BSIZE, w.stage.b)
    ensures SlotsGrow(fs, w, fs', w.(stage := Look))
  {
    forall k | 0 <= k < NSLOTS && SlotOrHand(fs, w, k) != 0
      ensures SlotOrHand(fs', w.(stage := Look), k) == SlotOrHand(fs, w, k)
    {
    }
  }

  /** A block in hand is for the data slot of the current file block. */
  predicate HandOkFor(fs: Fs, w: Writer) {
    && WellFormed(fs) && w.n < |fs.inodes| && !w.stage.Look?
    && w.o / BSIZE < MAXFILE && w.stage.k == DataSlot(w.o / BSIZE)
  }

  lemma AttachMaps(fs: Fs, w: Writer, fs': Fs)
    requires InodeOk(fs, w) && MapOk(fs, w) && w.o < w.End() && w.o / BSIZE < MAXFILE
    requires !w.stage.Look? && Bmapped(fs, fs', w.n, w.o / BSIZE, w.stage.b)
    requires w.o / BSIZE == Covered(w) && Slot(fs, w.n, DataSlot(w.o / BSIZE)) == 0
    ensures MapOk(fs', w.(stage := Look))
  {
    var bn := w.o / BSIZE;
    forall k | 0 <= k < MAXFILE ensures Slot(fs', w.n, DataSlot(k)) != 0 <==> k < bn + 1 {
      assert DataSlot(k) == DataSlot(bn) ==> k == bn;
      assert k != bn ==> Slot(fs', w.n, DataSlot(k)) == Slot(fs, w.n, DataSlot(k));
    }
  }

  /** Mapping a block concerns one file and one free block. */
  lemma BmapElsewhere(fs: Fs, fs': Fs, n: nat, bn: nat, b: nat)
    requires Owned(fs) && Bmapped(fs, fs', n, bn, b)
    requires forall x :: 0 <= x < fs.sb.size && x != b && !fs.bitmap[x] ==>
               !fs'.bitmap[x] && fs'.blocks[x] == fs.blocks[x]
    ensures Elsewhere(fs, fs', n, b)
  {
    forall m, i | 0 <= m < |fs.inodes| && m != n && 0 <= i < MAXFILE * BSIZE
      ensures ByteAt(fs', m, i) == ByteAt(fs, m, i)
    {
      BmapKeepsBytes(fs, fs', n, bn, b, m, i);
    }
  }

  /** The address of a data block in the inode. */
  lemma ClearDirect(fs: Fs, w: Writer)
    requires Owned(fs) && WriterOk(fs, w) && w.stage.Got? && w.stage.k < NDIRECT
    ensures Fits(fs, w)
    ensures var r := Clear(fs, w);
            Owned(r.fs) && WriterOk(r.fs, Log(r.w, r.bno)) && Elsewhere(fs, r.fs, w.n, w.stage.b)
  {
    WantedIsNew(fs, w);
    var fs' := SetAddr(Alloc(fs, w.stage.b), w.n, w.stage.k, w.stage.b);
    MapDirect(fs, w.n, w.o / BSIZE, w.stage.b);
    AttachKeeps(fs, w, fs', w.stage.b);
    BmapElsewhere(fs, fs', w.n, w.o / BSIZE, w.stage.b);
  }

  /** The entry of a data block in the indirect block. */
  lemma EnterEntry(fs: Fs, w: Writer)
    requires Owned(fs) && WriterOk(fs, w) && w.stage.Zeroed?
    ensures Fits(fs, w)
    ensures var r := Enter(fs, w);
            Owned(r.fs) && WriterOk(r.fs, Log(r.w, r.bno)) && Elsewhere(fs, r.fs, w.n, w.stage.b)
  {
    EnterIs(fs, w);
    var r := Enter(fs, w);
    AttachKeeps(fs, w, r.fs, r.bno);
    BmapElsewhere(fs, r.fs, w.n, w.o / BSIZE, w.stage.b);
  }

  lemma EnterIs(fs: Fs, w: Writer)
    requires Owned(fs) && FileOk(fs, w) && w.stage.Zeroed?
    ensures Fits(fs, w) && w.o / BSIZE < MAXFILE && w.stage.k == DataSlot(w.o / BSIZE)
    ensures var r := Enter(fs, w);
            && r.w == w.(stage := Look) && r.bno == Slot(r.fs, w.n, NDIRECT) != 0
            && Bmapped(fs, r.fs, w.n, w.o / BSIZE, w.stage.b)
            && forall x :: 0 <= x < fs.sb.size && x != w.stage.b && !fs.bitmap[x] ==>
                 !r.fs.bitmap[x] && r.fs.blocks[x] == fs.blocks[x]
  {
    WantedIsNew(fs, w);
    EntryMaps(fs, w.n, w.o / BSIZE, w.stage.b);
  }

  lemma EntryMaps(fs: Fs, n: nat, bn: nat, b: nat)
    requires Owned(fs) && n < |fs.inodes| && NDIRECT <= bn < MAXFILE && b < fs.sb.size && !fs.bitmap[b]
    requires Slot(fs, n, NDIRECT) != 0 && Slot(fs, n, DataSlot(bn)) == 0
    ensures Slot(fs, n, NDIRECT) < fs.sb.size
    ensures var fs' := SetEntry(Alloc(fs, b), n, bn - NDIRECT, b);
            && Bmapped(fs, fs', n, bn, b) && Slot(fs', n, NDIRECT) == Slot(fs, n, NDIRECT)
            && forall x :: 0 <= x < fs.sb.size && x != b && !fs.bitmap[x] ==>
                 !fs'.bitmap[x] && fs'.blocks[x] == fs.blocks[x]
  {
    assert SlotSet(fs, fs, n, NDIRECT, Slot(fs, n, NDIRECT));
    MapEntry(fs, fs, n, bn, b);
    assert Referenced(fs, Slot(fs, n, NDIRECT));
  }

  // ------------------------------------------------------------------
  // The indirect block, and a cleared block for one of its entries

  lemma IndirectIs(fs: Fs, w: Writer)
    requires Owned(fs) && FileOk(fs, w) && w.stage.Got? && w.stage.k == NDIRECT
    ensures Fits(fs, w) && w.o / BSIZE >= NDIRECT && Slot(fs, w.n, NDIRECT) == 0
    ensures var r := Clear(fs, w);
            && r.w == w.(stage := Look) && r.bno == w.stage.b > 0
            && Owned(r.fs) && SameElse(fs, r.fs, w.n) && DataKept(fs, r.fs)
            && SlotSet(fs, r.fs, w.n, NDIRECT, w.stage.b)
            && forall x :: 0 <= x < fs.sb.size && x != w.stage.b && !fs.bitmap[x] ==>
                 !r.fs.bitmap[x] && r.fs.blocks[x] == fs.blocks[x]
  {
    WantedIsNew(fs, w);
    MapIndirectBlock(fs, w.n, w.stage.b);
  }

  /** Data slots and data blocks are the same, and so are the bytes. */
  lemma SameBytes(fs: Fs, fs': Fs, m: nat, i: nat)
    requires WellFormed(fs) && WellFormed(fs') && |fs'.blocks| == |fs.blocks| && DataKept(fs, fs')
    requires m < |fs.inodes| && m < |fs'.inodes| && i < MAXFILE * BSIZE
    requires Slot(fs', m, DataSlot(i / BSIZE)) == Slot(fs, m, DataSlot(i / BSIZE))
    ensures ByteAt(fs', m, i) == ByteAt(fs, m, i)
  {
  }

  lemma IndirectBytes(fs: Fs, fs': Fs, n: nat, b: nat)
    requires Owned(fs) && SameElse(fs, fs', n) && DataKept(fs, fs') && SlotSet(fs, fs', n, NDIRECT, b)
    ensures forall m, i :: 0 <= m < |fs.inodes| && 0 <= i < MAXFILE * BSIZE ==> ByteAt(fs', m, i) == ByteAt(fs, m, i)
  {
    forall m, i | 0 <= m < |fs.inodes| && 0 <= i < MAXFILE * BSIZE ensures ByteAt(fs', m, i) == ByteAt(fs, m, i) {
      SameBytes(fs, fs', m, i);
    }
  }

  lemma ClearIndirect(fs: Fs, w: Writer)
    requires Owned(fs) && WriterOk(fs, w) && w.stage.Got? && w.stage.k == NDIRECT
    ensures Fits(fs, w)
    ensures var r := Clear(fs, w);
            Owned(r.fs) && WriterOk(r.fs, Log(r.w, r.bno)) && Elsewhere(fs, r.fs, w.n, w.stage.b)
  {
    IndirectIs(fs, w);
    var r := Clear(fs, w);
    IndirectFile(fs, w, r.fs);
    LogKeepsFile(r.fs, r.w, r.bno);
    IndirectLogs(fs, w, r.fs);
    IndirectBytes(fs, r.fs, w.n, w.stage.b);
  }

  lemma IndirectFile(fs: Fs, w: Writer, fs': Fs)
    requires Owned(fs) && FileOk(fs, w) && w.stage.Got? && w.stage.k == NDIRECT && w.o / BSIZE >= NDIRECT
    requires SameElse(fs, fs', w.n) && DataKept(fs, fs') && SlotSet(fs, fs', w.n, NDIRECT, w.stage.b) && w.stage.b > 0
    ensures FileOk(fs', w.(stage := Look))
  {
    WantedIsNew(fs, w);
    IndirectBytes(fs, fs', w.n, w.stage.b);
  }

  lemma IndirectLogs(fs: Fs, w: Writer, fs': Fs)
    requires LogOk(fs, w) && w.stage.Got? && w.stage.k == NDIRECT && w.stage.b > 0
    requires SameElse(fs, fs', w.n) && SlotSet(fs, fs', w.n, NDIRECT, w.stage.b)
    ensures LogOk(fs', Log(w.(stage := Look), w.stage.b))
  {
    assert SlotOrHand(fs', w.(stage := Look), NDIRECT) == w.stage.b;
    LogMore(fs, w, fs', w.(stage := Look), w.stage.b);
  }

  /** Clearing a block that is in no file. */
  lemma ZeroKeeps(fs: Fs, b: nat)
    requires Owned(fs) && b < fs.sb.size && !fs.bitmap[b]
    ensures var fs' := fs.(blocks := fs.blocks[b := Zero()]);
            && Owned(fs') && DataKept(fs, fs')
            && forall m, l :: 0 <= m < |fs.inodes| && 0 <= l < NSLOTS ==> Slot(fs', m, l) == Slot(fs, m, l)
  {
    var fs' := fs.(blocks := fs.blocks[b := Zero()]);
    FreeIsUnreferenced(fs, b);
    forall m, l | 0 <= m < |fs.inodes| && 0 <= l < NSLOTS ensures Slot(fs', m, l) == Slot(fs, m, l) {
      assert Slot(fs, m, NDIRECT) != b;
    }
    SameSlotsOwned(fs, fs');
  }

  lemma ZeroBytes(fs: Fs, b: nat)
    requires Owned(fs) && b < fs.sb.size && !fs.bitmap[b]
    ensures var fs' := fs.(blocks := fs.blocks[b := Zero()]);
            forall m, i :: 0 <= m < |fs.inodes| && 0 <= i < MAXFILE * BSIZE ==> ByteAt(fs', m, i) == ByteAt(fs, m, i)
  {
    var fs' := fs.(blocks := fs.blocks[b := Zero()]);
    ZeroKeeps(fs, b);
    forall m, i | 0 <= m < |fs.inodes| && 0 <= i < MAXFILE * BSIZE ensures ByteAt(fs', m, i) == ByteAt(fs, m, i) {
      SameBytes(fs, fs', m, i);
    }
  }

  lemma ClearEntry(fs: Fs, w: Writer)
    requires Owned(fs) && WriterOk(fs, w) && w.stage.Got? && w.stage.k > NDIRECT
    ensures Fits(fs, w)
    ensures var r := Clear(fs, w);
            Owned(r.fs) && WriterOk(r.fs, Log(r.w, r.bno)) && Elsewhere(fs, r.fs, w.n, w.stage.b)
  {
    WantedIsNew(fs, w);
    FreeIsUnreferenced(fs, w.stage.b);
    ZeroKeeps(fs, w.stage.b);
    ZeroBytes(fs, w.stage.b);
    var r := Clear(fs, w);
    ZeroFile(fs, w);
    LogKeepsFile(r.fs, r.w, r.bno);
    ZeroLogs(fs, w, r.fs);
  }

  lemma ZeroFile(fs: Fs, w: Writer)
    requires Owned(fs) && FileOk(fs, w) && w.stage.Got? && w.stage.k > NDIRECT
    ensures FileOk(fs.(blocks := fs.blocks[w.stage.b := Zero()]), w.(stage := Zeroed(w.stage.b, w.stage.k)))
  {
    ZeroKeeps(fs, w.stage.b);
    ZeroBytes(fs, w.stage.b);
  }

  lemma ZeroLogs(fs: Fs, w: Writer, fs': Fs)
    requires LogOk(fs, w) && w.stage.Got? && HandOkFor(fs, w) && w.stage.b > 0
    requires w.off / BSIZE <= w.o / BSIZE < BlocksFor(w.End())
    requires WellFormed(fs') && fs'.sb == fs.sb && |fs'.inodes| == |fs.inodes|
    requires forall l :: 0 <= l < NSLOTS ==> Slot(fs', w.n, l) == Slot(fs, w.n, l)
    ensures LogOk(fs', Log(w.(stage := Zeroed(w.stage.b, w.stage.k)), w.stage.b))
  {
    var w1 := w.(stage := Zeroed(w.stage.b, w.stage.k));
    assert SlotsGrow(fs, w, fs', w1);
    InDataSet(fs', w1, w.off / BSIZE, BlocksFor(w.End()), w.o / BSIZE);
    LogMore(fs, w, fs', w1, w.stage.b);
  }

  // ------------------------------------------------------------------
  // Copying bytes

  /** fs' is fs with the next bytes in data block a. */
  predicate IsCopy(fs: Fs, w: Writer, a: nat, fs': Fs) {
    && WellFormed(fs) && w.n < |fs.inodes| && w.off <= w.o < w.End() && w.o / BSIZE < MAXFILE
    && 0 < a < fs.sb.size && a == Slot(fs, w.n, DataSlot(w.o / BSIZE))
    && fs' == PutBytes(fs, a, w.o % BSIZE, w.src[w.o - w.off..w.o - w.off + Chunk(w.o, w.End())])
  }

  lemma CopyIs(fs: Fs, w: Writer)
    requires Owned(fs) && FileOk(fs, w) && w.stage.Look?
    requires w.o < w.End() && w.o / BSIZE < MAXFILE && Wanted(fs, w).None?
    ensures Fits(fs, w)
    ensures var r := Copy(fs, w);
            IsCopy(fs, w, r.bno, r.fs) && r.w == w.(o := w.o + Chunk(w.o, w.End()))
  {
    AtBlock(w);
    assert Slot(fs, w.n, DataSlot(w.o / BSIZE)) < fs.sb.size;
  }

  /** One more file block is covered, unless it was covered already. */
  lemma NextCovered(w: Writer)
    requires w.n < |w.start.inodes| && w.off <= w.start.inodes[w.n].size && w.off <= w.o < w.End() <= MAXFILE * BSIZE
    requires w.o == w.off || w.o % BSIZE == 0
    ensures var w' := w.(o := w.o + Chunk(w.o, w.End()));
            && Covered(w') == (if w.o / BSIZE == Covered(w) then w.o / BSIZE + 1 else Covered(w))
            && (w'.o < w.End() ==> w'.o / BSIZE == w.o / BSIZE + 1)
  {
    StepBlocks(w.o, Chunk(w.o, w.End()), w.start.inodes[w.n].size, w.off);
  }

  /** The file block is written, and covered now. */
  lemma CopyMaps(fs: Fs, w: Writer, fs': Fs)
    requires InodeOk(fs, w) && MapOk(fs, w) && w.o < w.End() && w.o / BSIZE < MAXFILE
    requires WellFormed(fs') && |fs'.inodes| == |fs.inodes| && Slot(fs, w.n, DataSlot(w.o / BSIZE)) != 0
    requires forall l :: 0 <= l < NSLOTS ==> Slot(fs', w.n, l) == Slot(fs, w.n, l)
    ensures MapOk(fs', w.(o := w.o + Chunk(w.o, w.End())))
  {
    var w' := w.(o := w.o + Chunk(w.o, w.End()));
    AtBlock(w);
    NextCovered(w);
    assert Covered(w') == Rows(fs, w) == Rows(fs', w');
  }

  lemma CopyByte(fs: Fs, w: Writer, a: nat, fs': Fs, x: nat, i: nat)
    requires Owned(fs) && IsCopy(fs, w, a, fs') && x < |fs.inodes| && i < MAXFILE * BSIZE
    ensures ByteAt(fs', x, i) ==
            if x == w.n && w.o <= i < w.o + Chunk(w.o, w.End()) then w.src[i - w.off] else ByteAt(fs, x, i)
  {
    PutFrom(fs, w.n, w.o, w.src[w.o - w.off..w.o - w.off + Chunk(w.o, w.End())], fs', x, i);
  }

  /** Bytes put into the data block of offset o. */
  lemma PutFrom(fs: Fs, n: nat, o: nat, data: seq<byte>, fs': Fs, x: nat, i: nat)
    requires Owned(fs) && n < |fs.inodes| && o / BSIZE < MAXFILE && o % BSIZE + |data| <= BSIZE
    requires 0 < Slot(fs, n, DataSlot(o / BSIZE)) < fs.sb.size && x < |fs.inodes| && i < MAXFILE * BSIZE
    requires fs' == PutBytes(fs, Slot(fs, n, DataSlot(o / BSIZE)), o % BSIZE, data)
    ensures ByteAt(fs', x, i) == if x == n && o <= i < o + |data| then data[i - o] else ByteAt(fs, x, i)
  {
    PutAt(fs, n, o / BSIZE, o % BSIZE, data, x, i);
    Quotient(o);
  }

  lemma Quotient(o: nat)
    ensures o / BSIZE * BSIZE + o % BSIZE == o
  {
  }

  lemma CopyBytes(fs: Fs, w: Writer, a: nat, fs': Fs)
    requires Owned(fs) && WellFormed(w.start) && w.n < |w.start.inodes| && IsCopy(fs, w, a, fs') && BytesOk(fs, w)
    ensures BytesOk(fs', w.(o := w.o + Chunk(w.o, w.End())))
  {
    forall i | 0 <= i < MAXFILE * BSIZE
      ensures ByteAt(fs', w.n, i) ==
              if w.o <= i < w.o + Chunk(w.o, w.End()) then w.src[i - w.off] else ByteAt(fs, w.n, i)
    {
      CopyByte(fs, w, a, fs', w.n, i);
    }
  }

  /** Only one block that belongs to file n has changed. */
  lemma CopyElsewhere(fs: Fs, w: Writer, a: nat, fs': Fs)
    requires Owned(fs) && IsCopy(fs, w, a, fs')
    ensures Owned(fs') && Elsewhere(fs, fs', w.n, 0)
    ensures forall l :: 0 <= l < NSLOTS ==> Slot(fs', w.n, l) == Slot(fs, w.n, l)
  {
    PutKeepsSlots(fs, w.n, w.o / BSIZE, w.o % BSIZE, w.src[w.o - w.off..w.o - w.off + Chunk(w.o, w.End())]);
    forall m, i | 0 <= m < |fs.inodes| && m != w.n && 0 <= i < MAXFILE * BSIZE
      ensures ByteAt(fs', m, i) == ByteAt(fs, m, i)
    {
      CopyByte(fs, w, a, fs', m, i);
    }
    assert Referenced(fs, a);
  }

  lemma CopyFile(fs: Fs, w: Writer, a: nat, fs': Fs)
    requires Owned(fs) && FileOk(fs, w) && w.stage.Look? && IsCopy(fs, w, a, fs')
    ensures FileOk(fs', w.(o := w.o + Chunk(w.o, w.End())))
  {
    CopyElsewhere(fs, w, a, fs');
    CopyMaps(fs, w, fs');
    CopyBytes(fs, w, a, fs');
    CopyInode(fs, w, fs');
  }

  lemma CopyInode(fs: Fs, w: Writer, fs': Fs)
    requires InodeOk(fs, w) && w.o < w.End()
    requires WellFormed(fs') && fs'.sb == fs.sb && fs'.inodes == fs.inodes && fs'.dinodes == fs.dinodes
    ensures InodeOk(fs', w.(o := w.o + Chunk(w.o, w.End())))
  {
  }

  lemma CopyLogs(fs: Fs, w: Writer, fs': Fs)
    requires LogOk(fs, w) && w.stage.Look? && w.off / BSIZE <= w.o / BSIZE < BlocksFor(w.End()) && w.o < w.End()
    requires Slot(fs, w.n, DataSlot(w.o / BSIZE)) != 0
    requires WellFormed(fs') && fs'.sb == fs.sb && |fs'.inodes| == |fs.inodes|
    requires forall l :: 0 <= l < NSLOTS ==> Slot(fs', w.n, l) == Slot(fs, w.n, l)
    ensures LogOk(fs', Log(w.(o := w.o + Chunk(w.o, w.End())), Slot(fs, w.n, DataSlot(w.o / BSIZE))))
  {
    var w' := w.(o := w.o + Chunk(w.o, w.End()));
    assert SlotsGrow(fs, w, fs', w');
    InDataSet(fs', w', w.off / BSIZE, BlocksFor(w.End()), w.o / BSIZE);
    LogMore(fs, w, fs', w', Slot(fs, w.n, DataSlot(w.o / BSIZE)));
  }

  // ------------------------------------------------------------------
  // The end of a write

  /** A file that no one is writing. */
  predicate Settled(fs: Fs, n: nat)
    requires WellFormed(fs) && n < |fs.inodes|
  {
    var size := fs.inodes[n].size;
    fs.dinodes[n] == fs.inodes[n] && size <= MAXFILE * BSIZE && Mapped(fs, n, BlocksFor(size))
  }

  /** Slots, bytes and all other inodes are the same, and the inode has its size on disk. */
  ghost predicate Sized(fs: Fs, fs': Fs, n: nat, size: nat) {
    && WellFormed(fs) && WellFormed(fs') && fs'.sb == fs.sb && n < |fs.inodes| == |fs'.inodes|
    && fs'.inodes[n] == fs'.dinodes[n] && fs'.inodes[n].size == size
    && (forall l :: 0 <= l < NSLOTS ==> Slot(fs', n, l) == Slot(fs, n, l))
    && (forall i :: 0 <= i < MAXFILE * BSIZE ==> ByteAt(fs', n, i) == ByteAt(fs, n, i))
  }

  /** With its size, the written file is settled, and holds the spliced bytes. */
  lemma WriteSettles(fs: Fs, w: Writer, fs': Fs)
    requires FileOk(fs, w) && w.o == w.End() && Sized(fs, fs', w.n, Max(w.start.inodes[w.n].size, w.End()))
    ensures Settled(fs', w.n) && Content(fs', w.n) == Splice(Content(w.start, w.n), w.off, w.src)
  {
    var size := Max(w.start.inodes[w.n].size, w.End());
    assert BlocksFor(size) == Covered(w);
    var x, y := Content(fs', w.n), Splice(Content(w.start, w.n), w.off, w.src);
    forall i | 0 <= i < |x| ensures x[i] == y[i] {
      SplicedByte(fs, w, fs', i);
    }
  }

  lemma SplicedByte(fs: Fs, w: Writer, fs': Fs, i: nat)
    requires WellFormed(fs) && WellFormed(w.start) && w.n < |fs.inodes| && w.n < |w.start.inodes|
    requires w.o == w.End() <= MAXFILE * BSIZE && BytesOk(fs, w) && w.off <= w.start.inodes[w.n].size <= MAXFILE * BSIZE
    requires Sized(fs, fs', w.n, Max(w.start.inodes[w.n].size, w.End())) && i < fs'.inodes[w.n].size
    ensures Content(fs', w.n)[i] == Splice(Content(w.start, w.n), w.off, w.src)[i]
  {
    ContentAt(fs', w.n, i);
    if i < w.start.inodes[w.n].size {
      ContentAt(w.start, w.n, i);
    }
    assert ByteAt(fs, w.n, i) == if w.off <= i < w.o then w.src[i - w.off] else ByteAt(w.start, w.n, i);
  }

  lemma UpdateIs(fs: Fs, w: Writer)
    requires Owned(fs) && WriterOk(fs, w) && w.stage.Look? && w.o == w.End()
    ensures Fits(fs, w)
    ensures var r := Update(fs, w);
            && Owned(r.fs) && Sized(fs, r.fs, w.n, Max(w.start.inodes[w.n].size, w.End()))
            && Elsewhere(fs, r.fs, w.n, 0) && Complete(r.fs, r.w)
  {
    var r := Update(fs, w);
    forall m, l | 0 <= m < |fs.inodes| && 0 <= l < NSLOTS ensures Slot(r.fs, m, l) == Slot(fs, m, l) {
    }
    forall m, i | 0 <= m < |fs.inodes| && 0 <= i < MAXFILE * BSIZE ensures ByteAt(r.fs, m, i) == ByteAt(fs, m, i) {
      F.ResizedByte(fs, w.n, w.End(), m, i);
    }
    SameSlotsOwned(fs, r.fs);
  }

  lemma UpdateLogs(fs: Fs, w: Writer)
    requires Owned(fs) && WriterOk(fs, w) && w.stage.Look? && w.o == w.End() && Fits(fs, w)
    ensures var r := Update(fs, w); LogOk(r.fs, Log(r.w, r.bno))
  {
    UpdateIs(fs, w);
    var r := Update(fs, w);
    LogMore(fs, w, r.fs, r.w, r.bno);
  }
}
