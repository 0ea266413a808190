/** What one allocation, one new block reference and one truncation do to block ownership. */
module FsSteps {
  import opened Basics
  import opened FsLayout

  /** Block b after `balloc`: its bit is set, it is zeroed, and both blocks are logged. */
  function Alloc(fs: Fs, b: nat): (fs': Fs)
    requires WellFormed(fs) && b < fs.sb.size
    ensures WellFormed(fs')
  {
    fs.(bitmap := fs.bitmap[b := true], blocks := fs.blocks[b := Zero()],
        logged := fs.logged + {BitmapBlock(fs.sb, b), b})
  }

  /** Block b after `bfree`. */
  function Cleared(fs: Fs, b: nat): (fs': Fs)
    requires WellFormed(fs) && b < fs.sb.size
    ensures WellFormed(fs')
  {
    fs.(bitmap := fs.bitmap[b := false], logged := fs.logged + {BitmapBlock(fs.sb, b)})
  }

  /** Address k of the in-memory inode n becomes b. */
  function SetAddr(fs: Fs, n: nat, k: nat, b: nat): (fs': Fs)
    requires WellFormed(fs) && n < |fs.inodes| && k <= NDIRECT
    ensures WellFormed(fs')
  {
    var ip := fs.inodes[n];
    fs.(inodes := fs.inodes[n := ip.(addrs := ip.addrs[k := b])])
  }

  /** Entry j of the indirect block of inode n becomes b, and the indirect block is logged. */
  function SetEntry(fs: Fs, n: nat, j: nat, b: nat): (fs': Fs)
    requires WellFormed(fs) && n < |fs.inodes| && j < NINDIRECT && b < UINT
    requires 0 < fs.inodes[n].addrs[NDIRECT] < |fs.blocks|
    ensures WellFormed(fs')
  {
    var ind := fs.inodes[n].addrs[NDIRECT];
    fs.(blocks := fs.blocks[ind := SetWord(fs.blocks[ind], j, b)], logged := fs.logged + {ind})
  }

  /** fs' has the slots of fs, except that slot k of inode n is now b. */
  predicate SlotSet(fs: Fs, fs': Fs, n: nat, k: nat, b: nat) {
    && WellFormed(fs) && WellFormed(fs') && |fs'.inodes| == |fs.inodes| && n < |fs.inodes| && k < NSLOTS
    && forall m, l :: 0 <= m < |fs.inodes| && 0 <= l < NSLOTS ==>
         Slot(fs', m, l) == if m == n && l == k then b else Slot(fs, m, l)
  }

  /** The data blocks of all files hold the same bytes. */
  predicate DataKept(fs: Fs, fs': Fs)
    requires WellFormed(fs) && WellFormed(fs') && |fs.blocks| == |fs'.blocks|
  {
    forall m, bn :: 0 <= m < |fs.inodes| && 0 <= bn < MAXFILE ==>
      var b := Slot(fs, m, DataSlot(bn)); 0 < b < |fs.blocks| ==> fs'.blocks[b] == fs.blocks[b]
  }

  lemma FreeIsUnreferenced(fs: Fs, b: nat)
    requires Owned(fs) && b < fs.sb.size && !fs.bitmap[b]
    ensures b >= fs.sb.nmeta
    ensures forall m, l :: 0 <= m < |fs.inodes| && 0 <= l < NSLOTS ==> Slot(fs, m, l) != b
  {
    assert !Referenced(fs, b);
  }

  lemma AllocKeepsSlots(fs: Fs, b: nat)
    requires Owned(fs) && b < fs.sb.size && !fs.bitmap[b]
    ensures forall m, l :: 0 <= m < |fs.inodes| && 0 <= l < NSLOTS ==> Slot(Alloc(fs, b), m, l) == Slot(fs, m, l)
    ensures DataKept(fs, Alloc(fs, b))
  {
    FreeIsUnreferenced(fs, b);
    forall m, l | 0 <= m < |fs.inodes| && 0 <= l < NSLOTS ensures Slot(Alloc(fs, b), m, l) == Slot(fs, m, l) {
      assert Slot(fs, m, NDIRECT) != b;
    }
  }

  lemma SetAddrSlots(fs: Fs, n: nat, k: nat, b: nat)
    requires Owned(fs) && b < fs.sb.size && !fs.bitmap[b] && n < |fs.inodes| && k <= NDIRECT && Slot(fs, n, k) == 0
    ensures SlotSet(fs, SetAddr(Alloc(fs, b), n, k, b), n, k, b)
    ensures DataKept(fs, SetAddr(Alloc(fs, b), n, k, b))
  {
    AllocKeepsSlots(fs, b);
    FreeIsUnreferenced(fs, b);
    var fs1 := Alloc(fs, b);
    var fs' := SetAddr(fs1, n, k, b);
    forall m, l | 0 <= m < |fs.inodes| && 0 <= l < NSLOTS
      ensures Slot(fs', m, l) == if m == n && l == k then b else Slot(fs, m, l)
    {
      if m == n && l > NDIRECT && k == NDIRECT {
        assert Word(Zero(), l - NDIRECT - 1) == 0;
      } else {
        assert Slot(fs1, m, l) == Slot(fs, m, l);
      }
    }
  }

  lemma SetEntrySlots(fs: Fs, n: nat, j: nat, b: nat)
    requires Owned(fs) && b < fs.sb.size && !fs.bitmap[b] && n < |fs.inodes| && j < NINDIRECT
    requires Slot(fs, n, NDIRECT) != 0 && Slot(fs, n, NDIRECT + 1 + j) == 0
    ensures Slot(fs, n, NDIRECT) < fs.sb.size
    ensures SlotSet(fs, SetEntry(Alloc(fs, b), n, j, b), n, NDIRECT + 1 + j, b)
    ensures DataKept(fs, SetEntry(Alloc(fs, b), n, j, b))
  {
    AllocKeepsSlots(fs, b);
    FreeIsUnreferenced(fs, b);
    var ind, k := Slot(fs, n, NDIRECT), NDIRECT + 1 + j;
    var fs1 := Alloc(fs, b);
    var fs' := SetEntry(fs1, n, j, b);
    assert ind != b;
    forall m, l | 0 <= m < |fs.inodes| && 0 <= l < NSLOTS
      ensures Slot(fs', m, l) == if m == n && l == k then b else Slot(fs, m, l)
      ensures l != NDIRECT ==> Slot(fs, m, l) != ind
    {
      assert Slot(fs1, m, l) == Slot(fs, m, l);
      if l > NDIRECT && m == n {
        WordOfSet(fs1.blocks[ind], j, b, l - NDIRECT - 1);
      } else if l > NDIRECT {
        assert Slot(fs, m, NDIRECT) != ind;
      }
    }
    assert DataKept(fs, fs1);
  }

  /** Giving a free block to an empty slot keeps ownership. */
  lemma SetKeepsOwned(fs: Fs, fs': Fs, n: nat, k: nat, b: nat)
    requires Owned(fs) && b < fs.sb.size && !fs.bitmap[b]
    requires SlotSet(fs, fs', n, k, b) && Slot(fs, n, k) == 0
    requires fs'.sb == fs.sb && fs'.bitmap == fs.bitmap[b := true]
    ensures Owned(fs')
  {
    FreeIsUnreferenced(fs, b);
    forall c | 0 <= c < |fs'.bitmap| ensures fs'.bitmap[c] <==> c < fs.sb.nmeta || Referenced(fs', c) {
      if c >= fs.sb.nmeta {
        SetReferenced(fs, fs', n, k, b, c);
      }
    }
  }

  lemma SetReferenced(fs: Fs, fs': Fs, n: nat, k: nat, b: nat, c: nat)
    requires SlotSet(fs, fs', n, k, b) && Slot(fs, n, k) == 0 && c > 0
    ensures Referenced(fs', c) <==> c == b || Referenced(fs, c)
  {
    if c == b {
      assert Slot(fs', n, k) == c;
    }
    if Referenced(fs, c) {
      var m, l :| 0 <= m < |fs.inodes| && 0 <= l < NSLOTS && Slot(fs, m, l) == c;
      assert Slot(fs', m, l) == c;
    }
    if Referenced(fs', c) && c != b {
      var m, l :| 0 <= m < |fs.inodes| && 0 <= l < NSLOTS && Slot(fs', m, l) == c;
      assert Slot(fs, m, l) == c;
    }
  }

  // ------------------------------------------------------------------
  // The effect of `bmap`

  /** Everything but blocks, bits, the addresses of inode n and the log record is as it was. */
  predicate SameElse(fs: Fs, fs': Fs, n: nat) {
    && WellFormed(fs) && WellFormed(fs') && n < |fs.inodes| == |fs'.inodes|
    && fs'.sb == fs.sb && fs'.dinodes == fs.dinodes
    && fs'.inodes == fs.inodes[n := fs.inodes[n].(addrs := fs'.inodes[n].addrs)]
  }

  /**
   The blocks that mapping one file block may log besides the data block: its bitmap
   block, and those of the indirect block.
   */
  function IndirectSet(fs: Fs, n: nat): set<nat>
    requires WellFormed(fs) && n < |fs.inodes|
  {
    var ind := fs.inodes[n].addrs[NDIRECT];
    {ind, BitmapBlock(fs.sb, ind)}
  }

  /** fs' is fs after file block bn of inode n has been mapped to block a. */
  ghost predicate Bmapped(fs: Fs, fs': Fs, n: nat, bn: nat, a: nat) {
    && bn < MAXFILE
    && SameElse(fs, fs', n)
    && Owned(fs')
    && DataKept(fs, fs')
    && Slot(fs', n, DataSlot(bn)) == a
    && 0 < a < fs.sb.size
    && (Slot(fs, n, DataSlot(bn)) != 0 ==> fs' == fs)
    && (Slot(fs, n, DataSlot(bn)) == 0 ==> fs'.blocks[a] == Zero())
    && (forall m, l :: 0 <= m < |fs.inodes| && 0 <= l < NSLOTS && !(m == n && (l == DataSlot(bn) || l == NDIRECT)) ==>
          Slot(fs', m, l) == Slot(fs, m, l))
    && (Slot(fs', n, NDIRECT) != 0 <==> Slot(fs, n, NDIRECT) != 0 || bn >= NDIRECT)
    && (Slot(fs, n, NDIRECT) != 0 ==> Slot(fs', n, NDIRECT) == Slot(fs, n, NDIRECT))
    && fs'.logged <= fs.logged + {a, BitmapBlock(fs.sb, a)} + (if bn < NDIRECT then {} else IndirectSet(fs', n))
  }

  lemma MapDirect(fs: Fs, n: nat, bn: nat, b: nat)
    requires Owned(fs) && b < fs.sb.size && !fs.bitmap[b] && n < |fs.inodes| && bn < NDIRECT && Slot(fs, n, bn) == 0
    ensures Bmapped(fs, SetAddr(Alloc(fs, b), n, bn, b), n, bn, b)
  {
    FreeIsUnreferenced(fs, b);
    SetAddrSlots(fs, n, bn, b);
    SetKeepsOwned(fs, SetAddr(Alloc(fs, b), n, bn, b), n, bn, b);
  }

  /** fs1 is fs once inode n has an indirect block. */
  ghost predicate HasIndirect(fs: Fs, fs1: Fs, n: nat) {
    && SameElse(fs, fs1, n) && Owned(fs1) && DataKept(fs, fs1)
    && Slot(fs1, n, NDIRECT) != 0 && SlotSet(fs, fs1, n, NDIRECT, Slot(fs1, n, NDIRECT))
    && (Slot(fs, n, NDIRECT) != 0 ==> fs1 == fs)
    && fs1.logged <= fs.logged + IndirectSet(fs1, n)
  }

  lemma MapIndirectBlock(fs: Fs, n: nat, b: nat)
    requires Owned(fs) && b < fs.sb.size && !fs.bitmap[b] && n < |fs.inodes| && Slot(fs, n, NDIRECT) == 0
    ensures HasIndirect(fs, SetAddr(Alloc(fs, b), n, NDIRECT, b), n)
  {
    FreeIsUnreferenced(fs, b);
    SetAddrSlots(fs, n, NDIRECT, b);
    SetKeepsOwned(fs, SetAddr(Alloc(fs, b), n, NDIRECT, b), n, NDIRECT, b);
  }

  /** The two steps of the indirect case put together; fs1 is the state once the indirect block exists. */
  lemma MapEntry(fs: Fs, fs1: Fs, n: nat, bn: nat, b: nat)
    requires Owned(fs) && HasIndirect(fs, fs1, n) && NDIRECT <= bn < MAXFILE
    requires Slot(fs, n, DataSlot(bn)) == 0 && b < fs.sb.size && !fs1.bitmap[b]
    ensures Slot(fs1, n, NDIRECT) < fs1.sb.size
    ensures Bmapped(fs, SetEntry(Alloc(fs1, b), n, bn - NDIRECT, b), n, bn, b)
  {
    var j := bn - NDIRECT;
    assert Slot(fs1, n, DataSlot(bn)) == 0;
    SetEntrySlots(fs1, n, j, b);
    FreeIsUnreferenced(fs1, b);
    var fs' := SetEntry(Alloc(fs1, b), n, j, b);
    SetKeepsOwned(fs1, fs', n, DataSlot(bn), b);
    forall m, k | 0 <= m < |fs.inodes| && 0 <= k < MAXFILE
      ensures var c := Slot(fs, m, DataSlot(k)); 0 < c < |fs.blocks| ==> fs'.blocks[c] == fs.blocks[c]
    {
      assert Slot(fs1, m, DataSlot(k)) == Slot(fs, m, DataSlot(k));
    }
    assert Slot(fs1, n, NDIRECT) != b;
  }

  lemma NothingToMap(fs: Fs, n: nat, bn: nat)
    requires Owned(fs) && n < |fs.inodes| && bn < MAXFILE && Slot(fs, n, DataSlot(bn)) != 0
    ensures Bmapped(fs, fs, n, bn, Slot(fs, n, DataSlot(bn)))
  {
    assert bn >= NDIRECT ==> Slot(fs, n, NDIRECT) != 0;
  }

  /** Mapping a block changes no byte of any file: the new block reads as zeros, as did its absence. */
  lemma BmapKeepsBytes(fs: Fs, fs': Fs, n: nat, bn: nat, a: nat, m: nat, i: nat)
    requires Owned(fs) && Bmapped(fs, fs', n, bn, a) && m < |fs.inodes| && i < MAXFILE * BSIZE
    ensures ByteAt(fs', m, i) == ByteAt(fs, m, i)
  {
    var k := i / BSIZE;
    if m == n && k == bn {
    } else {
      assert DataSlot(k) == DataSlot(bn) ==> k == bn;
      assert Slot(fs', m, DataSlot(k)) == Slot(fs, m, DataSlot(k));
    }
  }

  /** Mapping the next block of a file without holes. */
  lemma BmapExtends(fs: Fs, fs': Fs, n: nat, bn: nat, a: nat, nb: nat)
    requires Owned(fs) && Bmapped(fs, fs', n, bn, a) && Mapped(fs, n, nb) && bn <= nb
    ensures Mapped(fs', n, if bn == nb then nb + 1 else nb)
  {
    forall k | 0 <= k < MAXFILE ensures Slot(fs', n, DataSlot(k)) != 0 <==> k < (if bn == nb then nb + 1 else nb) {
      assert DataSlot(k) == DataSlot(bn) ==> k == bn;
      assert k != bn ==> Slot(fs', n, DataSlot(k)) == Slot(fs, n, DataSlot(k));
    }
  }

  // ------------------------------------------------------------------
  // What is logged

  /** Whatever differs on disk is in blocks that have been logged. */
  predicate Logs(fs: Fs, fs': Fs) {
    && WellFormed(fs) && WellFormed(fs') && fs'.sb == fs.sb && |fs'.inodes| == |fs.inodes| && fs.logged <= fs'.logged
    && (forall b :: 0 <= b < |fs.blocks| && fs'.blocks[b] != fs.blocks[b] ==> b in fs'.logged)
    && (forall b :: 0 <= b < |fs.bitmap| && fs'.bitmap[b] != fs.bitmap[b] ==> BitmapBlock(fs.sb, b) in fs'.logged)
    && (forall n :: 0 <= n < |fs.dinodes| && fs'.dinodes[n] != fs.dinodes[n] ==> InodeBlock(fs.sb, n) in fs'.logged)
  }

  lemma LogsTwice(fs: Fs, fs1: Fs, fs2: Fs)
    requires Logs(fs, fs1) && Logs(fs1, fs2)
    ensures Logs(fs, fs2)
  {
  }

  lemma AllocLogs(fs: Fs, b: nat, n: nat, k: nat)
    requires WellFormed(fs) && b < fs.sb.size && n < |fs.inodes| && k <= NDIRECT
    ensures Logs(fs, Alloc(fs, b)) && Logs(fs, SetAddr(Alloc(fs, b), n, k, b))
  {
  }

  lemma EntryLogs(fs: Fs, fs1: Fs, b: nat, n: nat, j: nat)
    requires Logs(fs, fs1) && b < fs1.sb.size && n < |fs1.inodes| && j < NINDIRECT
    requires 0 < fs1.inodes[n].addrs[NDIRECT] < |fs1.blocks|
    ensures Logs(fs, SetEntry(Alloc(fs1, b), n, j, b))
  {
    var fs2 := Alloc(fs1, b);
    AllocLogs(fs1, b, n, 0);
    LogsTwice(fs, fs1, fs2);
    assert Logs(fs2, SetEntry(fs2, n, j, b));
    LogsTwice(fs, fs2, SetEntry(fs2, n, j, b));
  }

  // ------------------------------------------------------------------
  // Writing bytes into a data block

  function PutBytes(fs: Fs, a: nat, o: nat, data: seq<byte>): (fs': Fs)
    requires WellFormed(fs) && a < fs.sb.size && o + |data| <= BSIZE
    ensures WellFormed(fs')
  {
    var b := fs.blocks[a];
    fs.(blocks := fs.blocks[a := b[..o] + data + b[o + |data|..]], logged := fs.logged + {a})
  }

  lemma PutKeepsSlots(fs: Fs, n: nat, bn: nat, o: nat, data: seq<byte>)
    requires Owned(fs) && n < |fs.inodes| && bn < MAXFILE && Slot(fs, n, DataSlot(bn)) != 0 && o + |data| <= BSIZE
    ensures Slot(fs, n, DataSlot(bn)) < fs.sb.size
    ensures var fs' := PutBytes(fs, Slot(fs, n, DataSlot(bn)), o, data);
            && (forall m, l :: 0 <= m < |fs.inodes| && 0 <= l < NSLOTS ==> Slot(fs', m, l) == Slot(fs, m, l))
            && Owned(fs')
  {
    var a := Slot(fs, n, DataSlot(bn));
    var fs' := PutBytes(fs, a, o, data);
    forall m, l | 0 <= m < |fs.inodes| && 0 <= l < NSLOTS ensures Slot(fs', m, l) == Slot(fs, m, l) {
      assert Slot(fs, m, NDIRECT) != a;
    }
    SameSlotsOwned(fs, fs');
  }

  lemma SameSlotsOwned(fs: Fs, fs': Fs)
    requires Owned(fs) && WellFormed(fs') && fs'.sb == fs.sb && fs'.bitmap == fs.bitmap && |fs'.inodes| == |fs.inodes|
    requires forall m, l :: 0 <= m < |fs.inodes| && 0 <= l < NSLOTS ==> Slot(fs', m, l) == Slot(fs, m, l)
    ensures Owned(fs')
  {
    forall b | 0 <= b < |fs.bitmap| ensures Referenced(fs', b) <==> Referenced(fs, b) {
      if Referenced(fs, b) {
        var m, l :| 0 <= m < |fs.inodes| && 0 <= l < NSLOTS && Slot(fs, m, l) == b;
        assert Slot(fs', m, l) == b;
      }
      if Referenced(fs', b) {
        var m, l :| 0 <= m < |fs.inodes| && 0 <= l < NSLOTS && Slot(fs', m, l) == b;
        assert Slot(fs, m, l) == b;
      }
    }
  }

  lemma PutAt(fs: Fs, n: nat, bn: nat, o: nat, data: seq<byte>, m: nat, i: nat)
    requires Owned(fs) && n < |fs.inodes| && bn < MAXFILE && Slot(fs, n, DataSlot(bn)) != 0 && o + |data| <= BSIZE
    requires m < |fs.inodes| && i < MAXFILE * BSIZE
    ensures Slot(fs, n, DataSlot(bn)) < fs.sb.size
    ensures ByteAt(PutBytes(fs, Slot(fs, n, DataSlot(bn)), o, data), m, i) ==
            if m == n && bn * BSIZE + o <= i < bn * BSIZE + o + |data| then data[i - bn * BSIZE - o]
            else ByteAt(fs, m, i)
  {
    PutKeepsSlots(fs, n, bn, o, data);
    var a, k := Slot(fs, n, DataSlot(bn)), i / BSIZE;
    var fs' := PutBytes(fs, a, o, data);
    assert Slot(fs', m, DataSlot(k)) == Slot(fs, m, DataSlot(k));
    if m == n && k == bn {
      assert i == bn * BSIZE + i % BSIZE;
    } else {
      assert DataSlot(k) == DataSlot(bn) ==> k == bn;
      assert Slot(fs, m, DataSlot(k)) != a;
    }
  }

  // ------------------------------------------------------------------
  // Progress of `readi` and `writei`

  function Max(a: nat, b: nat): nat {
    if a < b then b else a
  }

  /** A run of bytes within one block is a slice of the file. */
  lemma BlockSlice(fs: Fs, n: nat, o: nat, m: nat)
    requires Owned(fs) && n < |fs.inodes| && fs.inodes[n].size <= MAXFILE * BSIZE
    requires 0 < m && o + m <= fs.inodes[n].size && o % BSIZE + m <= BSIZE
    requires Slot(fs, n, DataSlot(o / BSIZE)) != 0
    ensures Slot(fs, n, DataSlot(o / BSIZE)) < fs.sb.size
    ensures fs.blocks[Slot(fs, n, DataSlot(o / BSIZE))][o % BSIZE..o % BSIZE + m] == Content(fs, n)[o..o + m]
  {
    var a := Slot(fs, n, DataSlot(o / BSIZE));
    var x, y := fs.blocks[a][o % BSIZE..o % BSIZE + m], Content(fs, n)[o..o + m];
    forall i | 0 <= i < m ensures x[i] == y[i] {
      DivStep(o, i);
      ContentAt(fs, n, o + i);
    }
  }

  lemma DivStep(o: nat, i: nat)
    requires o % BSIZE + i < BSIZE
    ensures (o + i) / BSIZE == o / BSIZE && (o + i) % BSIZE == o % BSIZE + i
  {
  }

  /** fs0 with the first o - off bytes of src written to inode n, the size not yet updated. */
  ghost predicate Written(fs0: Fs, fs: Fs, n: nat, off: nat, o: nat, src: seq<byte>) {
    && Owned(fs) && SameElse(fs0, fs, n)
    && fs0.inodes[n].size <= MAXFILE * BSIZE
    && off <= o <= off + |src| <= MAXFILE * BSIZE
    && Mapped(fs, n, Max(BlocksFor(fs0.inodes[n].size), BlocksFor(o)))
    && (o <= fs0.inodes[n].size ==> fs.inodes == fs0.inodes)
    && (forall m, l :: 0 <= m < |fs.inodes| && m != n && 0 <= l < NSLOTS ==> Slot(fs, m, l) == Slot(fs0, m, l))
    && (forall m, i :: 0 <= m < |fs.inodes| && 0 <= i < MAXFILE * BSIZE ==>
          ByteAt(fs, m, i) == if m == n && off <= i < o then src[i - off] else ByteAt(fs0, m, i))
  }

  /** One iteration of `writei`: block bn is mapped, giving fs1, and the bytes up to o' are put into it. */
  lemma WriteStep(fs0: Fs, fs: Fs, fs1: Fs, n: nat, off: nat, o: nat, o': nat, src: seq<byte>, a: nat)
    requires Written(fs0, fs, n, off, o, src) && o < o' <= off + |src| && o % BSIZE + (o' - o) <= BSIZE
    requires Bmapped(fs, fs1, n, o / BSIZE, a)
    requires off <= fs0.inodes[n].size
    ensures Written(fs0, PutBytes(fs1, a, o % BSIZE, src[o - off..o' - off]), n, off, o', src)
  {
    var bn, size := o / BSIZE, fs0.inodes[n].size;
    var data := src[o - off..o' - off];
    var fs2 := PutBytes(fs1, a, o % BSIZE, data);
    var nb := Max(BlocksFor(size), BlocksFor(o));
    StepBlocks(o, o' - o, size, off);
    BmapExtends(fs, fs1, n, bn, a, nb);
    PutKeepsSlots(fs1, n, bn, o % BSIZE, data);
    SameMapped(fs1, fs2, n, Max(BlocksFor(size), BlocksFor(o')));
    forall x, i | 0 <= x < |fs.inodes| && 0 <= i < MAXFILE * BSIZE
      ensures ByteAt(fs2, x, i) == if x == n && off <= i < o' then src[i - off] else ByteAt(fs0, x, i)
    {
      StepByte(fs, fs1, n, off, o, o', src, a, x, i);
    }
  }

  /** Byte i of inode x after one iteration of `writei`. */
  lemma StepByte(fs: Fs, fs1: Fs, n: nat, off: nat, o: nat, o': nat, src: seq<byte>, a: nat, x: nat, i: nat)
    requires Bmapped(fs, fs1, n, o / BSIZE, a) && off <= o < o' <= off + |src| && o % BSIZE + (o' - o) <= BSIZE
    requires Owned(fs) && n < |fs.inodes| && x < |fs.inodes| && i < MAXFILE * BSIZE && o / BSIZE < MAXFILE
    ensures ByteAt(PutBytes(fs1, a, o % BSIZE, src[o - off..o' - off]), x, i) ==
            if x == n && o <= i < o' then src[i - off] else ByteAt(fs, x, i)
  {
    BmapKeepsBytes(fs, fs1, n, o / BSIZE, a, x, i);
    PutAt(fs1, n, o / BSIZE, o % BSIZE, src[o - off..o' - off], x, i);
  }

  lemma SameMapped(fs: Fs, fs': Fs, m: nat, nb: nat)
    requires WellFormed(fs) && WellFormed(fs') && m < |fs.inodes| == |fs'.inodes| && Mapped(fs, m, nb)
    requires forall l :: 0 <= l < NSLOTS ==> Slot(fs', m, l) == Slot(fs, m, l)
    ensures Mapped(fs', m, nb)
  {
  }

  /** Block arithmetic of one iteration. */
  lemma StepBlocks(o: nat, m: nat, size: nat, off: nat)
    requires 0 < m && o % BSIZE + m <= BSIZE && off <= o && off <= size && o + m <= MAXFILE * BSIZE
    ensures BlocksFor(o + m) == o / BSIZE + 1
    ensures o / BSIZE <= Max(BlocksFor(size), BlocksFor(o)) && o / BSIZE < MAXFILE
    ensures var nb := Max(BlocksFor(size), BlocksFor(o));
            Max(BlocksFor(size), BlocksFor(o + m)) == if o / BSIZE == nb then nb + 1 else nb
    ensures o + m <= size ==> o / BSIZE < BlocksFor(size)
  {
  }

  /** The bytes of one iteration: they stay in one block and end at a block boundary or at the end. */
  function Chunk(o: nat, end: nat): (m: nat)
    requires o < end
    ensures 0 < m && o + m <= end && o % BSIZE + m <= BSIZE && ((o + m) % BSIZE == 0 || o + m == end)
  {
    if end - o < BSIZE - o % BSIZE then end - o else BSIZE - o % BSIZE
  }

  // ------------------------------------------------------------------
  // The blocks that one `writei` logs

  /** D holds the data blocks, B the bitmap blocks of new data blocks; the rest belongs to the indirect block. */
  ghost predicate LogCount(fs0: Fs, fs: Fs, n: nat, off: nat, o: nat, D: set<nat>, B: set<nat>)
    requires WellFormed(fs) && n < |fs.inodes| && n < |fs0.inodes|
  {
    && fs.logged <= fs0.logged + D + B + (if o > NDIRECT * BSIZE then IndirectSet(fs, n) else {})
    && off <= o && |D| <= (if o == off then 0 else BlocksFor(o) - off / BSIZE)
    && |B| <= Max(BlocksFor(fs0.inodes[n].size), BlocksFor(o)) - BlocksFor(fs0.inodes[n].size)
  }

  /** The data and bitmap blocks recorded by one more iteration. */
  ghost function MoreBitmap(fs: Fs, n: nat, bn: nat, a: nat, B: set<nat>): set<nat>
    requires WellFormed(fs) && n < |fs.inodes| && bn < MAXFILE
  {
    if Slot(fs, n, DataSlot(bn)) == 0 then B + {BitmapBlock(fs.sb, a)} else B
  }

  /** Block arithmetic of the counts in one iteration. */
  lemma CountArithmetic(o: nat, o': nat, size: nat, off: nat)
    requires off <= size && off <= o < o' <= MAXFILE * BSIZE && o % BSIZE + (o' - o) <= BSIZE
    requires o == off || o % BSIZE == 0
    ensures o' > NDIRECT * BSIZE <==> o / BSIZE >= NDIRECT
    ensures o > NDIRECT * BSIZE ==> BlocksFor(o) > NDIRECT
    ensures (if o == off then 0 else BlocksFor(o) - off / BSIZE) + 1 <= BlocksFor(o') - off / BSIZE
  {
    StepBlocks(o, o' - o, size, off);
  }

  lemma CountSets(fs0: Fs, fs: Fs, fs1: Fs, n: nat, o: nat, o': nat, data: seq<byte>, a: nat, D: set<nat>, B: set<nat>)
    requires Bmapped(fs, fs1, n, o / BSIZE, a) && o % BSIZE + |data| <= BSIZE
    requires o < o' && (o' > NDIRECT * BSIZE <==> o / BSIZE >= NDIRECT)
    requires o > NDIRECT * BSIZE ==> Slot(fs, n, NDIRECT) != 0
    requires fs.logged <= fs0.logged + D + B + (if o > NDIRECT * BSIZE then IndirectSet(fs, n) else {})
    ensures var fs2 := PutBytes(fs1, a, o % BSIZE, data);
            fs2.logged <= fs0.logged + (D + {a}) + MoreBitmap(fs, n, o / BSIZE, a, B) +
              (if o' > NDIRECT * BSIZE then IndirectSet(fs2, n) else {})
  {
  }

  lemma CountStep(fs0: Fs, fs: Fs, fs1: Fs, n: nat, off: nat, o: nat, o': nat, data: seq<byte>, a: nat, D: set<nat>,
                  B: set<nat>)
    requires n < |fs0.inodes| && off <= fs0.inodes[n].size && off <= o < o' <= MAXFILE * BSIZE
    requires o % BSIZE + (o' - o) <= BSIZE
    requires Bmapped(fs, fs1, n, o / BSIZE, a) && Mapped(fs, n, Max(BlocksFor(fs0.inodes[n].size), BlocksFor(o)))
    requires o == off || o % BSIZE == 0
    requires o % BSIZE + |data| <= BSIZE
    requires LogCount(fs0, fs, n, off, o, D, B)
    ensures LogCount(fs0, PutBytes(fs1, a, o % BSIZE, data), n, off, o', D + {a}, MoreBitmap(fs, n, o / BSIZE, a, B))
  {
    var bn, size := o / BSIZE, fs0.inodes[n].size;
    StepBlocks(o, o' - o, size, off);
    CountArithmetic(o, o', size, off);
    CountSets(fs0, fs, fs1, n, o, o', data, a, D, B);
    assert bn == Max(BlocksFor(size), BlocksFor(o)) <==> Slot(fs, n, DataSlot(bn)) == 0;
  }

  /** A write of at most three blocks' length logs at most ten blocks. */
  lemma CountBound(fs0: Fs, fs: Fs, n: nat, off: nat, len: nat, D: set<nat>, B: set<nat>)
    requires WellFormed(fs) && n < |fs.inodes| && n < |fs0.inodes|
    requires fs0.logged == {} && off <= fs0.inodes[n].size && len <= 3 * BSIZE
    requires LogCount(fs0, fs, n, off, off + len, D, B)
    ensures |fs.logged| <= 9
  {
    var I := if off + len > NDIRECT * BSIZE then IndirectSet(fs, n) else {};
    assert |I| <= 2;
    assert |D| + |B| <= 7;
    UnionSize(D, B);
    UnionSize(D + B, I);
    SubsetSize(fs.logged, D + B + I);
  }

  lemma UnionSize(a: set<nat>, b: set<nat>)
    ensures |a + b| <= |a| + |b|
  {
    assert a + b == a + (b - a);
    SubsetSize(b - a, b);
  }

  // ------------------------------------------------------------------
  // Truncation

  /** `itrunc` frees the direct blocks, then the entries of the indirect block, then the indirect block. */
  function Turn(k: nat): (t: nat) {
    if k < NDIRECT then k else if k == NDIRECT then NSLOTS - 1 else k - 1
  }

  /** Block b is in one of the slots of inode n whose turn comes before t. */
  ghost predicate InSlots(fs: Fs, n: nat, t: nat, b: nat)
    requires WellFormed(fs) && n < |fs.inodes|
  {
    exists k :: 0 <= k < NSLOTS && Slot(fs, n, k) == b && Turn(k) < t
  }

  /** The bits of fs are those of fs0, without the blocks in the first t slots of inode n. */
  ghost predicate Freed(fs0: Fs, fs: Fs, n: nat, t: nat)
    requires WellFormed(fs0) && n < |fs0.inodes|
  {
    && |fs.bitmap| == |fs0.bitmap|
    && forall b :: 0 <= b < |fs.bitmap| ==> (fs.bitmap[b] <==> fs0.bitmap[b] && (b == 0 || !InSlots(fs0, n, t, b)))
  }

  /** The next slot to be freed is empty or holds a block whose bit is still set. */
  lemma FreeStep(fs0: Fs, fs: Fs, n: nat, k: nat)
    requires Owned(fs0) && n < |fs0.inodes| && k < NSLOTS && Freed(fs0, fs, n, Turn(k))
    ensures var b := Slot(fs0, n, k);
            && b < |fs.bitmap|
            && (b == 0 ==> Freed(fs0, fs, n, Turn(k) + 1))
            && (b != 0 ==> fs.bitmap[b] && Freed(fs0, fs.(bitmap := fs.bitmap[b := false]), n, Turn(k) + 1))
  {
    var b := Slot(fs0, n, k);
    forall c | 0 < c < |fs.bitmap| ensures InSlots(fs0, n, Turn(k) + 1, c) <==> c == b || InSlots(fs0, n, Turn(k), c) {
      NextSlot(fs0, n, k, c);
    }
    if b != 0 {
      assert Referenced(fs0, b);
    }
  }

  lemma NextSlot(fs: Fs, n: nat, k: nat, c: nat)
    requires Owned(fs) && n < |fs.inodes| && k < NSLOTS && c > 0
    ensures InSlots(fs, n, Turn(k) + 1, c) <==> c == Slot(fs, n, k) || InSlots(fs, n, Turn(k), c)
    ensures !InSlots(fs, n, Turn(k), Slot(fs, n, k)) || Slot(fs, n, k) == 0
  {
    if InSlots(fs, n, Turn(k) + 1, c) {
      var l :| 0 <= l < NSLOTS && Slot(fs, n, l) == c && Turn(l) < Turn(k) + 1;
      assert Turn(l) == Turn(k) ==> l == k;
    }
    if InSlots(fs, n, Turn(k), c) {
      var l :| 0 <= l < NSLOTS && Slot(fs, n, l) == c && Turn(l) < Turn(k);
      assert Turn(l) < Turn(k) + 1;
    }
  }

  /** The state after `itrunc`, up to the log record. */
  predicate Truncated(fs0: Fs, fs: Fs, n: nat)
    requires WellFormed(fs0) && n < |fs0.inodes|
  {
    && fs.sb == fs0.sb && fs.blocks == fs0.blocks && |fs.dinodes| == |fs0.dinodes|
    && fs.inodes == fs0.inodes[n := fs0.inodes[n].(size := 0, addrs := seq(NDIRECT + 1, i => 0))]
  }

  lemma TruncSlots(fs0: Fs, fs: Fs, n: nat)
    requires WellFormed(fs0) && n < |fs0.inodes| && Truncated(fs0, fs, n) && |fs.bitmap| == |fs0.bitmap|
    ensures WellFormed(fs)
    ensures forall m, l :: 0 <= m < |fs.inodes| && 0 <= l < NSLOTS ==>
              Slot(fs, m, l) == if m == n then 0 else Slot(fs0, m, l)
  {
  }

  lemma TruncKeepsOwned(fs0: Fs, fs: Fs, n: nat)
    requires Owned(fs0) && n < |fs0.inodes| && Truncated(fs0, fs, n) && Freed(fs0, fs, n, NSLOTS)
    ensures Owned(fs)
  {
    TruncSlots(fs0, fs, n);
    forall b | 0 <= b < |fs.bitmap| ensures fs.bitmap[b] <==> b < fs.sb.nmeta || Referenced(fs, b) {
      TruncBit(fs0, fs, n, b);
    }
  }

  lemma TruncBit(fs0: Fs, fs: Fs, n: nat, b: nat)
    requires Owned(fs0) && n < |fs0.inodes| && Truncated(fs0, fs, n) && Freed(fs0, fs, n, NSLOTS) && WellFormed(fs)
    requires forall m, l :: 0 <= m < |fs.inodes| && 0 <= l < NSLOTS ==>
               Slot(fs, m, l) == if m == n then 0 else Slot(fs0, m, l)
    requires b < |fs.bitmap|
    ensures fs.bitmap[b] <==> b < fs.sb.nmeta || Referenced(fs, b)
  {
    if b >= fs.sb.nmeta {
      if fs.bitmap[b] {
        assert Referenced(fs0, b);
        var m, l :| 0 <= m < |fs0.inodes| && 0 <= l < NSLOTS && Slot(fs0, m, l) == b;
        assert Turn(l) < NSLOTS;
        assert Slot(fs, m, l) == b;
      }
      if Referenced(fs, b) {
        var m, l :| 0 <= m < |fs.inodes| && 0 <= l < NSLOTS && Slot(fs, m, l) == b;
        assert Slot(fs0, m, l) == b && m != n;
        assert Referenced(fs0, b);
      }
    }
  }
}
