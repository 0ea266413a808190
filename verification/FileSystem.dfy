/** The block and inode operations, in terms of the logical store that the log provides. */
module FileSystem {
  import opened Basics
  import opened Bitmap
  import opened DiskInode
  import opened FsLayout
  import opened FsSteps

  lemma SameBitmapBlock(sb: Super, b: nat, bi: nat)
    requires b % BPB == 0 && bi < BPB
    ensures BitmapBlock(sb, b) == BitmapBlock(sb, b + bi)
  {
  }

  /** The test for wraparound of a 32-bit sum. */
  lemma WrapTest(a: nat, b: nat)
    requires a < UINT && b < UINT
    ensures (a + b) % UINT < a <==> a + b >= UINT
  {
  }

  /** A sequence of blocks, from block number start on, differs from what it was only in logged blocks. */
  ghost predicate ChangesLogged<T>(before: seq<T>, now: seq<T>, start: nat, logged: set<nat>) {
    |now| == |before| && forall i :: 0 <= i < |now| && now[i] != before[i] ==> start + i in logged
  }

  const T_DEV: nat := 3
  /** Major numbers of devices are below this; as a 16-bit pattern, a negative one is not. */
  const NDEV: nat := 10

  class FileSystem {
    var fs: Fs
    /** The bytes of the bitmap blocks and of the inode blocks. */
    var bits: seq<RawBlock>
    var iblocks: seq<Block>
    /** The same when the current transaction began. */
    ghost var bitsBefore: seq<RawBlock>
    ghost var iblocksBefore: seq<Block>

    /** The bytes say what fs says, and the transaction has logged every block of them that it changed. */
    ghost predicate Synced()
      reads this
    {
      && Shows(bits, fs.bitmap) && Stores(iblocks, fs.dinodes)
      && ChangesLogged(bitsBefore, bits, fs.sb.bmapstart, fs.logged)
      && ChangesLogged(iblocksBefore, iblocks, fs.sb.inodestart, fs.logged)
    }

    /** `begin_op` as far as the file system sees it: nothing is logged yet. */
    method Begin()
      requires Synced()
      modifies this`fs, this`bitsBefore, this`iblocksBefore
      ensures Synced() && fs == old(fs).(logged := {}) && bitsBefore == bits && iblocksBefore == iblocks
    {
      fs := fs.(logged := {});
      bitsBefore, iblocksBefore := bits, iblocks;
    }

    /** `balloc`: the lowest free block; false is the panic on a full disk. */
    method Balloc() returns (ok: bool, r: nat)
      requires WellFormed(fs)
      requires Synced()
      modifies this`fs, this`bits, this`iblocks
      ensures Synced()
      ensures ok ==> r < old(fs).sb.size && !old(fs).bitmap[r] && fs == Alloc(old(fs), r)
      ensures ok ==> forall c :: 0 <= c < r ==> old(fs).bitmap[c]
      ensures ok ==> forall n: nat :: FirstUsed(old(bits), n) ==> r == n
      ensures !ok ==> fs == old(fs) && forall c :: 0 <= c < |fs.bitmap| ==> fs.bitmap[c]
    {
      r := 0;
      var b := 0;
      while b < fs.sb.size
        invariant 0 <= b && b % BPB == 0 && fs == old(fs) && bits == old(bits) && iblocks == old(iblocks)
        invariant forall c :: 0 <= c < b && c < |fs.bitmap| ==> fs.bitmap[c]
      {
        ok, r := SearchBlock(b);
        if ok {
          forall n: nat | FirstUsed(bits, n) ensures r == n {
            LowestFree(bits, fs.bitmap, n, r);
          }
          MarkUsed(b, r - b);
          Bzero(r);
          assert fs == Alloc(old(fs), r);
          return;
        }
        b := b + BPB;
      }
      ok := false;
    }

    /** The inner loop of `balloc`: the bits of one block of the bitmap. */
    method SearchBlock(b: nat) returns (ok: bool, r: nat)
      requires WellFormed(fs) && Synced() && b % BPB == 0 && b < fs.sb.size
      ensures ok ==> b <= r < b + BPB && r < fs.sb.size && !fs.bitmap[r] && forall c :: b <= c < r ==> fs.bitmap[c]
      ensures !ok ==> forall c :: b <= c < b + BPB && c < |fs.bitmap| ==> fs.bitmap[c]
    {
      var bi := 0;
      while bi < BPB && b + bi < fs.sb.size
        invariant 0 <= bi <= BPB
        invariant forall c :: b <= c < b + bi && c < |fs.bitmap| ==> fs.bitmap[c]
      {
        BitInBlock(bits, fs.bitmap, b, bi);
        var m := Mask(bi % 8);
        if bits[b / BPB][bi / 8] & m == 0 {
          return true, b + bi;
        }
        bi := bi + 1;
      }
      return false, 0;
    }

    method MarkUsed(b: nat, bi: nat)
      requires WellFormed(fs) && Synced() && b % BPB == 0 && bi < BPB && b + bi < fs.sb.size
      modifies this`fs, this`bits
      ensures Synced()
      ensures fs == old(fs).(bitmap := old(fs).bitmap[b + bi := true],
                             logged := old(fs).logged + {BitmapBlock(fs.sb, b + bi)})
    {
      SameBitmapBlock(fs.sb, b, bi);
      BitInBlock(bits, fs.bitmap, b, bi);
      SetShows(bits, fs.bitmap, b + bi);
      bits := bits[b / BPB := bits[b / BPB][bi / 8 := bits[b / BPB][bi / 8] | Mask(bi % 8)]];
      fs := fs.(bitmap := fs.bitmap[b + bi := true], logged := fs.logged + {BitmapBlock(fs.sb, b)});
    }

    method Bzero(b: nat)
      requires WellFormed(fs) && b < fs.sb.size
      modifies this`fs
      ensures fs == old(fs).(blocks := old(fs).blocks[b := Zero()], logged := old(fs).logged + {b})
    {
      fs := fs.(blocks := fs.blocks[b := Zero()], logged := fs.logged + {b});
    }

    /** `bfree`: false is the panic on a block that is free already. */
    method Bfree(b: nat) returns (ok: bool)
      requires WellFormed(fs) && b < fs.sb.size
      requires Synced()
      modifies this`fs, this`bits, this`iblocks
      ensures Synced()
      ensures ok == old(fs).bitmap[b]
      ensures fs == if ok then Cleared(old(fs), b) else old(fs)
    {
      var bi := b % BPB;
      BitInBlock(bits, fs.bitmap, b - bi, bi);
      var m := Mask(bi % 8);
      if bits[b / BPB][bi / 8] & m == 0 {
        return false;
      }
      ClearShows(bits, fs.bitmap, b);
      bits := bits[b / BPB := bits[b / BPB][bi / 8 := bits[b / BPB][bi / 8] & !m]];
      fs := fs.(bitmap := fs.bitmap[b := false], logged := fs.logged + {BitmapBlock(fs.sb, b)});
      return true;
    }

    /** `bmap`: the block of file block bn, allocated if there is none; 0 is a panic. */
    method Bmap(n: nat, bn: nat) returns (a: nat)
      requires Owned(fs) && n < |fs.inodes|
      requires Synced()
      modifies this`fs, this`bits, this`iblocks
      ensures Synced()
      ensures a != 0 ==> Bmapped(old(fs), fs, n, bn, a) && Logs(old(fs), fs)
      ensures a == 0 && bn < MAXFILE ==> Slot(old(fs), n, DataSlot(bn)) == 0
      ensures a == 0 && bn < MAXFILE ==> forall c :: 0 <= c < |fs.bitmap| ==> fs.bitmap[c]
    {
      if bn < NDIRECT {
        a := fs.inodes[n].addrs[bn];
        if a != 0 {
          NothingToMap(fs, n, bn);
          return;
        }
        var ok, b := Balloc();
        if !ok {
          return 0;
        }
        MapDirect(old(fs), n, bn, b);
        AllocLogs(old(fs), b, n, bn);
        fs := SetAddr(fs, n, bn, b);
        return b;
      }
      if bn < MAXFILE {
        a := BmapIndirect(n, bn);
        return;
      }
      return 0;
    }

    /** The indirect case of `bmap`: the indirect block is allocated first if need be, then its entry. */
    method BmapIndirect(n: nat, bn: nat) returns (a: nat)
      requires Owned(fs) && n < |fs.inodes| && NDIRECT <= bn < MAXFILE
      requires Synced()
      modifies this`fs, this`bits, this`iblocks
      ensures Synced()
      ensures a != 0 ==> Bmapped(old(fs), fs, n, bn, a) && Logs(old(fs), fs)
      ensures a == 0 ==> Slot(old(fs), n, DataSlot(bn)) == 0
      ensures a == 0 ==> forall c :: 0 <= c < |fs.bitmap| ==> fs.bitmap[c]
    {
      var ok := NeedIndirect(n);
      if !ok {
        return 0;
      }
      a := MapIn(n, bn, old(fs));
    }

    method NeedIndirect(n: nat) returns (ok: bool)
      requires Owned(fs) && n < |fs.inodes|
      requires Synced()
      modifies this`fs, this`bits, this`iblocks
      ensures Synced()
      ensures ok ==> HasIndirect(old(fs), fs, n) && Logs(old(fs), fs)
      ensures !ok ==> Slot(old(fs), n, NDIRECT) == 0 && forall c :: 0 <= c < |fs.bitmap| ==> fs.bitmap[c]
    {
      ok := true;
      if fs.inodes[n].addrs[NDIRECT] == 0 {
        var b;
        ok, b := Balloc();
        if ok {
          MapIndirectBlock(old(fs), n, b);
          AllocLogs(old(fs), b, n, NDIRECT);
          fs := SetAddr(fs, n, NDIRECT, b);
        }
      }
    }

    /** The entry of the indirect block; fs0 is the state before that block was there. */
    method MapIn(n: nat, bn: nat, ghost fs0: Fs) returns (a: nat)
      requires Owned(fs0) && HasIndirect(fs0, fs, n) && Logs(fs0, fs) && NDIRECT <= bn < MAXFILE
      requires Synced()
      modifies this`fs, this`bits, this`iblocks
      ensures Synced()
      ensures a != 0 ==> Bmapped(fs0, fs, n, bn, a) && Logs(fs0, fs)
      ensures a == 0 ==> Slot(fs0, n, DataSlot(bn)) == 0 && forall c :: 0 <= c < |fs.bitmap| ==> fs.bitmap[c]
    {
      EntryIs(fs0, fs, n, bn);
      a := Word(fs.blocks[fs.inodes[n].addrs[NDIRECT]], bn - NDIRECT);
      if a == 0 {
        var ok, b := Balloc();
        if !ok {
          return 0;
        }
        MapEntry(fs0, old(fs), n, bn, b);
        EntryLogs(fs0, old(fs), b, n, bn - NDIRECT);
        fs := SetEntry(fs, n, bn - NDIRECT, b);
        return b;
      }
    }

    /** `readi`: device is what the read function of the inode's device returns, if it has one. */
    method Readi(n: nat, off: nat, cnt: nat, device: Option<(int, seq<byte>)>) returns (r: int, dst: seq<byte>)
      requires Consistent(fs) && n < |fs.inodes| && off < UINT && cnt < UINT
      requires Synced()
      modifies this`fs, this`bits, this`iblocks
      ensures Synced()
      ensures fs == old(fs)
      ensures fs.inodes[n].typ == T_DEV ==>
                (r, dst) == if fs.inodes[n].major < NDEV && device.Some? then device.value else (-1, [])
      ensures fs.inodes[n].typ != T_DEV ==> Reads(fs, n, off, cnt, r, dst)
    {
      if fs.inodes[n].typ == T_DEV {
        if fs.inodes[n].major >= NDEV || device.None? {
          return -1, [];
        }
        return device.value.0, device.value.1;
      }
      r, dst := ReadFile(n, off, cnt);
    }

    /** `readi` on a file: -1 or the number of bytes read; dst receives exactly that slice of the file. */
    method ReadFile(n: nat, off: nat, cnt: nat) returns (r: int, dst: seq<byte>)
      requires Consistent(fs) && n < |fs.inodes| && off < UINT && cnt < UINT
      requires Synced()
      modifies this`fs, this`bits, this`iblocks
      ensures Synced()
      ensures fs == old(fs) && Reads(fs, n, off, cnt, r, dst)
    {
      dst := [];
      var size := fs.inodes[n].size;
      WrapTest(off, cnt);
      if off > size || (off + cnt) % UINT < off {
        return -1, [];
      }
      var len := cnt;
      if off + cnt > size {
        len := size - off;
      }
      dst := ReadRange(n, off, len);
      r := len;
    }

    /** The loop of `readi`. */
    method ReadRange(n: nat, off: nat, len: nat) returns (dst: seq<byte>)
      requires Consistent(fs) && n < |fs.inodes| && off + len <= fs.inodes[n].size
      requires Synced()
      modifies this`fs, this`bits, this`iblocks
      ensures Synced()
      ensures fs == old(fs) && dst == Content(fs, n)[off..off + len]
    {
      dst := [];
      var tot := 0;
      while tot < len
        invariant Synced() && fs == old(fs) && 0 <= tot <= len && dst == Content(fs, n)[off..off + tot]
      {
        var m, bytes := ReadBlock(n, off + tot, off + len);
        SliceJoin(Content(fs, n), off, off + tot, off + tot + m);
        dst, tot := dst + bytes, tot + m;
      }
    }

    /** One iteration of the loop of `readi`; the block is there, so nothing is allocated. */
    method ReadBlock(n: nat, o: nat, end: nat) returns (m: nat, bytes: seq<byte>)
      requires Consistent(fs) && n < |fs.inodes| && o < end <= fs.inodes[n].size
      requires Synced()
      modifies this`fs, this`bits, this`iblocks
      ensures Synced()
      ensures fs == old(fs) && 0 < m <= end - o && bytes == Content(fs, n)[o..o + m]
    {
      m := Chunk(o, end);
      ReadStep(fs, n, o, m);
      var a := Bmap(n, o / BSIZE);
      bytes := fs.blocks[a][o % BSIZE..o % BSIZE + m];
    }

    /** `iupdate`: the in-memory inode goes to disk. */
    method Iupdate(n: nat)
      requires WellFormed(fs) && n < |fs.inodes| && FitsWords(fs.inodes[n])
      requires Synced()
      modifies this`fs, this`iblocks
      ensures Synced()
      ensures fs == old(fs).(dinodes := old(fs).dinodes[n := old(fs).inodes[n]],
                             logged := old(fs).logged + {InodeBlock(fs.sb, n)})
    {
      StoreInode(iblocks, fs.dinodes, n, fs.inodes[n]);
      iblocks := iblocks[n / IPB := PutInode(iblocks[n / IPB], n % IPB, fs.inodes[n])];
      fs := fs.(dinodes := fs.dinodes[n := fs.inodes[n]], logged := fs.logged + {InodeBlock(fs.sb, n)});
    }

    /**
     `itrunc`: frees exactly the blocks of the file.  ok is false on the panic
     "freeing free block", which cannot happen.
     */
    method Itrunc(n: nat) returns (ok: bool)
      requires Consistent(fs) && n < |fs.inodes|
      requires Synced()
      modifies this`fs, this`bits, this`iblocks
      ensures Synced()
      ensures ok && Consistent(fs)
      ensures fs.inodes == old(fs).inodes[n := old(fs).inodes[n].(size := 0, addrs := seq(NDIRECT + 1, i => 0))]
      ensures Freed(old(fs), fs, n, NSLOTS) && Logs(old(fs), fs)
      ensures fs.blocks == old(fs).blocks && fs.sb == old(fs).sb
    {
      ok := FreeDirect(n);
      if ok {
        ok := FreeIndirect(n, old(fs));
      }
      Shrink(n, old(fs));
    }

    /** The end of `itrunc`: the inode without blocks gets size 0. */
    method Shrink(n: nat, ghost fs0: Fs)
      requires Consistent(fs0) && Truncating(fs0, fs, n, NSLOTS)
      requires forall k :: 0 <= k <= NDIRECT ==> fs.inodes[n].addrs[k] == 0
      requires Synced()
      modifies this`fs, this`bits, this`iblocks
      ensures Synced()
      ensures Consistent(fs) && Freed(fs0, fs, n, NSLOTS) && Logs(fs0, fs) && fs.blocks == fs0.blocks && fs.sb == fs0.sb
      ensures fs.inodes == fs0.inodes[n := fs0.inodes[n].(size := 0, addrs := seq(NDIRECT + 1, i => 0))]
    {
      fs := fs.(inodes := fs.inodes[n := fs.inodes[n].(size := 0)]);
      assert fs.inodes[n].addrs == seq(NDIRECT + 1, i => 0);
      TruncConsistent(fs0, fs, n);
      Iupdate(n);
    }

    /** The first loop of `itrunc`. */
    method FreeDirect(n: nat) returns (ok: bool)
      requires Owned(fs) && n < |fs.inodes|
      requires Synced()
      modifies this`fs, this`bits, this`iblocks
      ensures Synced()
      ensures ok && Truncating(old(fs), fs, n, NDIRECT)
      ensures forall k :: 0 <= k < NDIRECT ==> fs.inodes[n].addrs[k] == 0
      ensures fs.inodes[n].addrs[NDIRECT] == old(fs).inodes[n].addrs[NDIRECT]
    {
      ok := true;
      var i := 0;
      while i < NDIRECT
        invariant Synced() && 0 <= i <= NDIRECT && ok && Truncating(old(fs), fs, n, i)
        invariant forall k :: 0 <= k <= NDIRECT ==>
                    fs.inodes[n].addrs[k] == if k < i then 0 else old(fs).inodes[n].addrs[k]
      {
        TruncStep(old(fs), fs, n, i);
        var a := fs.inodes[n].addrs[i];
        if a != 0 {
          ok := Bfree(a);
          fs := SetAddr(fs, n, i, 0);
        }
        i := i + 1;
      }
    }

    /** The rest of `itrunc`: the entries of the indirect block, then the indirect block itself. */
    method FreeIndirect(n: nat, ghost fs0: Fs) returns (ok: bool)
      requires Owned(fs0) && Truncating(fs0, fs, n, NDIRECT)
      requires forall k :: 0 <= k < NDIRECT ==> fs.inodes[n].addrs[k] == 0
      requires fs.inodes[n].addrs[NDIRECT] == fs0.inodes[n].addrs[NDIRECT]
      requires Synced()
      modifies this`fs, this`bits, this`iblocks
      ensures Synced()
      ensures ok && Truncating(fs0, fs, n, NSLOTS)
      ensures forall k :: 0 <= k <= NDIRECT ==> fs.inodes[n].addrs[k] == 0
    {
      ok := true;
      var ind := fs.inodes[n].addrs[NDIRECT];
      if ind == 0 {
        NothingIndirect(fs0, fs, n);
        return;
      }
      ok := FreeEntries(n, ind, fs0);
      TruncStep(fs0, fs, n, NDIRECT);
      ok := Bfree(ind);
      fs := SetAddr(fs, n, NDIRECT, 0);
    }

    method FreeEntries(n: nat, ind: nat, ghost fs0: Fs) returns (ok: bool)
      requires Owned(fs0) && Truncating(fs0, fs, n, NDIRECT) && 0 < ind == fs0.inodes[n].addrs[NDIRECT]
      requires Synced()
      modifies this`fs, this`bits, this`iblocks
      ensures Synced()
      ensures ok && Truncating(fs0, fs, n, NSLOTS - 1) && fs.inodes == old(fs).inodes
    {
      ok := true;
      assert Slot(fs0, n, NDIRECT) < fs0.sb.size;
      var j := 0;
      while j < NINDIRECT
        invariant Synced() && 0 <= j <= NINDIRECT && ok
        invariant Truncating(fs0, fs, n, NDIRECT + j) && fs.inodes == old(fs).inodes
      {
        TruncStep(fs0, fs, n, NDIRECT + 1 + j);
        var a := Word(fs.blocks[ind], j);
        if a != 0 {
          ok := Bfree(a);
        }
        j := j + 1;
      }
    }

    /** `writei`: device is what the write function of the inode's device returns, if it has one. */
    method Writei(n: nat, src: seq<byte>, off: nat, device: Option<int>) returns (ok: bool, r: int)
      requires Consistent(fs) && n < |fs.inodes| && off < UINT && |src| < UINT
      requires Synced()
      modifies this`fs, this`bits, this`iblocks
      ensures Synced()
      ensures old(fs).inodes[n].typ == T_DEV ==>
                ok && fs == old(fs) && r == if fs.inodes[n].major < NDEV && device.Some? then device.value else -1
      ensures old(fs).inodes[n].typ != T_DEV ==> WritesFile(old(fs), fs, n, src, off, ok, r)
    {
      if fs.inodes[n].typ == T_DEV {
        if fs.inodes[n].major >= NDEV || device.None? {
          return true, -1;
        }
        return true, device.value;
      }
      ok, r := WriteFile(n, src, off);
    }

    /** `writei` on a file: -1 or the number of bytes written; ok is false on the panic for want of blocks. */
    method WriteFile(n: nat, src: seq<byte>, off: nat) returns (ok: bool, r: int)
      requires Consistent(fs) && n < |fs.inodes| && off < UINT && |src| < UINT
      requires Synced()
      modifies this`fs, this`bits, this`iblocks
      ensures Synced()
      ensures WritesFile(old(fs), fs, n, src, off, ok, r)
    {
      WrapTest(off, |src|);
      if off > fs.inodes[n].size || (off + |src|) % UINT < off {
        return true, -1;
      }
      if off + |src| > MAXFILE * BSIZE {
        return true, -1;
      }
      ok := WriteRange(n, src, off);
      return ok, |src|;
    }

    /** The loop and the end of `writei`. */
    method WriteRange(n: nat, src: seq<byte>, off: nat) returns (ok: bool)
      requires Consistent(fs) && n < |fs.inodes| && off <= fs.inodes[n].size && off + |src| <= MAXFILE * BSIZE
      requires Synced()
      modifies this`fs, this`bits, this`iblocks
      ensures Synced()
      ensures ok ==> AfterWrite(old(fs), fs, n, off, src) && Logs(old(fs), fs)
      ensures ok && old(fs).logged == {} && |src| <= 3 * BSIZE ==> |fs.logged| <= 10
      ensures !ok ==> forall c :: 0 <= c < |fs.bitmap| ==> fs.bitmap[c]
    {
      WriteStarts(fs, n, off, src);
      ghost var D, B;
      ok, D, B := CopyIn(n, src, off);
      if ok {
        Grow(n, off, |src|, old(fs), src, D, B);
      }
    }

    /** The end of `writei`: a file that grew gets its new size. */
    method Grow(n: nat, off: nat, cnt: nat, ghost fs0: Fs, ghost src: seq<byte>, ghost D: set<nat>, ghost B: set<nat>)
      requires Consistent(fs0) && cnt == |src| && Writing(fs0, fs, n, off, off + cnt, src, D, B)
      requires Synced()
      modifies this`fs, this`bits, this`iblocks
      ensures Synced()
      ensures AfterWrite(fs0, fs, n, off, src) && Logs(fs0, fs)
      ensures fs0.logged == {} && cnt <= 3 * BSIZE ==> |fs.logged| <= 10
    {
      ghost var done := Resized(fs, n, off + cnt);
      WriteEnds(fs0, fs, n, off, src, D, B, done);
      OwnedFits(fs, n, off + cnt);
      SetSize(n, off, cnt);
      assert fs == done;
    }

    method SetSize(n: nat, off: nat, cnt: nat)
      requires WellFormed(fs) && n < |fs.inodes| && FitsWords(fs.inodes[n].(size := off + cnt))
      requires Synced() && off <= fs.inodes[n].size
      modifies this`fs, this`bits, this`iblocks
      ensures Synced()
      ensures fs == Resized(old(fs), n, off + cnt)
    {
      if cnt > 0 && off + cnt > fs.inodes[n].size {
        fs := fs.(inodes := fs.inodes[n := fs.inodes[n].(size := off + cnt)]);
        Iupdate(n);
      }
    }

    /** The loop of `writei`. */
    method CopyIn(n: nat, src: seq<byte>, off: nat) returns (ok: bool, ghost D: set<nat>, ghost B: set<nat>)
      requires Writing(fs, fs, n, off, off, src, {}, {})
      requires Synced()
      modifies this`fs, this`bits, this`iblocks
      ensures Synced()
      ensures ok ==> Writing(old(fs), fs, n, off, off + |src|, src, D, B)
      ensures !ok ==> forall c :: 0 <= c < |fs.bitmap| ==> fs.bitmap[c]
    {
      D, B := {}, {};
      var o := off;
      while o < off + |src|
        invariant Synced() && off <= o <= off + |src|
        invariant Writing(old(fs), fs, n, off, o, src, D, B)
      {
        ok, o, D, B := WriteBlock(n, src, off, o, old(fs), D, B);
        if !ok {
          return;
        }
      }
      ok := true;
    }

    /** One iteration of the loop of `writei`. */
    method WriteBlock(n: nat, src: seq<byte>, off: nat, o: nat, ghost fs0: Fs, ghost D: set<nat>, ghost B: set<nat>)
      returns (ok: bool, o': nat, ghost D': set<nat>, ghost B': set<nat>)
      requires Writing(fs0, fs, n, off, o, src, D, B) && o < off + |src|
      requires Synced()
      modifies this`fs, this`bits, this`iblocks
      ensures Synced()
      ensures ok ==> o < o' <= off + |src| && Writing(fs0, fs, n, off, o', src, D', B')
      ensures !ok ==> forall c :: 0 <= c < |fs.bitmap| ==> fs.bitmap[c]
    {
      var m := Chunk(o, off + |src|);
      o', D', B' := o + m, D, B;
      StepBlocks(o, m, fs0.inodes[n].size, off);
      ghost var fs1 := fs;
      var a := Bmap(n, o / BSIZE);
      if a == 0 {
        ok := false;
        return;
      }
      WritingStep(fs0, fs1, fs, n, off, o, o', src, a, D, B);
      D', B' := D + {a}, MoreBitmap(fs1, n, o / BSIZE, a, B);
      CopyBytes(a, o % BSIZE, src[o - off..o' - off]);
      ok := true;
    }

    method CopyBytes(a: nat, o: nat, data: seq<byte>)
      requires WellFormed(fs) && a < fs.sb.size && o + |data| <= BSIZE
      requires Synced()
      modifies this`fs
      ensures Synced()
      ensures fs == PutBytes(old(fs), a, o, data)
    {
      var b := fs.blocks[a];
      fs := fs.(blocks := fs.blocks[a := b[..o] + data + b[o + |data|..]], logged := fs.logged + {a});
    }
  }

  /** What the indirect block says, which is what its absence said if it is new. */
  lemma EntryIs(fs0: Fs, fs: Fs, n: nat, bn: nat)
    requires Owned(fs0) && HasIndirect(fs0, fs, n) && NDIRECT <= bn < MAXFILE
    ensures fs.inodes[n].addrs[NDIRECT] < |fs.blocks|
    ensures var a := Word(fs.blocks[fs.inodes[n].addrs[NDIRECT]], bn - NDIRECT);
            a == Slot(fs0, n, DataSlot(bn)) && (a != 0 ==> fs == fs0 && Bmapped(fs0, fs, n, bn, a))
  {
    assert Slot(fs, n, NDIRECT) < fs.sb.size;
    assert Slot(fs, n, DataSlot(bn)) == Slot(fs0, n, DataSlot(bn));
    if Slot(fs0, n, DataSlot(bn)) != 0 {
      NothingToMap(fs0, n, bn);
    }
  }

  /** What `readi` returns for a file. */
  ghost predicate Reads(fs: Fs, n: nat, off: nat, cnt: nat, r: int, dst: seq<byte>)
    requires Consistent(fs) && n < |fs.inodes|
  {
    var size := fs.inodes[n].size;
    && (r == -1 <==> off > size || off + cnt >= UINT)
    && (r == -1 ==> dst == [])
    && (r != -1 ==> r == |dst| == (if off + cnt > size then size - off else cnt) && dst == Content(fs, n)[off..off + r])
  }

  /** What `writei` does to a file. */
  ghost predicate WritesFile(fs: Fs, fs': Fs, n: nat, src: seq<byte>, off: nat, ok: bool, r: int)
    requires Consistent(fs) && n < |fs.inodes|
  {
    && (ok ==> (r == -1 <==> off > fs.inodes[n].size || off + |src| > MAXFILE * BSIZE) && Logs(fs, fs'))
    && (ok && r == -1 ==> fs' == fs)
    && (ok && r != -1 ==> r == |src| && AfterWrite(fs, fs', n, off, src))
    && (ok && r != -1 && fs.logged == {} && |src| <= 3 * BSIZE ==> |fs'.logged| <= 10)
    && (!ok ==> forall c :: 0 <= c < |fs'.bitmap| ==> fs'.bitmap[c])
  }

  /** Some of the blocks of inode n are free already; only its addresses may have changed. */
  ghost predicate Truncating(fs0: Fs, fs: Fs, n: nat, t: nat) {
    SameElse(fs0, fs, n) && fs.blocks == fs0.blocks && Freed(fs0, fs, n, t) && Logs(fs0, fs)
  }

  lemma TruncStep(fs0: Fs, fs: Fs, n: nat, k: nat)
    requires Owned(fs0) && k < NSLOTS && Truncating(fs0, fs, n, Turn(k))
    ensures var b := Slot(fs0, n, k);
            && b < |fs.bitmap|
            && (b == 0 ==> Truncating(fs0, fs, n, Turn(k) + 1))
            && (b != 0 ==> fs.bitmap[b] && Truncating(fs0, Cleared(fs, b), n, Turn(k) + 1))
  {
    FreeStep(fs0, fs, n, k);
  }

  lemma NothingIndirect(fs0: Fs, fs: Fs, n: nat)
    requires Truncating(fs0, fs, n, NDIRECT) && fs0.inodes[n].addrs[NDIRECT] == 0
    ensures Truncating(fs0, fs, n, NSLOTS)
  {
    forall b | 0 < b < |fs.bitmap| ensures InSlots(fs0, n, NSLOTS, b) <==> InSlots(fs0, n, NDIRECT, b) {
      if InSlots(fs0, n, NSLOTS, b) {
        var k :| 0 <= k < NSLOTS && Slot(fs0, n, k) == b && Turn(k) < NSLOTS;
        assert k < NDIRECT && Turn(k) < NDIRECT;
      }
    }
  }

  /**
   Once all slots are free and the inode is cleared, the file system is consistent again
   when the inode is on disk.
   */
  lemma TruncConsistent(fs0: Fs, fs: Fs, n: nat)
    requires Consistent(fs0) && n < |fs0.inodes| && Truncated(fs0, fs, n) && Freed(fs0, fs, n, NSLOTS)
    requires fs.dinodes == fs0.dinodes
    ensures Consistent(fs.(dinodes := fs.dinodes[n := fs.inodes[n]], logged := fs.logged + {InodeBlock(fs.sb, n)}))
  {
    var fs' := fs.(dinodes := fs.dinodes[n := fs.inodes[n]], logged := fs.logged + {InodeBlock(fs.sb, n)});
    TruncKeepsOwned(fs0, fs', n);
    TruncSlots(fs0, fs', n);
    forall m | 0 <= m < |fs'.inodes|
      ensures fs'.inodes[m].size <= MAXFILE * BSIZE && Mapped(fs', m, BlocksFor(fs'.inodes[m].size))
    {
      if m != n {
        SameMapped(fs0, fs', m, BlocksFor(fs0.inodes[m].size));
      }
    }
  }

  /** The addresses of an inode are block numbers, which fit a word. */
  lemma OwnedFits(fs: Fs, n: nat, size: nat)
    requires Owned(fs) && n < |fs.inodes| && size < UINT
    ensures FitsWords(fs.inodes[n].(size := size))
  {
    forall i | 0 <= i <= NDIRECT ensures fs.inodes[n].addrs[i] < UINT {
      assert Slot(fs, n, i) == fs.inodes[n].addrs[i];
    }
  }

  lemma WritingStep(fs0: Fs, fs: Fs, fs1: Fs, n: nat, off: nat, o: nat, o': nat, src: seq<byte>, a: nat, D: set<nat>,
                    B: set<nat>)
    requires Writing(fs0, fs, n, off, o, src, D, B)
    requires o < o' <= off + |src| && o % BSIZE + (o' - o) <= BSIZE && (o' % BSIZE == 0 || o' == off + |src|)
    requires Bmapped(fs, fs1, n, o / BSIZE, a) && Logs(fs, fs1)
    ensures Writing(fs0, PutBytes(fs1, a, o % BSIZE, src[o - off..o' - off]), n, off, o', src, D + {a},
                    MoreBitmap(fs, n, o / BSIZE, a, B))
  {
    WriteStep(fs0, fs, fs1, n, off, o, o', src, a);
    CountStep(fs0, fs, fs1, n, off, o, o', src[o - off..o' - off], a, D, B);
    PutLogs(fs0, fs, fs1, a, o % BSIZE, src[o - off..o' - off]);
  }

  lemma PutLogs(fs0: Fs, fs: Fs, fs1: Fs, a: nat, o: nat, data: seq<byte>)
    requires Logs(fs0, fs) && Logs(fs, fs1) && a < fs1.sb.size && o + |data| <= BSIZE
    ensures Logs(fs0, PutBytes(fs1, a, o, data))
  {
    LogsTwice(fs0, fs, fs1);
    LogsTwice(fs0, fs1, PutBytes(fs1, a, o, data));
  }

  /** The loop of `writei` has written up to offset o, and logged the blocks that D and B account for. */
  ghost predicate Writing(fs0: Fs, fs: Fs, n: nat, off: nat, o: nat, src: seq<byte>, D: set<nat>, B: set<nat>) {
    && Written(fs0, fs, n, off, o, src)
    && LogCount(fs0, fs, n, off, o, D, B) && Logs(fs0, fs)
    && off <= fs0.inodes[n].size
    && (o == off || o % BSIZE == 0 || o == off + |src|)
  }

  lemma ReadStep(fs: Fs, n: nat, o: nat, m: nat)
    requires Consistent(fs) && n < |fs.inodes| && 0 < m && o + m <= fs.inodes[n].size && o % BSIZE + m <= BSIZE
    ensures o / BSIZE < MAXFILE
    ensures 0 < Slot(fs, n, DataSlot(o / BSIZE)) < fs.sb.size
    ensures fs.blocks[Slot(fs, n, DataSlot(o / BSIZE))][o % BSIZE..o % BSIZE + m] == Content(fs, n)[o..o + m]
  {
    assert Mapped(fs, n, BlocksFor(fs.inodes[n].size));
    assert o / BSIZE < BlocksFor(fs.inodes[n].size);
    BlockSlice(fs, n, o, m);
  }

  lemma SliceJoin<T>(s: seq<T>, a: nat, b: nat, c: nat)
    requires a <= b <= c <= |s|
    ensures s[a..b] + s[b..c] == s[a..c]
  {
  }

  /** fs' is fs with src written to file n at offset off, and nothing else changed. */
  ghost predicate AfterWrite(fs: Fs, fs': Fs, n: nat, off: nat, src: seq<byte>)
    requires Consistent(fs) && n < |fs.inodes| && off <= fs.inodes[n].size
  {
    && Consistent(fs') && fs'.sb == fs.sb && |fs'.inodes| == |fs.inodes|
    && Content(fs', n) == Splice(Content(fs, n), off, src)
    && fs'.inodes[n] == fs.inodes[n].(size := fs'.inodes[n].size, addrs := fs'.inodes[n].addrs)
    && forall m :: 0 <= m < |fs.inodes| && m != n ==> fs'.inodes[m] == fs.inodes[m] && Content(fs', m) == Content(fs, m)
  }

  lemma WriteStarts(fs: Fs, n: nat, off: nat, src: seq<byte>)
    requires Consistent(fs) && n < |fs.inodes| && off <= fs.inodes[n].size && off + |src| <= MAXFILE * BSIZE
    ensures Writing(fs, fs, n, off, off, src, {}, {})
  {
    assert BlocksFor(off) <= BlocksFor(fs.inodes[n].size);
  }

  /** The state once the size of the file is brought up to date after the copy loop. */
  function Resized(fs: Fs, n: nat, o: nat): (fs': Fs)
    requires WellFormed(fs) && n < |fs.inodes|
    ensures WellFormed(fs')
  {
    if o > fs.inodes[n].size then
      var ip := fs.inodes[n].(size := o);
      fs.(inodes := fs.inodes[n := ip], dinodes := fs.dinodes[n := ip], logged := fs.logged + {InodeBlock(fs.sb, n)})
    else fs
  }

  /** The result of the copy loop, with the size brought up to date, is the state after the write. */
  lemma WriteEnds(fs0: Fs, fs: Fs, n: nat, off: nat, src: seq<byte>, D: set<nat>, B: set<nat>, fs': Fs)
    requires Consistent(fs0) && Writing(fs0, fs, n, off, off + |src|, src, D, B) && fs' == Resized(fs, n, off + |src|)
    ensures AfterWrite(fs0, fs', n, off, src) && Logs(fs0, fs')
    ensures fs0.logged == {} && |src| <= 3 * BSIZE ==> |fs'.logged| <= 10
  {
    if fs0.logged == {} && |src| <= 3 * BSIZE {
      CountBound(fs0, fs, n, off, |src|, D, B);
    }
    LogsTwice(fs0, fs, fs');
    ResizedConsistent(fs0, fs, n, off, src);
    ResizedContent(fs0, fs, n, off, src);
    ResizedOthers(fs0, fs, n, off, src);
  }

  lemma ResizedContent(fs0: Fs, fs: Fs, n: nat, off: nat, src: seq<byte>)
    requires WellFormed(fs0) && n < |fs0.inodes| && off <= fs0.inodes[n].size
    requires Written(fs0, fs, n, off, off + |src|, src)
    ensures var fs' := Resized(fs, n, off + |src|);
            fs'.inodes[n].size <= MAXFILE * BSIZE && Content(fs', n) == Splice(Content(fs0, n), off, src)
  {
    var fs' := Resized(fs, n, off + |src|);
    var x, y := Content(fs', n), Splice(Content(fs0, n), off, src);
    forall i | 0 <= i < |x| ensures x[i] == y[i] {
      ResizedByte(fs, n, off + |src|, n, i);
      ContentAt(fs', n, i);
      if i < fs0.inodes[n].size {
        ContentAt(fs0, n, i);
      }
      assert ByteAt(fs, n, i) == if off <= i < off + |src| then src[i - off] else ByteAt(fs0, n, i);
    }
  }

  lemma ResizedOthers(fs0: Fs, fs: Fs, n: nat, off: nat, src: seq<byte>)
    requires WellFormed(fs0) && NoHoles(fs0) && n < |fs0.inodes|
    requires Written(fs0, fs, n, off, off + |src|, src)
    ensures var fs' := Resized(fs, n, off + |src|);
            forall m :: 0 <= m < |fs.inodes| && m != n ==>
              && fs'.inodes[m] == fs0.inodes[m] && fs0.inodes[m].size <= MAXFILE * BSIZE
              && Content(fs', m) == Content(fs0, m)
  {
    var fs' := Resized(fs, n, off + |src|);
    forall m | 0 <= m < |fs.inodes| && m != n
      ensures fs'.inodes[m] == fs0.inodes[m] && fs0.inodes[m].size <= MAXFILE * BSIZE
      ensures Content(fs', m) == Content(fs0, m)
    {
      assert fs0.inodes[m].size <= MAXFILE * BSIZE;
      forall i | 0 <= i < fs0.inodes[m].size ensures ByteAt(fs', m, i) == ByteAt(fs0, m, i) {
        ResizedByte(fs, n, off + |src|, m, i);
      }
      SameFirstBytes(fs0, fs', m, fs0.inodes[m].size);
    }
  }

  lemma ResizedByte(fs: Fs, n: nat, o: nat, m: nat, i: nat)
    requires WellFormed(fs) && n < |fs.inodes| && m < |fs.inodes| && i < MAXFILE * BSIZE
    ensures ByteAt(Resized(fs, n, o), m, i) == ByteAt(fs, m, i)
    ensures forall l :: 0 <= l < NSLOTS ==> Slot(Resized(fs, n, o), m, l) == Slot(fs, m, l)
  {
  }

  lemma ResizedConsistent(fs0: Fs, fs: Fs, n: nat, off: nat, src: seq<byte>)
    requires Consistent(fs0) && n < |fs0.inodes| && off <= fs0.inodes[n].size
    requires Written(fs0, fs, n, off, off + |src|, src)
    ensures Consistent(Resized(fs, n, off + |src|))
  {
    var o := off + |src|;
    var fs' := Resized(fs, n, o);
    forall m, l | 0 <= m < |fs.inodes| && 0 <= l < NSLOTS ensures Slot(fs', m, l) == Slot(fs, m, l) {
      ResizedByte(fs, n, o, m, 0);
    }
    SameSlotsOwned(fs, fs');
    forall m | 0 <= m < |fs.inodes|
      ensures fs'.inodes[m].size <= MAXFILE * BSIZE && Mapped(fs', m, BlocksFor(fs'.inodes[m].size))
    {
      if m == n {
        BlocksMonotone(fs0.inodes[n].size, o);
        SameMapped(fs, fs', n, Max(BlocksFor(fs0.inodes[n].size), BlocksFor(o)));
      } else {
        SameMapped(fs0, fs', m, BlocksFor(fs0.inodes[m].size));
      }
    }
  }

  lemma BlocksMonotone(a: nat, b: nat)
    ensures a <= b ==> BlocksFor(a) <= BlocksFor(b)
    ensures b <= a ==> BlocksFor(b) <= BlocksFor(a)
  {
  }
}
