/**
 The file system above the log: the block bitmap, the inodes with their direct and
 indirect block addresses, and the bytes of a file.
 */
module FsLayout {
  import opened Basics

  const BSIZE: nat := 512
  const NDIRECT: nat := 12
  const NINDIRECT: nat := 128
  const MAXFILE: nat := 140
  /** Bitmap bits and inodes per block. */
  const BPB: nat := 4096
  const IPB: nat := 8
  const UINT: nat := 0x1_0000_0000

  type Block = b: seq<byte> | |b| == 512 witness seq(512, i => 0 as byte)

  function Zero(): (b: Block)
    ensures forall i :: 0 <= i < 512 ==> b[i] == 0
  {
    seq(512, i => 0 as byte)
  }

  // ------------------------------------------------------------------
  // Words of an indirect block, little-endian

  function Word(b: Block, j: nat): (w: nat)
    requires j < NINDIRECT
    ensures w < UINT
  {
    var (b0: int, b1: int, b2: int, b3: int) := (b[4 * j], b[4 * j + 1], b[4 * j + 2], b[4 * j + 3]);
    b0 + 0x100 * b1 + 0x1_0000 * b2 + 0x100_0000 * b3
  }

  function SetWord(b: Block, j: nat, v: nat): (r: Block)
    requires j < NINDIRECT && v < UINT
  {
    b[4 * j := v % 0x100][4 * j + 1 := v / 0x100 % 0x100]
     [4 * j + 2 := v / 0x1_0000 % 0x100][4 * j + 3 := v / 0x100_0000]
  }

  lemma WordOfSet(b: Block, j: nat, v: nat, i: nat)
    requires j < NINDIRECT && i < NINDIRECT && v < UINT
    ensures Word(SetWord(b, j, v), i) == if i == j then v else Word(b, i)
  {
    if i == j {
      Bytes(v);
    }
  }

  lemma Bytes(v: nat)
    requires v < UINT
    ensures v % 0x100 + 0x100 * (v / 0x100 % 0x100) + 0x1_0000 * (v / 0x1_0000 % 0x100)
            + 0x100_0000 * (v / 0x100_0000) == v
  {
  }

  // ------------------------------------------------------------------
  // State

  type ushort = x: nat | x < 0x1_0000

  /** addrs[NDIRECT] is the indirect block. */
  datatype Inode = Inode(typ: ushort, major: ushort, minor: ushort, nlink: ushort, size: nat, addrs: seq<nat>)

  /** Blocks below nmeta hold the boot block, super block, log, inodes and bitmap. */
  datatype Super = Super(size: nat, nmeta: nat, inodestart: nat, bmapstart: nat)

  /**
   bitmap[b] is the bit of block b; inodes are the in-memory copies and dinodes
   those on disk; logged is the set of blocks logged by the current transaction.
   */
  datatype Fs = Fs(sb: Super, bitmap: seq<bool>, blocks: seq<Block>, inodes: seq<Inode>, dinodes: seq<Inode>,
                   logged: set<nat>)

  function BitmapBlock(sb: Super, b: nat): nat {
    b / BPB + sb.bmapstart
  }

  function InodeBlock(sb: Super, inum: nat): nat {
    inum / IPB + sb.inodestart
  }

  predicate WellFormed(fs: Fs) {
    && |fs.bitmap| == |fs.blocks| == fs.sb.size < UINT
    && 0 < fs.sb.nmeta <= fs.sb.size
    && |fs.dinodes| == |fs.inodes|
    && (forall n :: 0 <= n < |fs.inodes| ==> |fs.inodes[n].addrs| == NDIRECT + 1)
  }

  // ------------------------------------------------------------------
  // Block references

  /** Slots of an inode: 0..11 direct, 12 the indirect block, 13.. the entries of the indirect block. */
  const NSLOTS: nat := 141

  function Slot(fs: Fs, n: nat, k: nat): (b: nat)
    requires WellFormed(fs) && n < |fs.inodes| && k < NSLOTS
  {
    if k <= NDIRECT then fs.inodes[n].addrs[k]
    else if 0 < fs.inodes[n].addrs[NDIRECT] < |fs.blocks| then
      Word(fs.blocks[fs.inodes[n].addrs[NDIRECT]], k - NDIRECT - 1)
    else 0
  }

  /** The slot of the bn-th block of a file. */
  function DataSlot(bn: nat): (k: nat)
    requires bn < MAXFILE
    ensures k < NSLOTS && k != NDIRECT
  {
    if bn < NDIRECT then bn else bn + 1
  }

  ghost predicate Referenced(fs: Fs, b: nat)
    requires WellFormed(fs)
  {
    exists n, k :: 0 <= n < |fs.inodes| && 0 <= k < NSLOTS && Slot(fs, n, k) == b
  }

  /** Slots hold data blocks or nothing. */
  predicate InRange(fs: Fs)
    requires WellFormed(fs)
  {
    forall n, k :: 0 <= n < |fs.inodes| && 0 <= k < NSLOTS ==>
      Slot(fs, n, k) == 0 || fs.sb.nmeta <= Slot(fs, n, k) < fs.sb.size
  }

  /** No block is in two slots. */
  predicate Exclusive(fs: Fs)
    requires WellFormed(fs)
  {
    forall n, k, n', k' | 0 <= n < |fs.inodes| && 0 <= k < NSLOTS && 0 <= n' < |fs.inodes| && 0 <= k' < NSLOTS ::
      Slot(fs, n, k) == Slot(fs, n', k') != 0 ==> n == n' && k == k'
  }

  /** A bit is set exactly for the metadata blocks and the referenced blocks. */
  ghost predicate Accounted(fs: Fs)
    requires WellFormed(fs)
  {
    forall b :: 0 <= b < |fs.bitmap| ==> (fs.bitmap[b] <==> b < fs.sb.nmeta || Referenced(fs, b))
  }

  /** Block ownership. */
  ghost predicate Owned(fs: Fs) {
    WellFormed(fs) && InRange(fs) && Exclusive(fs) && Accounted(fs)
  }

  // ------------------------------------------------------------------
  // Files

  function BlocksFor(size: nat): (n: nat) {
    (size + BSIZE - 1) / BSIZE
  }

  /** The file has blocks for its first nb block numbers and for no others. */
  predicate Mapped(fs: Fs, n: nat, nb: nat)
    requires WellFormed(fs) && n < |fs.inodes|
  {
    && nb <= MAXFILE
    && (forall bn :: 0 <= bn < MAXFILE ==> (Slot(fs, n, DataSlot(bn)) != 0 <==> bn < nb))
    && (Slot(fs, n, NDIRECT) != 0 <==> nb > NDIRECT)
  }

  predicate NoHoles(fs: Fs)
    requires WellFormed(fs)
  {
    forall n :: 0 <= n < |fs.inodes| ==>
      fs.inodes[n].size <= MAXFILE * BSIZE && Mapped(fs, n, BlocksFor(fs.inodes[n].size))
  }

  /** Between operations: blocks are owned, files have no holes, and the inodes on disk are up to date. */
  ghost predicate Consistent(fs: Fs) {
    Owned(fs) && NoHoles(fs) && fs.dinodes == fs.inodes
  }

  /** Byte i of the blocks of a file; 0 where it has no block. */
  function ByteAt(fs: Fs, n: nat, i: nat): (c: byte)
    requires WellFormed(fs) && n < |fs.inodes| && i < MAXFILE * BSIZE
  {
    var b := Slot(fs, n, DataSlot(i / BSIZE));
    if 0 < b < |fs.blocks| then fs.blocks[b][i % BSIZE] else 0
  }

  /** A file is a byte sequence. */
  function Content(fs: Fs, n: nat): (s: seq<byte>)
    requires WellFormed(fs) && n < |fs.inodes| && fs.inodes[n].size <= MAXFILE * BSIZE
    ensures |s| == fs.inodes[n].size
  {
    FirstBytes(fs, n, fs.inodes[n].size)
  }

  function FirstBytes(fs: Fs, n: nat, len: nat): (s: seq<byte>)
    requires WellFormed(fs) && n < |fs.inodes| && len <= MAXFILE * BSIZE
    ensures |s| == len
  {
    if len == 0 then [] else FirstBytes(fs, n, len - 1) + [ByteAt(fs, n, len - 1)]
  }

  lemma {:induction false} FirstBytesAt(fs: Fs, n: nat, len: nat, i: nat)
    requires WellFormed(fs) && n < |fs.inodes| && i < len <= MAXFILE * BSIZE
    ensures FirstBytes(fs, n, len)[i] == ByteAt(fs, n, i)
  {
    if i < len - 1 {
      FirstBytesAt(fs, n, len - 1, i);
    }
  }

  lemma ContentAt(fs: Fs, n: nat, i: nat)
    requires WellFormed(fs) && n < |fs.inodes| && i < fs.inodes[n].size <= MAXFILE * BSIZE
    ensures Content(fs, n)[i] == ByteAt(fs, n, i)
  {
    FirstBytesAt(fs, n, fs.inodes[n].size, i);
  }

  lemma {:induction false} SameFirstBytes(fs: Fs, fs': Fs, n: nat, len: nat)
    requires WellFormed(fs) && WellFormed(fs') && n < |fs.inodes| && n < |fs'.inodes| && len <= MAXFILE * BSIZE
    requires forall i :: 0 <= i < len ==> ByteAt(fs', n, i) == ByteAt(fs, n, i)
    ensures FirstBytes(fs', n, len) == FirstBytes(fs, n, len)
  {
    if len > 0 {
      SameFirstBytes(fs, fs', n, len - 1);
    }
  }

  /** s with data written over it at offset off, extended if need be. */
  function Splice(s: seq<byte>, off: nat, data: seq<byte>): (r: seq<byte>)
    requires off <= |s|
    ensures |r| == if off + |data| > |s| then off + |data| else |s|
  {
    s[..off] + data + if off + |data| < |s| then s[off + |data|..] else []
  }
}
