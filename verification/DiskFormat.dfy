/**
 The file system on disk, byte by byte: where the bit of a block, the fields of an inode
 and the bytes of a file are found.
 */
module DiskFormat {
  import opened Basics
  import opened FsLayout
  import opened FileOps
  import opened FileRuns
  import opened DiskInode
  import Bits = Bitmap
  import Disks = BlockStore

  /** The bitmap is one string of bits from block bmapstart on, in each byte the lowest bit first. */
  lemma BitOn(d: Disks.Disk, fs: Fs, b: nat)
    requires Decodes(d, fs) && b < fs.sb.size && fs.sb.bmapstart + b / 4096 < |d|
    ensures fs.bitmap[b] <==>
            BytesOf(d[fs.sb.bmapstart + b / 4096])[b % 4096 / 8] as nat / Bits.Pow2(b % 8) % 2 == 1
  {
    var bno := BitmapBlock(fs.sb, b);
    assert BlockShows(BytesOf(d[bno]), bno, Config(fs, map[], []));
    assert !InHand(Config(fs, map[], []), b);
  }

  /** The bytes of block r from a on are those of inode ip, in the order of struct dinode. */
  predicate IsInode(r: Block, a: nat, ip: Inode) {
    && a + 64 <= 512 && |ip.addrs| == 13
    && ip.typ == Short(r, a) && ip.major == Short(r, a + 2) && ip.minor == Short(r, a + 4)
    && ip.nlink == Short(r, a + 6) && ip.size == Long(r, a + 8)
    && forall k :: 0 <= k < 13 ==> ip.addrs[k] == Long(r, a + 12 + 4 * k)
  }

  /** The inodes are one array of 64 bytes each, eight in a block, from block inodestart on. */
  lemma InodeOn(d: Disks.Disk, fs: Fs, n: nat)
    requires Decodes(d, fs) && n < |fs.dinodes| && fs.sb.inodestart + n / 8 < |d|
    ensures IsInode(BytesOf(d[fs.sb.inodestart + n / 8]), 64 * (n % 8), fs.dinodes[n])
  {
    var bno := InodeBlock(fs.sb, n);
    assert BlockShows(BytesOf(d[bno]), bno, Config(fs, map[], []));
    InodeBytes(BytesOf(d[bno]), n % IPB);
  }

  /**
   The block of file block bn of the inode at byte a of block r: one of the first twelve
   addresses of the inode, or an entry of the block that the thirteenth names.
   */
  function BlockOn(d: Disks.Disk, r: Block, a: nat, bn: nat): (b: nat)
    requires a + 64 <= 512 && bn < 140
  {
    if bn < 12 then Long(r, a + 12 + 4 * bn)
    else if Long(r, a + 60) < |d| then Long(BytesOf(d[Long(r, a + 60)]), 4 * (bn - 12))
    else 0
  }

  /** Byte i of a file is byte i % 512 of its file block i / 512. */
  lemma FileByteOn(d: Disks.Disk, fs: Fs, n: nat, i: nat)
    requires Decodes(d, fs) && Consistent(fs) && n < |fs.inodes| && fs.sb.inodestart + n / 8 < |d|
    requires i < fs.inodes[n].size
    ensures fs.inodes[n].size <= 140 * 512 && i / 512 < 140
    ensures var b := BlockOn(d, BytesOf(d[fs.sb.inodestart + n / 8]), 64 * (n % 8), i / 512);
            0 < b < |d| && Content(fs, n)[i] == BytesOf(d[b])[i % 512]
  {
    InodeOn(d, fs, n);
    HasBlock(fs, n, i);
    ContentAt(fs, n, i);
    SlotOn(d, fs, n, i / BSIZE, BytesOf(d[fs.sb.inodestart + n / 8]), 64 * (n % 8));
    DataBlockOn(d, fs, Slot(fs, n, DataSlot(i / BSIZE)));
  }

  lemma HasBlock(fs: Fs, n: nat, i: nat)
    requires Consistent(fs) && n < |fs.inodes| && i < fs.inodes[n].size
    ensures i / BSIZE < MAXFILE && 0 < fs.sb.nmeta <= Slot(fs, n, DataSlot(i / BSIZE)) < fs.sb.size
  {
    assert Mapped(fs, n, BlocksFor(fs.inodes[n].size));
  }

  lemma DataBlockOn(d: Disks.Disk, fs: Fs, b: nat)
    requires Decodes(d, fs) && fs.sb.nmeta <= b < fs.sb.size
    ensures b < |d| && BytesOf(d[b]) == fs.blocks[b]
  {
    assert BlockShows(BytesOf(d[b]), b, Config(fs, map[], []));
  }

  lemma SlotOn(d: Disks.Disk, fs: Fs, n: nat, bn: nat, r: Block, a: nat)
    requires Decodes(d, fs) && Consistent(fs) && n < |fs.inodes| && bn < MAXFILE
    requires IsInode(r, a, fs.inodes[n]) && Slot(fs, n, DataSlot(bn)) != 0
    ensures Slot(fs, n, DataSlot(bn)) == BlockOn(d, r, a, bn)
  {
    if bn >= 12 {
      var ind := Slot(fs, n, NDIRECT);
      assert ind == Long(r, a + 12 + 4 * 12);
      DataBlockOn(d, fs, ind);
      WordBytes(fs.blocks[ind], bn - 12);
    }
  }
}
