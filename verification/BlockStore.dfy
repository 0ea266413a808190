/**
 The disk as the file system sees it: blocks, block writes, and the view that
 the buffer cache gives of them.  A block is 512 bytes, kept here as its 128
 words.  The cache pins a block that has been logged but not yet committed;
 every other block reads as it is on disk.
 */
module BlockStore {

  const WORDS: nat := 128

  type Block = b: seq<nat> | |b| == 128 witness seq(128, i => 0)

  type Disk = seq<Block>

  /** One block transfer to the disk; the transfer of a single block is atomic. */
  datatype Write = Write(bno: nat, data: Block)

  function Put(d: Disk, w: Write): (r: Disk)
    ensures |r| == |d|
  {
    if w.bno < |d| then d[w.bno := w.data] else d
  }

  /** The disk after a sequence of block writes, in order. */
  function Apply(d: Disk, ws: seq<Write>): (r: Disk)
    ensures |r| == |d|
  {
    if ws == [] then d else Put(Apply(d, ws[..|ws| - 1]), ws[|ws| - 1])
  }

  lemma ApplySnoc(d: Disk, ws: seq<Write>, w: Write)
    ensures Apply(d, ws + [w]) == Put(Apply(d, ws), w)
  {
    assert (ws + [w])[..|ws|] == ws;
  }

  lemma {:induction false} ApplyConcat(d: Disk, a: seq<Write>, b: seq<Write>)
    ensures Apply(d, a + b) == Apply(Apply(d, a), b)
    decreases |b|
  {
    if b == [] {
      assert a + b == a;
    } else {
      var b', w := b[..|b| - 1], b[|b| - 1];
      assert a + b == (a + b') + [w];
      ApplySnoc(d, a + b', w);
      ApplyConcat(d, a, b');
    }
  }

  /** Disk contents plus the pinned buffers of the cache. */
  datatype Store = Store(disk: Disk, pinned: map<nat, Block>) {

    predicate Valid() {
      forall b <- pinned :: b < |disk|
    }

    /** What `bread` returns: the pinned buffer if there is one, else the disk block. */
    function Read(b: nat): Block
      requires b < |disk|
    {
      if b in pinned then pinned[b] else disk[b]
    }

    /** `bwrite`: the block reaches the disk and its buffer is clean again. */
    function WriteThrough(b: nat, v: Block): Store
      requires b < |disk|
    {
      Store(disk[b := v], pinned - {b})
    }

    /** `log_write`: the buffer is modified and pinned; the disk is untouched. */
    function Pin(b: nat, v: Block): Store
      requires b < |disk|
    {
      Store(disk, pinned[b := v])
    }
  }
}
