/** `filewrite`: a write to a file, cut into transactions that each fit the log. */
module FileWrite {
  import opened Basics
  import opened FsLayout
  import opened FsSteps
  import opened FileSystem
  import Log

  /**
   The most bytes written in one transaction: there is room for the inode, the
   indirect block and its bitmap block, and two blocks of slop.
   */
  const MAXWRITE: nat := (Log.MAXOPBLOCKS - 1 - 1 - 2) / 2 * BSIZE

  lemma MaxWriteIs()
    ensures MAXWRITE == 1536
  {
  }

  lemma SpliceTwice(s: seq<byte>, off: nat, a: seq<byte>, b: seq<byte>)
    requires off <= |s|
    ensures off + |a| <= |Splice(s, off, a)|
    ensures Splice(Splice(s, off, a), off + |a|, b) == Splice(s, off, a + b)
  {
    var x, y := Splice(Splice(s, off, a), off + |a|, b), Splice(s, off, a + b);
    assert |x| == |y|;
    forall i | 0 <= i < |x| ensures x[i] == y[i] {
    }
  }

  /** Two writes, the second right after the first, are one write. */
  lemma WriteTwice(fs0: Fs, fs1: Fs, fs2: Fs, n: nat, off: nat, a: seq<byte>, b: seq<byte>)
    requires Consistent(fs0) && n < |fs0.inodes| && off <= fs0.inodes[n].size && AfterWrite(fs0, fs1, n, off, a)
    requires off + |a| <= fs1.inodes[n].size && AfterWrite(fs1, fs2, n, off + |a|, b)
    ensures AfterWrite(fs0, fs2, n, off, a + b)
  {
    SpliceTwice(Content(fs0, n), off, a, b);
  }

  lemma LogRecordOnly(fs: Fs, fs': Fs)
    requires Consistent(fs) && fs' == fs.(logged := fs'.logged)
    ensures Consistent(fs')
    ensures forall m :: 0 <= m < |fs.inodes| ==>
              fs.inodes[m].size <= MAXFILE * BSIZE && Content(fs', m) == Content(fs, m)
  {
    forall m, l | 0 <= m < |fs.inodes| && 0 <= l < NSLOTS ensures Slot(fs', m, l) == Slot(fs, m, l) {
    }
    SameSlotsOwned(fs, fs');
    forall m | 0 <= m < |fs.inodes|
      ensures fs.inodes[m].size <= MAXFILE * BSIZE && Mapped(fs', m, BlocksFor(fs'.inodes[m].size))
      ensures Content(fs', m) == Content(fs, m)
    {
      SameMapped(fs, fs', m, BlocksFor(fs.inodes[m].size));
      SameFirstBytes(fs, fs', m, fs.inodes[m].size);
    }
  }

  /** The state when `filewrite` has written the first i bytes. */
  ghost predicate Progress(fs0: Fs, fs: Fs, n: nat, off: nat, data: seq<byte>, i: nat)
    requires Consistent(fs0) && n < |fs0.inodes| && i <= |data|
  {
    && Consistent(fs) && |fs.inodes| == |fs0.inodes|
    && (off > fs0.inodes[n].size ==> i == 0 && fs == fs0.(logged := fs.logged))
    && (off <= fs0.inodes[n].size ==> AfterWrite(fs0, fs, n, off, data[..i]))
  }

  lemma ProgressStarts(fs0: Fs, n: nat, off: nat, data: seq<byte>)
    requires Consistent(fs0) && n < |fs0.inodes|
    ensures Progress(fs0, fs0, n, off, data, 0)
  {
    if off <= fs0.inodes[n].size {
      assert Splice(Content(fs0, n), off, []) == Content(fs0, n);
      assert data[..0] == [];
    }
  }

  lemma ProgressNewLog(fs0: Fs, fs: Fs, fs': Fs, n: nat, off: nat, data: seq<byte>, i: nat)
    requires Consistent(fs0) && n < |fs0.inodes| && i <= |data| && Progress(fs0, fs, n, off, data, i)
    requires fs' == fs.(logged := fs'.logged)
    ensures Progress(fs0, fs', n, off, data, i)
  {
    LogRecordOnly(fs, fs');
  }

  /** The next write starts within the file exactly if the first one did. */
  lemma ProgressSize(fs0: Fs, fs: Fs, n: nat, off: nat, data: seq<byte>, i: nat)
    requires Consistent(fs0) && n < |fs0.inodes| && i <= |data| && Progress(fs0, fs, n, off, data, i)
    ensures off + i > fs.inodes[n].size <==> off > fs0.inodes[n].size
    ensures fs.inodes[n].typ == fs0.inodes[n].typ
  {
  }

  lemma ProgressStep(fs0: Fs, fs: Fs, fs': Fs, n: nat, off: nat, data: seq<byte>, i: nat, j: nat)
    requires Consistent(fs0) && n < |fs0.inodes| && i <= j <= |data| && Progress(fs0, fs, n, off, data, i)
    requires off + i <= fs.inodes[n].size && off <= fs0.inodes[n].size && AfterWrite(fs, fs', n, off + i, data[i..j])
    ensures Progress(fs0, fs', n, off, data, j)
  {
    WriteTwice(fs0, fs, fs', n, off, data[..i], data[i..j]);
    PrefixJoin(data, i, j);
  }

  lemma PrefixJoin<T>(s: seq<T>, i: nat, j: nat)
    requires i <= j <= |s|
    ensures s[..i] + s[i..j] == s[..j]
  {
  }

  /** What a transaction that writes the bytes from position i to j does to the file. */
  lemma BytesWritten(fs0: Fs, fs: Fs, fs': Fs, n: nat, off: nat, data: seq<byte>, i: nat, j: nat, ok: bool, r: int)
    requires Consistent(fs0) && n < |fs0.inodes| && i <= j <= |data| && j - i <= 3 * BSIZE
    requires Progress(fs0, fs, n, off, data, i) && fs.logged == {}
    requires WritesFile(fs, fs', n, data[i..j], off + i, ok, r)
    ensures ok ==> |fs'.logged| <= 10
    ensures ok && r == -1 ==> Progress(fs0, fs', n, off, data, i)
    ensures ok && r != -1 ==> r == j - i && Progress(fs0, fs', n, off, data, j)
    ensures ok ==> (r == -1 <==> off > fs0.inodes[n].size || off + j > MAXFILE * BSIZE)
  {
    ProgressSize(fs0, fs, n, off, data, i);
    if ok && r != -1 {
      ProgressStep(fs0, fs, fs', n, off, data, i, j);
    }
  }

  // ------------------------------------------------------------------
  // Transactions

  /** fs' is the result of a transaction that starts in fs and fits its reservation in the log. */
  predicate IsTransaction(fs: Fs, fs': Fs) {
    Logs(fs.(logged := {}), fs') && |fs'.logged| <= Log.MAXOPBLOCKS
  }

  /** The bytes that are written after k transactions of at most `max` bytes, out of p. */
  function Position(k: nat, max: nat, p: nat): (i: nat)
    ensures i <= p
  {
    if k == 0 then 0
    else
      var i := Position(k - 1, max, p);
      if p - i > max then i + max else p
  }

  lemma {:induction false} PositionIs(k: nat, p: nat)
    ensures Position(k, MAXWRITE, p) == if k * 1536 < p then k * 1536 else p
  {
    MaxWriteIs();
    if k > 0 {
      PositionIs(k - 1, p);
    }
  }

  /** States after each transaction; the first k of them have written Position(k) bytes. */
  ghost predicate Chain(states: seq<Fs>, n: nat, off: nat, data: seq<byte>, max: nat, p: nat) {
    && |states| > 0 && Consistent(states[0]) && n < |states[0].inodes| && p <= |data|
    && (forall k :: 0 <= k < |states| ==> Progress(states[0], states[k], n, off, data, Position(k, max, p)))
    && (forall k :: 0 < k < |states| ==> IsTransaction(states[k - 1], states[k]))
  }

  lemma ChainMore(states: seq<Fs>, fs: Fs, n: nat, off: nat, data: seq<byte>, max: nat, p: nat)
    requires Chain(states, n, off, data, max, p) && IsTransaction(states[|states| - 1], fs)
    requires Progress(states[0], fs, n, off, data, Position(|states|, max, p))
    ensures Chain(states + [fs], n, off, data, max, p)
  {
  }

  lemma {:induction false} PositionGrows(k: nat, t: nat, max: nat, p: nat)
    requires k <= t
    ensures Position(k, max, p) <= Position(t, max, p)
    decreases t
  {
    if k < t {
      PositionGrows(k, t - 1, max, p);
    }
  }

  /** The first t transactions write the same bytes if there is no more to be written after them. */
  lemma {:induction false} PositionStops(k: nat, t: nat, max: nat, p: nat)
    requires k <= t
    ensures Position(k, max, Position(t, max, p)) == Position(k, max, p)
  {
    if k > 0 {
      PositionStops(k - 1, t, max, p);
      PositionGrows(k, t, max, p);
    }
  }

  lemma ChainStops(states: seq<Fs>, n: nat, off: nat, data: seq<byte>, max: nat, p: nat, i: nat)
    requires Chain(states, n, off, data, max, p) && i == Position(|states| - 1, max, p)
    ensures Chain(states, n, off, data, max, i)
  {
    forall k | 0 <= k < |states| ensures Progress(states[0], states[k], n, off, data, Position(k, max, i)) {
      PositionStops(k, |states| - 1, max, p);
    }
  }

  /** A last transaction that writes nothing. */
  lemma ChainFails(states: seq<Fs>, fs: Fs, n: nat, off: nat, data: seq<byte>, max: nat, i: nat)
    requires Chain(states, n, off, data, max, |data|) && i == Position(|states| - 1, max, |data|)
    requires IsTransaction(states[|states| - 1], fs) && Progress(states[0], fs, n, off, data, i)
    ensures Chain(states + [fs], n, off, data, max, i)
  {
    ChainStops(states, n, off, data, max, |data|, i);
    PositionStops(|states| - 1, |states| - 1, max, |data|);
    ChainMore(states, fs, n, off, data, max, i);
  }

  /** An open, writable file of type FD_INODE that is not a device. */
  class File {
    const inum: nat
    var off: nat

    constructor (inum: nat, off: nat)
      ensures this.inum == inum && this.off == off
    {
      this.inum, this.off := inum, off;
    }

    /**
     `filewrite`: p bytes are written, one transaction after another, and the file
     offset moves past them.  All bytes are written unless the file would grow beyond
     its maximal size; then a last transaction writes nothing.  states are the states
     at the start and after each transaction; every transaction logs what it changes
     and fits its reservation in the log.  ok is false when the disk is full.
     */
    method Write(d: FileSystem, data: seq<byte>) returns (ok: bool, r: int, ghost p: nat, ghost states: seq<Fs>)
      requires Consistent(d.fs) && inum < |d.fs.inodes| && off + |data| < UINT && d.fs.inodes[inum].typ != T_DEV
      requires d.Synced()
      modifies this, d
      ensures d.Synced()
      ensures Chain(states, inum, old(off), data, MAXWRITE, p) && states[0] == old(d.fs)
      ensures ok ==> d.fs == states[|states| - 1]
      ensures ok ==> |states| - 1 == (p + MAXWRITE - 1) / MAXWRITE + if p < |data| then 1 else 0
      ensures ok ==> off == old(off) + p && r == (if p == |data| then p else -1)
      ensures ok ==> Progress(old(d.fs), d.fs, inum, old(off), data, p)
      ensures ok ==>
                (p < |data| <==>
                 data != [] && (old(off) > old(d.fs).inodes[inum].size || old(off) + |data| > MAXFILE * BSIZE))
      ensures ok && p < |data| ==> old(off) > old(d.fs).inodes[inum].size || old(off) + p + MAXWRITE > MAXFILE * BSIZE
      ensures !ok ==> forall c :: 0 <= c < |d.fs.bitmap| ==> d.fs.bitmap[c]
    {
      var max := (Log.MAXOPBLOCKS - 1 - 1 - 2) / 2 * 512;
      MaxWriteIs();
      var i;
      ok, i, states := WriteAll(d, data, max);
      p := i;
      EndOfChain(states, d.fs, inum, old(off), data, i);
      if ok && i < |data| {
        states := states + [d.fs];
      }
      r := if i == |data| then |data| else -1;
    }

    /** The loop of `filewrite`: i bytes are written when it ends. */
    method WriteAll(d: FileSystem, data: seq<byte>, max: nat) returns (ok: bool, i: nat, ghost states: seq<Fs>)
      requires Consistent(d.fs) && inum < |d.fs.inodes| && off + |data| < UINT && d.fs.inodes[inum].typ != T_DEV
      requires 0 < max <= 3 * BSIZE
      requires d.Synced()
      modifies this, d
      ensures d.Synced()
      ensures Writes(states, inum, old(off), data, max, i) && states[0] == old(d.fs)
      ensures ok && i == |data| ==> d.fs == states[|states| - 1]
      ensures ok && i < |data| ==> Refused(states, d.fs, inum, old(off), data, max, i)
      ensures ok ==> off == old(off) + i
      ensures !ok ==> forall c :: 0 <= c < |d.fs.bitmap| ==> d.fs.bitmap[c]
    {
      i, ok, states := 0, true, [d.fs];
      WritesNothing(d.fs, inum, off, data, max);
      while i < |data|
        invariant Writes(states, inum, old(off), data, max, i) && states[0] == old(d.fs)
        invariant ok && off == old(off) + i && states[|states| - 1] == d.fs && d.Synced()
        decreases |data| - i
      {
        var n1 := if |data| - i > max then max else |data| - i;
        var r;
        ok, r := Transaction(d, data, i, i + n1, max, old(off), states);
        if !ok || r < 0 {
          break;
        }
        i, states := i + r, states + [d.fs];
      }
    }

    /** One iteration of `filewrite`, from `begin_op` to `end_op`: the bytes from position i to j. */
    method Transaction(d: FileSystem, data: seq<byte>, i: nat, j: nat, ghost max: nat, ghost start: nat,
                       ghost states: seq<Fs>)
      returns (ok: bool, r: int)
      requires Writes(states, inum, start, data, max, i) && states[|states| - 1] == d.fs && max <= 3 * BSIZE
      requires states[0].inodes[inum].typ != T_DEV
      requires off == start + i && start + |data| < UINT && i < j == i + (if |data| - i > max then max else |data| - i)
      requires d.Synced()
      modifies this, d
      ensures d.Synced()
      ensures ok && r < 0 ==> off == old(off) && Refused(states, d.fs, inum, start, data, max, i)
      ensures ok && r >= 0 ==> r == j - i && off == start + j && Writes(states + [d.fs], inum, start, data, max, j)
      ensures !ok ==> forall c :: 0 <= c < |d.fs.bitmap| ==> d.fs.bitmap[c]
    {
      ok, r := WriteBytes(d, data, i, j, states[0], start);
      if ok && r >= 0 {
        off := off + r;
        WritesMore(states, d.fs, inum, start, data, max, i, j);
      }
    }

    /** What a transaction does to the file. */
    method WriteBytes(d: FileSystem, data: seq<byte>, i: nat, j: nat, ghost fs0: Fs, ghost start: nat)
      returns (ok: bool, r: int)
      requires Consistent(fs0) && inum < |fs0.inodes| && off == start + i < UINT && i <= j <= |data| < UINT
      requires j - i <= 3 * BSIZE && fs0.inodes[inum].typ != T_DEV
      requires Progress(fs0, d.fs, inum, start, data, i)
      requires d.Synced()
      modifies d
      ensures d.Synced()
      ensures ok ==> IsTransaction(old(d.fs), d.fs)
      ensures ok && r == -1 ==> Progress(fs0, d.fs, inum, start, data, i)
      ensures ok && r != -1 ==> r == j - i && Progress(fs0, d.fs, inum, start, data, j)
      ensures ok ==> (r == -1 <==> start > fs0.inodes[inum].size || start + j > MAXFILE * BSIZE)
      ensures !ok ==> forall c :: 0 <= c < |d.fs.bitmap| ==> d.fs.bitmap[c]
    {
      ghost var before := d.fs.(logged := {});
      ProgressNewLog(fs0, d.fs, before, inum, start, data, i);
      ProgressSize(fs0, before, inum, start, data, i);
      d.Begin();
      assert d.fs == before && before.inodes[inum].typ != T_DEV;
      ok, r := d.Writei(inum, data[i..j], off, None);
      assert WritesFile(before, d.fs, inum, data[i..j], off, ok, r);
      BytesWritten(fs0, before, d.fs, inum, start, data, i, j, ok, r);
    }
  }

  /** i bytes have been written by the transactions between the states. */
  ghost predicate Writes(states: seq<Fs>, n: nat, off: nat, data: seq<byte>, max: nat, i: nat) {
    && Chain(states, n, off, data, max, |data|)
    && i == Position(|states| - 1, max, |data|) && (|states| > 1 ==> Position(|states| - 2, max, |data|) < |data|)
    && (i > 0 ==> off <= states[0].inodes[n].size && off + i <= MAXFILE * BSIZE)
  }

  /** The next transaction, which ends in fs, writes nothing, since the file would become too large or have a hole. */
  ghost predicate Refused(states: seq<Fs>, fs: Fs, n: nat, off: nat, data: seq<byte>, max: nat, i: nat)
    requires Writes(states, n, off, data, max, i)
  {
    && IsTransaction(states[|states| - 1], fs) && Progress(states[0], fs, n, off, data, i)
    && (off > states[0].inodes[n].size || off + (if |data| - i > max then i + max else |data|) > MAXFILE * BSIZE)
  }

  lemma WritesNothing(fs: Fs, n: nat, off: nat, data: seq<byte>, max: nat)
    requires Consistent(fs) && n < |fs.inodes|
    ensures Writes([fs], n, off, data, max, 0)
  {
    ProgressStarts(fs, n, off, data);
  }

  lemma WritesMore(states: seq<Fs>, fs: Fs, n: nat, off: nat, data: seq<byte>, max: nat, i: nat, j: nat)
    requires Writes(states, n, off, data, max, i) && i < j == i + (if |data| - i > max then max else |data| - i)
    requires IsTransaction(states[|states| - 1], fs) && Progress(states[0], fs, n, off, data, j)
    requires off <= states[0].inodes[n].size && off + j <= MAXFILE * BSIZE
    ensures Writes(states + [fs], n, off, data, max, j)
  {
    var states' := states + [fs];
    NextPosition(states, max, |data|, i, j);
    ChainMore(states, fs, n, off, data, max, |data|);
    assert |states'| - 1 == |states| && |states'| - 2 == |states| - 1 && states'[0] == states[0];
  }

  lemma NextPosition(states: seq<Fs>, max: nat, len: nat, i: nat, j: nat)
    requires states != [] && i == Position(|states| - 1, max, len)
    requires i < j == i + (if len - i > max then max else len - i)
    ensures Position(|states|, max, len) == j && i < len
  {
  }

  lemma CountIs(t: nat, i: nat, len: nat)
    requires i == Position(t, MAXWRITE, len) && (t > 0 ==> Position(t - 1, MAXWRITE, len) < len)
    ensures t == (i + 1535) / 1536
  {
    PositionIs(t, len);
    if t > 0 {
      PositionIs(t - 1, len);
    }
  }

  /** The states of the loop, with the last transaction if that wrote nothing. */
  lemma EndOfChain(states: seq<Fs>, fs: Fs, n: nat, off: nat, data: seq<byte>, i: nat)
    requires Writes(states, n, off, data, MAXWRITE, i)
    ensures Chain(states, n, off, data, MAXWRITE, i) && |states| - 1 == (i + 1535) / 1536
    ensures Refused(states, fs, n, off, data, MAXWRITE, i) ==> Chain(states + [fs], n, off, data, MAXWRITE, i)
  {
    ChainStops(states, n, off, data, MAXWRITE, |data|, i);
    CountIs(|states| - 1, i, |data|);
    if Refused(states, fs, n, off, data, MAXWRITE, i) {
      ChainFails(states, fs, n, off, data, MAXWRITE, i);
    }
  }
}
