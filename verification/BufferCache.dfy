/**
 The buffer cache over the memory disk.  Together they behave as a plain block
 store: `bread` yields the data last logged or written for the block, a logged
 buffer is not recycled, and its home block changes only through `bwrite`.
 */
module BufferCache {
  import opened Basics
  import opened BlockStore
  import opened BufferRing

  const NBUF: nat := 30

  datatype Buf = Buf(dev: nat, blockno: nat, valid: bool, dirty: bool, refcnt: nat, locked: bool, data: Block)

  /** Buffer b holds block bno of the disk; the buffers of device 0 have not been used yet. */
  predicate Holds(b: Buf, bno: nat) {
    b.dev == 1 && b.blockno == bno
  }

  predicate Recyclable(b: Buf) {
    b.refcnt == 0 && !b.dirty
  }

  /** At most one buffer for every block. */
  predicate Unique(bufs: seq<Buf>) {
    forall i, j :: 0 <= i < j < |bufs| && bufs[i].dev == 1 && bufs[j].dev == 1 ==> bufs[i].blockno != bufs[j].blockno
  }

  /** Buffer b agrees with the block store; a locked buffer may be in the middle of a change. */
  predicate Agrees(s: Store, b: Buf) {
    && (b.locked ==> b.refcnt > 0)
    && (b.dirty ==> b.valid && b.dev == 1 && b.blockno in s.pinned)
    && (b.dev != 1 ==> !b.valid && b.refcnt == 0)
    && (b.dev == 1 ==> b.blockno < |s.disk|)
    && (b.valid && !b.locked ==> b.data == s.Read(b.blockno))
  }

  ghost predicate Pinned(bufs: seq<Buf>, bno: nat) {
    exists i :: 0 <= i < |bufs| && Holds(bufs[i], bno) && bufs[i].dirty
  }

  /** The buffers and the disk stand for the block store s. */
  ghost predicate Represents(bufs: seq<Buf>, s: Store) {
    && |bufs| == NBUF
    && Unique(bufs)
    && (forall i :: 0 <= i < |bufs| ==> Agrees(s, bufs[i]))
    && (forall bno <- s.pinned :: Pinned(bufs, bno))
  }

  /** Replacing a buffer by one for the same block that agrees with the store keeps the representation. */
  lemma ReplaceBuf(bufs: seq<Buf>, s: Store, i: nat, b: Buf)
    requires Represents(bufs, s) && i < |bufs|
    requires b.dev == bufs[i].dev && b.blockno == bufs[i].blockno && b.dirty == bufs[i].dirty && Agrees(s, b)
    ensures Represents(bufs[i := b], s)
  {
    var bufs' := bufs[i := b];
    forall bno <- s.pinned ensures Pinned(bufs', bno) {
      var j :| 0 <= j < |bufs| && Holds(bufs[j], bno) && bufs[j].dirty;
      assert Holds(bufs'[j], bno) && bufs'[j].dirty;
    }
  }

  /** Recycling a clean, unreferenced buffer for a block that is not cached. */
  lemma RecycleBuf(bufs: seq<Buf>, s: Store, i: nat, bno: nat)
    requires Represents(bufs, s) && i < |bufs| && Recyclable(bufs[i]) && bno < |s.disk|
    requires forall j :: 0 <= j < |bufs| ==> !Holds(bufs[j], bno)
    ensures Represents(bufs[i := Buf(1, bno, false, false, 1, false, bufs[i].data)], s)
  {
    var bufs' := bufs[i := Buf(1, bno, false, false, 1, false, bufs[i].data)];
    forall c <- s.pinned ensures Pinned(bufs', c) {
      var j :| 0 <= j < |bufs| && Holds(bufs[j], c) && bufs[j].dirty;
      assert Holds(bufs'[j], c) && bufs'[j].dirty;
    }
  }

  /** Writing the data of a locked buffer through to the disk. */
  lemma WriteBuf(bufs: seq<Buf>, s: Store, i: nat)
    requires Represents(bufs, s) && i < |bufs| && bufs[i].locked && bufs[i].dev == 1
    ensures Represents(bufs[i := bufs[i].(valid := true, dirty := false)],
                       s.WriteThrough(bufs[i].blockno, bufs[i].data))
  {
    var bno, b := bufs[i].blockno, bufs[i].(valid := true, dirty := false);
    var bufs', s' := bufs[i := b], s.WriteThrough(bno, bufs[i].data);
    forall c <- s'.pinned ensures Pinned(bufs', c) {
      var j :| 0 <= j < |bufs| && Holds(bufs[j], c) && bufs[j].dirty;
      assert Holds(bufs'[j], c) && bufs'[j].dirty;
    }
    forall j | 0 <= j < |bufs| ensures Agrees(s', bufs'[j]) {
      if j != i && bufs[j].dev == 1 {
        assert bufs[j].blockno != bno;
      }
    }
  }

  /** Pinning the data of a locked buffer. */
  lemma PinBuf(bufs: seq<Buf>, s: Store, i: nat)
    requires Represents(bufs, s) && i < |bufs| && bufs[i].locked && bufs[i].valid && bufs[i].dev == 1
    ensures Represents(bufs[i := bufs[i].(dirty := true)], s.Pin(bufs[i].blockno, bufs[i].data))
  {
    var bno, b := bufs[i].blockno, bufs[i].(dirty := true);
    var bufs', s' := bufs[i := b], s.Pin(bno, bufs[i].data);
    forall c <- s'.pinned ensures Pinned(bufs', c) {
      if c == bno {
        assert Holds(bufs'[i], c) && bufs'[i].dirty;
      } else {
        var j :| 0 <= j < |bufs| && Holds(bufs[j], c) && bufs[j].dirty;
        assert Holds(bufs'[j], c) && bufs'[j].dirty;
      }
    }
    forall j | 0 <= j < |bufs| ensures Agrees(s', bufs'[j]) {
      if j != i && bufs[j].dev == 1 {
        assert bufs[j].blockno != bno;
      }
    }
  }

  /** An invalid buffer's block is not pinned, so the disk has its current data. */
  lemma InvalidIsOnDisk(bufs: seq<Buf>, s: Store, i: nat)
    requires Represents(bufs, s) && i < |bufs| && bufs[i].dev == 1 && !bufs[i].valid
    ensures bufs[i].blockno < |s.disk| && s.Read(bufs[i].blockno) == s.disk[bufs[i].blockno]
  {
    var bno := bufs[i].blockno;
    forall j | 0 <= j < |bufs| ensures !(Holds(bufs[j], bno) && bufs[j].dirty) {
      assert Agrees(s, bufs[j]);
    }
    assert !Pinned(bufs, bno);
    assert Agrees(s, bufs[i]);
  }

  class Cache {
    var bufs: seq<Buf>
    /** Links of buffer i at index i; index NBUF is the list head. */
    var next: seq<nat>
    var prev: seq<nat>
    var memdisk: Disk
    /** The list from the head on, most recently used first. */
    ghost var ring: seq<nat>
    ghost var store: Store

    ghost predicate Valid()
      reads this
    {
      && |next| == NBUF + 1
      && Ring(next, prev, ring) && ring[0] == NBUF
      && (forall i :: 0 <= i < NBUF ==> i in ring)
      && store.disk == memdisk
      && Represents(bufs, store)
    }

    /** `binit`, with every buffer unused. */
    constructor (d: Disk, junk: Block)
      ensures Valid() && store == Store(d, map[])
    {
      memdisk, store := d, Store(d, map[]);
      bufs := seq(NBUF, i => Buf(0, 0, false, false, 0, false, junk));
      var nx: seq<nat> := seq(NBUF + 1, i => NBUF);
      var pv: seq<nat> := seq(NBUF + 1, i => NBUF);
      ghost var r: seq<nat> := [NBUF];
      var b := 0;
      while b < NBUF
        invariant 0 <= b <= NBUF && |nx| == NBUF + 1
        invariant Ring(nx, pv, r) && r[0] == NBUF
        invariant forall i: nat :: i < b <==> i != NBUF && i in r
      {
        Link(nx, pv, r, b);
        var n := nx[NBUF];
        nx, pv := nx[b := n], pv[b := NBUF];
        pv := pv[n := b];
        nx := nx[NBUF := b];
        InFrontMembers(r, b);
        r := InFront(r, b);
        b := b + 1;
      }
      next, prev, ring := nx, pv, r;
    }

    /** The first loop of `bget`: the buffer that holds the block, or NBUF. */
    method Lookup(bno: nat) returns (b: nat)
      requires Valid()
      ensures b == NBUF ==> forall i :: 0 <= i < |bufs| ==> !Holds(bufs[i], bno)
      ensures b != NBUF ==> b < |bufs| && Holds(bufs[b], bno)
    {
      b := next[NBUF];
      ghost var k := After(ring, 0);
      while b != NBUF
        invariant k < |ring| && b == ring[k]
        invariant forall j :: 0 < j < (if k == 0 then |ring| else k) ==> !Holds(bufs[ring[j]], bno)
        decreases if k == 0 then 0 else |ring| - k
      {
        if bufs[b].dev == 1 && bufs[b].blockno == bno {
          return;
        }
        b := next[b];
        k := After(ring, k);
      }
      forall i | 0 <= i < |bufs| ensures !Holds(bufs[i], bno) {
        assert i in ring;
      }
    }

    /** The second loop of `bget`: the least recently used buffer that can be recycled, or NBUF. */
    method Victim() returns (b: nat)
      requires Valid()
      ensures b == NBUF ==> forall i :: 0 <= i < |bufs| ==> !Recyclable(bufs[i])
      ensures b != NBUF ==> b < |bufs| && Recyclable(bufs[b])
      ensures b != NBUF ==>
                exists k :: 0 < k < |ring| && ring[k] == b && forall j :: k < j < |ring| ==> !Recyclable(bufs[ring[j]])
    {
      PrevAt(next, prev, ring, 0);
      b := prev[NBUF];
      ghost var k := |ring| - 1;
      while b != NBUF
        invariant 0 <= k < |ring| && b == ring[k]
        invariant forall j :: k < j < |ring| ==> !Recyclable(bufs[ring[j]])
        decreases k
      {
        if bufs[b].refcnt == 0 && !bufs[b].dirty {
          return;
        }
        PrevAt(next, prev, ring, k);
        b := prev[b];
        k := k - 1;
      }
      forall i | 0 <= i < |bufs| ensures !Recyclable(bufs[i]) {
        assert i in ring;
      }
    }

    /** `bget` up to the acquisition of the buffer's lock; NBUF is the panic for want of a buffer. */
    method Bget(bno: nat) returns (b: nat)
      requires Valid() && bno < |memdisk|
      modifies this`bufs
      ensures Valid()
      ensures b == NBUF <==> forall i :: 0 <= i < |bufs| ==> !Holds(old(bufs)[i], bno) && !Recyclable(old(bufs)[i])
      ensures b == NBUF ==> bufs == old(bufs)
      ensures b != NBUF ==> b < |bufs| && Holds(bufs[b], bno)
      ensures b != NBUF && Holds(old(bufs)[b], bno) ==>
                bufs == old(bufs)[b := old(bufs)[b].(refcnt := old(bufs)[b].refcnt + 1)]
      ensures b != NBUF && !Holds(old(bufs)[b], bno) ==>
                && Recyclable(old(bufs)[b])
                && bufs == old(bufs)[b := Buf(1, bno, false, false, 1, false, old(bufs)[b].data)]
    {
      b := Lookup(bno);
      if b != NBUF {
        ReplaceBuf(bufs, store, b, bufs[b].(refcnt := bufs[b].refcnt + 1));
        bufs := bufs[b := bufs[b].(refcnt := bufs[b].refcnt + 1)];
        return;
      }
      b := Victim();
      if b != NBUF {
        RecycleBuf(bufs, store, b, bno);
        bufs := bufs[b := Buf(1, bno, false, false, 1, false, bufs[b].data)];
      }
    }

    /** `acquiresleep` once the lock is free. */
    method Acquire(b: nat)
      requires Valid() && b < |bufs| && bufs[b].refcnt > 0 && !bufs[b].locked
      modifies this`bufs
      ensures Valid() && bufs == old(bufs)[b := old(bufs)[b].(locked := true)]
    {
      ReplaceBuf(bufs, store, b, bufs[b].(locked := true));
      bufs := bufs[b := bufs[b].(locked := true)];
    }

    /** `iderw` of the memory disk; false is one of its panics. */
    method Iderw(b: nat) returns (ok: bool)
      requires b < |bufs|
      modifies this`bufs, this`memdisk
      ensures ok == (old(bufs)[b].locked && (!old(bufs)[b].valid || old(bufs)[b].dirty)
                     && old(bufs)[b].dev == 1 && old(bufs)[b].blockno < |old(memdisk)|)
      ensures !ok ==> bufs == old(bufs) && memdisk == old(memdisk)
      ensures ok && old(bufs)[b].dirty ==>
                && bufs == old(bufs)[b := old(bufs)[b].(valid := true, dirty := false)]
                && memdisk == old(memdisk)[old(bufs)[b].blockno := old(bufs)[b].data]
      ensures ok && !old(bufs)[b].dirty ==>
                && bufs == old(bufs)[b := old(bufs)[b].(valid := true, data := old(memdisk)[old(bufs)[b].blockno])]
                && memdisk == old(memdisk)
    {
      var u := bufs[b];
      if !u.locked || (u.valid && !u.dirty) || u.dev != 1 || u.blockno >= |memdisk| {
        return false;
      }
      if u.dirty {
        u := u.(dirty := false);
        memdisk := memdisk[u.blockno := u.data];
      } else {
        u := u.(data := memdisk[u.blockno]);
      }
      bufs := bufs[b := u.(valid := true)];
      return true;
    }

    /** The rest of `bread`, with the lock held: the buffer has the current data of its block. */
    method Fill(b: nat)
      requires Valid() && b < |bufs| && bufs[b].locked && bufs[b].dev == 1
      requires bufs[b].valid ==> bufs[b].data == store.Read(bufs[b].blockno)
      modifies this`bufs, this`memdisk
      ensures Valid()
      ensures bufs == old(bufs)[b := old(bufs)[b].(valid := true, data := store.Read(old(bufs)[b].blockno))]
    {
      if !bufs[b].valid {
        InvalidIsOnDisk(bufs, store, b);
        ReplaceBuf(bufs, store, b, bufs[b].(valid := true, data := store.Read(bufs[b].blockno)));
        var ok := Iderw(b);
      }
    }

    /** The holder of the lock changes the data. */
    method Modify(b: nat, data: Block)
      requires Valid() && b < |bufs| && bufs[b].locked
      modifies this`bufs
      ensures Valid() && bufs == old(bufs)[b := old(bufs)[b].(data := data)]
    {
      ReplaceBuf(bufs, store, b, bufs[b].(data := data));
      bufs := bufs[b := bufs[b].(data := data)];
    }

    /** `bwrite`: the data reaches the disk; false is the panic. */
    method Bwrite(b: nat) returns (ok: bool)
      requires Valid() && b < |bufs| && bufs[b].dev == 1
      modifies this`bufs, this`memdisk, this`store
      ensures Valid() && ok == old(bufs)[b].locked
      ensures ok ==> store == old(store).WriteThrough(old(bufs)[b].blockno, old(bufs)[b].data)
      ensures ok ==> bufs == old(bufs)[b := old(bufs)[b].(valid := true, dirty := false)]
      ensures !ok ==> bufs == old(bufs) && store == old(store)
    {
      if !bufs[b].locked {
        return false;
      }
      WriteBuf(bufs, store, b);
      ghost var s := store.WriteThrough(bufs[b].blockno, bufs[b].data);
      bufs := bufs[b := bufs[b].(dirty := true)];
      ok := Iderw(b);
      assert bufs == old(bufs)[b := old(bufs)[b].(valid := true, dirty := false)];
      store := s;
    }

    /** What `log_write` does to the buffer: it is pinned with its present data. */
    method Pin(b: nat)
      requires Valid() && b < |bufs| && bufs[b].dev == 1 && bufs[b].locked && bufs[b].valid
      modifies this`bufs, this`store
      ensures Valid() && bufs == old(bufs)[b := old(bufs)[b].(dirty := true)]
      ensures store == old(store).Pin(old(bufs)[b].blockno, old(bufs)[b].data)
    {
      PinBuf(bufs, store, b);
      store := store.Pin(bufs[b].blockno, bufs[b].data);
      bufs := bufs[b := bufs[b].(dirty := true)];
    }

    /** `brelse`, after any change has been written or logged; the last reference moves the buffer to the front. */
    method Brelse(b: nat) returns (ok: bool)
      requires Valid() && b < |bufs|
      requires bufs[b].locked && bufs[b].valid ==> bufs[b].data == store.Read(bufs[b].blockno)
      modifies this`bufs, this`next, this`prev, this`ring
      ensures Valid() && ok == old(bufs)[b].locked
      ensures !ok ==> bufs == old(bufs) && ring == old(ring)
      ensures ok ==> bufs == old(bufs)[b := old(bufs)[b].(locked := false, refcnt := old(bufs)[b].refcnt - 1)]
      ensures ok && bufs[b].refcnt > 0 ==> ring == old(ring)
      ensures ok && bufs[b].refcnt == 0 ==>
                exists k :: 0 < k < |old(ring)| && old(ring)[k] == b && ring == InFront(Without(old(ring), k), b)
    {
      if !bufs[b].locked {
        return false;
      }
      ReplaceBuf(bufs, store, b, bufs[b].(locked := false, refcnt := bufs[b].refcnt - 1));
      bufs := bufs[b := bufs[b].(locked := false, refcnt := bufs[b].refcnt - 1)];
      if bufs[b].refcnt == 0 {
        Relink(b);
      }
      return true;
    }

    /** The assignments of `brelse` that move a buffer to the front. */
    method Relink(b: nat)
      requires Valid() && b < |bufs|
      modifies this`next, this`prev, this`ring
      ensures Valid()
      ensures exists k :: 0 < k < |old(ring)| && old(ring)[k] == b && ring == InFront(Without(old(ring), k), b)
    {
      assert b in ring;
      ghost var k :| 0 <= k < |ring| && ring[k] == b;
      MoveToFront(next, prev, ring, k);
      prev := prev[next[b] := prev[b]];
      next := next[prev[b] := next[b]];
      next := next[b := next[NBUF]];
      prev := prev[b := NBUF];
      prev := prev[next[NBUF] := b];
      next := next[NBUF := b];
      ring := InFront(Without(ring, k), b);
    }
  }

  // ------------------------------------------------------------------
  // How many blocks can be pinned

  /** A block outside the cache can be brought in exactly when some buffer is clean and unreferenced. */
  predicate CanBring(bufs: seq<Buf>, bno: nat) {
    exists i :: 0 <= i < |bufs| && (Holds(bufs[i], bno) || Recyclable(bufs[i]))
  }

  /** The first n buffers hold at most n pinned blocks. */
  lemma {:induction false} PinnedCount(bufs: seq<Buf>, n: nat, blocks: set<nat>)
    requires n <= |bufs|
    requires forall b <- blocks :: exists i :: 0 <= i < n && Holds(bufs[i], b) && bufs[i].dirty
    ensures |blocks| <= n
    ensures |blocks| == n ==> forall i :: 0 <= i < n ==> bufs[i].dirty
  {
    if n == 0 {
      assert blocks == {};
    } else {
      var last := bufs[n - 1];
      var rest := if last.dev == 1 && last.dirty then blocks - {last.blockno} else blocks;
      PinnedCount(bufs, n - 1, rest);
    }
  }

  /** When every buffer is pinned, no other block can be brought in. */
  lemma FullLogStarvesCache(bufs: seq<Buf>, s: Store, bno: nat)
    requires Represents(bufs, s) && |s.pinned| == NBUF && bno !in s.pinned
    ensures !CanBring(bufs, bno)
  {
    PinnedCount(bufs, NBUF, s.pinned.Keys);
    forall i | 0 <= i < |bufs| ensures !Holds(bufs[i], bno) && !Recyclable(bufs[i]) {
      assert Agrees(s, bufs[i]);
    }
  }

  /** With fewer than NBUF pinned blocks and no buffer in use, every block can be read. */
  lemma RoomForOneMore(bufs: seq<Buf>, s: Store, bno: nat)
    requires Represents(bufs, s) && |s.pinned| < NBUF
    requires forall i :: 0 <= i < |bufs| ==> bufs[i].refcnt == 0
    ensures CanBring(bufs, bno)
  {
    if forall i :: 0 <= i < |bufs| ==> bufs[i].dirty {
      DirtyCount(bufs, s);
    }
  }

  /**
   With no buffer in use, a block that is not pinned can be brought in exactly when
   fewer than NBUF blocks are pinned.
   */
  lemma CanBringExact(bufs: seq<Buf>, s: Store, bno: nat)
    requires Represents(bufs, s) && bno !in s.pinned && forall i :: 0 <= i < |bufs| ==> bufs[i].refcnt == 0
    ensures CanBring(bufs, bno) <==> |s.pinned| < NBUF
  {
    PinnedCount(bufs, NBUF, s.pinned.Keys);
    if |s.pinned| < NBUF {
      RoomForOneMore(bufs, s, bno);
    } else {
      FullLogStarvesCache(bufs, s, bno);
    }
  }

  /** When every buffer is dirty, as many blocks are pinned as there are buffers. */
  lemma DirtyCount(bufs: seq<Buf>, s: Store)
    requires Represents(bufs, s) && forall i :: 0 <= i < |bufs| ==> bufs[i].dirty
    ensures |s.pinned| >= NBUF
  {
    forall i | 0 <= i < |bufs| ensures bufs[i].dev == 1 && bufs[i].blockno in s.pinned.Keys {
      assert Agrees(s, bufs[i]);
    }
    BlocksOfCount(bufs, NBUF);
    BlocksOfWithin(bufs, NBUF, s.pinned.Keys);
    SubsetSize(BlocksOf(bufs, NBUF), s.pinned.Keys);
  }

  function BlocksOf(bufs: seq<Buf>, n: nat): (bs: set<nat>)
    requires n <= |bufs|
  {
    if n == 0 then {} else BlocksOf(bufs, n - 1) + {bufs[n - 1].blockno}
  }

  lemma {:induction false} BlocksOfWithin(bufs: seq<Buf>, n: nat, all: set<nat>)
    requires n <= |bufs| && forall i :: 0 <= i < |bufs| ==> bufs[i].blockno in all
    ensures BlocksOf(bufs, n) <= all
  {
    if n > 0 {
      BlocksOfWithin(bufs, n - 1, all);
    }
  }

  lemma {:induction false} NotAmongFirst(bufs: seq<Buf>, n: nat, m: nat)
    requires n <= m < |bufs| && Unique(bufs) && forall i :: 0 <= i < |bufs| ==> bufs[i].dev == 1
    ensures bufs[m].blockno !in BlocksOf(bufs, n)
  {
    if n > 0 {
      NotAmongFirst(bufs, n - 1, m);
    }
  }

  lemma {:induction false} BlocksOfCount(bufs: seq<Buf>, n: nat)
    requires n <= |bufs| && Unique(bufs) && forall i :: 0 <= i < |bufs| ==> bufs[i].dev == 1
    ensures |BlocksOf(bufs, n)| == n
  {
    if n > 0 {
      BlocksOfCount(bufs, n - 1);
      NotAmongFirst(bufs, n - 1, n - 1);
    }
  }
}
