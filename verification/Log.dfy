/**
 The in-memory log and its operations, as they run on one processor.  The
 write sequence that each operation issues is the one Recovery reasons about.
 */
module Log {
  import opened BlockStore
  import opened Recovery

  const MAXOPBLOCKS: nat := 10

  /** The entry list after `log_write` of block b: an entry that is already there absorbs the write. */
  function Absorb(lh: seq<nat>, b: nat): (r: seq<nat>) {
    if b in lh then lh else lh + [b]
  }

  /** Another operation may start: the log has room for all reservations and for one more. */
  predicate HasRoom(n: nat, outstanding: nat) {
    n + (outstanding + 1) * MAXOPBLOCKS <= LOGSIZE
  }

  /** The guard of `log_write`, which is tested before absorption. */
  predicate TooBig(l: Layout, n: nat) {
    n >= LOGSIZE || n >= l.size - 1
  }

  lemma PinKeepsListed(l: Layout, s: Store, lh: seq<nat>, b: nat, v: Block)
    requires Lists(l, s, lh) && |Absorb(lh, b)| <= LOGSIZE && b < |s.disk| && !InLog(l, b)
    ensures Lists(l, s.Pin(b, v), Absorb(lh, b))
  {
    var lh' := Absorb(lh, b);
    forall x: nat ensures x in s.Pin(b, v).pinned <==> x in lh' {
      if b !in lh {
        assert x in lh' <==> x in lh || x == b;
      }
    }
  }

  class Log {
    const layout: Layout
    const block: array<nat>
    var n: nat
    var outstanding: nat
    var committing: bool
    var store: Store
    /** Every block write issued to the disk, in order. */
    ghost var writes: seq<Write>

    ghost predicate Shape()
      reads this, block
    {
      && block.Length == LOGSIZE
      && n <= LOGSIZE
      && Fits(layout, |store.disk|)
      && store.Valid()
      && GoodEntries(layout, |store.disk|, block[..n])
    }

    /** Between operations: the disk log is empty and the listed blocks are the pinned ones. */
    ghost predicate Valid()
      reads this, block
    {
      Shape() && Ready(layout, store, block[..n])
    }

    /** `initlog`: recover whatever the disk's log holds. */
    constructor (l: Layout, d: Disk)
      requires GoodDisk(l, d)
      ensures Valid() && fresh(block) && layout == l
      ensures n == 0 && outstanding == 0 && !committing
      ensures writes == RecoverWrites(l, d)
      ensures store == Store(Recover(l, d), map[])
    {
      layout := l;
      block := new nat[LOGSIZE];
      n, outstanding, committing := 0, 0, false;
      store := Store(d, map[]);
      writes := [];
      new;
      RecoverFromLog();
    }

    method ReadHead()
      requires block.Length == LOGSIZE && GoodDisk(layout, store.disk) && store.pinned == map[]
      modifies this`n, block
      ensures n <= LOGSIZE && block[..n] == Entries(store.disk[layout.start])
    {
      var buf := store.Read(layout.start);
      n := buf[0];
      var i := 0;
      while i < n
        invariant 0 <= i <= n == buf[0] <= LOGSIZE
        invariant block[..i] == buf[1..1 + i]
      {
        block[i] := buf[1 + i];
        i := i + 1;
      }
    }

    method WriteHead()
      requires block.Length == LOGSIZE && n <= LOGSIZE && Fits(layout, |store.disk|)
      requires layout.start !in store.pinned
      modifies this`store, this`writes
      ensures var w := Write(layout.start, Encode(old(store).disk[layout.start], block[..n]));
              && writes == old(writes) + [w]
              && store == Store(Put(old(store).disk, w), old(store).pinned)
    {
      var hb: seq<nat> := store.Read(layout.start);
      ghost var prior := hb;
      hb := hb[0 := n];
      var i := 0;
      while i < n
        invariant 0 <= i <= n
        invariant |hb| == WORDS && hb[0] == n
        invariant hb[1..1 + i] == block[..i]
        invariant hb[1 + n..] == prior[1 + n..]
      {
        hb := hb[1 + i := block[i]];
        i := i + 1;
      }
      assert hb == [hb[0]] + hb[1..1 + n] + hb[1 + n..];
      store := store.WriteThrough(layout.start, hb);
      writes := writes + [Write(layout.start, hb)];
    }

    method WriteLog()
      requires Valid()
      modifies this`store, this`writes
      ensures writes == old(writes) + LogWrites(layout, old(store), block[..n], n)
      ensures store == Store(Logged(layout, old(store), block[..n], n), old(store).pinned)
    {
      ghost var s, lh := store, block[..n];
      var tail := 0;
      while tail < n
        invariant 0 <= tail <= n
        invariant writes == old(writes) + LogWrites(layout, s, lh, tail)
        invariant store == Store(Logged(layout, s, lh, tail), s.pinned)
      {
        assert lh[tail] in lh;
        var to, from := layout.start + tail + 1, store.Read(block[tail]);
        assert store.pinned - {to} == store.pinned;
        store := store.WriteThrough(to, from);
        writes := writes + [Write(to, from)];
        tail := tail + 1;
      }
    }

    method InstallTrans()
      requires Shape()
      requires forall b <- store.pinned :: !InLog(layout, b)
      modifies this`store, this`writes
      ensures writes == old(writes) + InstallWrites(layout, old(store).disk, block[..n], n)
      ensures store.disk == Installed(layout, old(store).disk, block[..n], n)
      ensures forall b: nat :: b in store.pinned <==> b in old(store.pinned) && b !in block[..n]
    {
      ghost var d, lh := store.disk, block[..n];
      var tail := 0;
      while tail < n
        invariant 0 <= tail <= n
        invariant writes == old(writes) + InstallWrites(layout, d, lh, tail)
        invariant store.disk == Installed(layout, d, lh, tail)
        invariant forall b: nat :: b in store.pinned <==> b in old(store.pinned) && b !in lh[..tail]
      {
        var lbuf := store.Read(layout.start + tail + 1);
        InstalledInLog(layout, d, lh, tail, layout.start + tail + 1);
        assert lh[..tail + 1] == lh[..tail] + [lh[tail]];
        store := store.WriteThrough(block[tail], lbuf);
        writes := writes + [Write(block[tail], lbuf)];
        tail := tail + 1;
      }
    }

    /** The common end of `recover_from_log` and `commit`: install, then clear the header. */
    method InstallAndErase()
      requires Shape() && GoodDisk(layout, store.disk) && Entries(store.disk[layout.start]) == block[..n]
      requires forall b <- store.pinned :: b in block[..n]
      modifies this`n, this`store, this`writes
      ensures Valid() && n == 0
      ensures writes == old(writes) + RecoverWrites(layout, old(store).disk)
      ensures store == Store(Recover(layout, old(store).disk), map[])
    {
      InstalledInLog(layout, store.disk, block[..n], n, layout.start);
      InstallTrans();
      assert store.pinned == map[];
      n := 0;
      assert block[..n] == [];
      WriteHead();
    }

    method RecoverFromLog()
      requires block.Length == LOGSIZE && GoodDisk(layout, store.disk) && store.pinned == map[]
      modifies this`n, this`store, this`writes, block
      ensures Valid() && n == 0
      ensures writes == old(writes) + RecoverWrites(layout, old(store).disk)
      ensures store == Store(Recover(layout, old(store).disk), map[])
    {
      ReadHead();
      InstallAndErase();
    }

    /** `commit`: issues exactly CommitWrites and leaves nothing pinned. */
    method Commit()
      requires Valid()
      modifies this`n, this`store, this`writes
      ensures Valid() && n == 0
      ensures var ws := CommitWrites(layout, old(store), old(block[..n]));
              && writes == old(writes) + ws
              && store == Store(Apply(old(store).disk, ws), map[])
    {
      ghost var s, lh := store, block[..n];
      if n > 0 {
        WriteLog();
        WriteHead();
        CommittedHeader(layout, s, lh);
        InstallAndErase();
        FinishCommit(layout, s, lh, old(writes));
      } else {
        assert store.pinned == map[];
      }
    }

    /** `begin_op`: false means that the caller goes to sleep and tries again after a wakeup. */
    method BeginOp() returns (admitted: bool)
      requires Valid()
      modifies this`outstanding
      ensures Valid()
      ensures admitted == (!committing && HasRoom(n, old(outstanding)))
      ensures outstanding == if admitted then old(outstanding) + 1 else old(outstanding)
    {
      if committing {
        admitted := false;
      } else if n + (outstanding + 1) * MAXOPBLOCKS > LOGSIZE {
        admitted := false;
      } else {
        outstanding := outstanding + 1;
        admitted := true;
      }
    }

    /** `end_op`: the last outstanding operation commits; false is the panic on a concurrent commit. */
    method EndOp() returns (ok: bool)
      requires Valid() && outstanding > 0
      modifies this`n, this`outstanding, this`committing, this`store, this`writes
      ensures ok == !old(committing)
      ensures outstanding == old(outstanding) - 1 && committing == old(committing)
      ensures ok ==> Valid()
      ensures ok && outstanding > 0 ==> n == old(n) && store == old(store) && writes == old(writes)
      ensures ok && outstanding == 0 ==> n == 0 && NewHome(layout, old(store), store.disk) && store.pinned == map[]
      ensures ok && outstanding == 0 ==> writes == old(writes) + CommitWrites(layout, old(store), old(block[..n]))
    {
      outstanding := outstanding - 1;
      if committing {
        return false;
      }
      if outstanding == 0 {
        committing := true;
        ghost var s, lh := store, block[..n];
        Commit();
        CompleteCommit(layout, s, lh);
        committing := false;
      }
      return true;
    }

    /** `log_write`: false is one of the two panics. */
    method LogWrite(b: nat, data: Block) returns (ok: bool)
      requires Valid() && b < |store.disk| && !InLog(layout, b)
      modifies this`n, this`store, block
      ensures Valid()
      ensures ok == (!TooBig(layout, old(n)) && outstanding >= 1)
      ensures ok ==> store == old(store).Pin(b, data) && block[..n] == Absorb(old(block[..n]), b)
      ensures !ok ==> store == old(store) && block[..n] == old(block[..n])
    {
      if n >= LOGSIZE || n >= layout.size - 1 {
        return false;
      }
      if outstanding < 1 {
        return false;
      }
      PinKeepsListed(layout, store, block[..n], b, data);
      AddEntry(b);
      store := store.Pin(b, data);
      return true;
    }

    /** The search of `log_write`: the block is in the list, or is appended to it. */
    method AddEntry(b: nat)
      requires block.Length == LOGSIZE && n < LOGSIZE
      modifies this`n, block
      ensures n <= LOGSIZE && block[..n] == Absorb(old(block[..n]), b)
    {
      ghost var lh := block[..n];
      var i := 0;
      while i < n
        invariant 0 <= i <= n
        invariant forall j :: 0 <= j < i ==> block[j] != b
      {
        if block[i] == b {
          break;
        }
        i := i + 1;
      }
      assert i < n ==> lh[i] in lh;
      block[i] := b;
      if i == n {
        n := n + 1;
      }
    }
  }

  lemma FinishCommit(l: Layout, s: Store, lh: seq<nat>, ws: seq<Write>)
    requires Ready(l, s, lh) && lh != []
    ensures GoodDisk(l, Committed(l, s, lh))
    ensures var d := Committed(l, s, lh);
            && ws + LogWrites(l, s, lh, |lh|) + [Write(l.start, d[l.start])] + RecoverWrites(l, d) ==
                 ws + CommitWrites(l, s, lh)
            && Recover(l, d) == Apply(s.disk, CommitWrites(l, s, lh))
  {
    CommitIsLogThenRecover(l, s, lh);
    CommitAppliesAll(l, s, lh);
    var d := Committed(l, s, lh);
    RegroupAll(ws, LogWrites(l, s, lh, |lh|), [Write(l.start, d[l.start])], RecoverWrites(l, d));
  }

  lemma RegroupAll<T>(a: seq<T>, b: seq<T>, c: seq<T>, d: seq<T>)
    ensures a + b + c + d == a + (b + c + d)
  {
  }
}
