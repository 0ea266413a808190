/** Building, growing, copying and freeing an address space. */
module AddressSpace {
  import opened PageFrames
  import opened PageBudget
  import opened PageSteps
  import opened Paging

  const KERNBASE: nat := 0x8000_0000
  /** The flags of a writable user page. */
  const W_U: nat := 3

  lemma OnePage(a: nat)
    ensures a * PGSIZE / PGSIZE == a && (a * PGSIZE + PGSIZE - 1) / PGSIZE == a
  {
  }

  // ------------------------------------------------------------------
  // One new page

  /**
   Allocate a page, fill it with p and map it at virtual page a of directory d.
   m0, g0 is an earlier state from which d has grown to the present one.
   */
  method AddPage(k: Memory, d: nat, a: nat, p: Page, flags: nat, ghost m0: Mem, ghost g0: Ledger)
    returns (r: Mapping, mem: nat)
    requires Inv(k.m, k.g) && IsDir(k.g, d) && a < KERNPAGE && !Pte(k.m, d, a).present && Grows(m0, g0, k.m, k.g, d, {})
    modifies k
    ensures Inv(k.m, k.g) && IsDir(k.g, d) && !r.Remap? && (r.Mapped? ==> mem != 0)
    ensures Grows(m0, g0, k.m, k.g, d, if r.Mapped? || mem == 0 then {} else {mem})
    ensures mem != 0 && !r.Mapped? ==> mem < |k.g.owner| && g0.owner[mem].Free? && k.g.owner[mem].Taken?
    ensures forall v :: 0 <= v < NPAGES ==>
              Pte(k.m, d, v) == if v == a && r.Mapped? then Word(mem, true, flags) else Pte(old(k.m), d, v)
    ensures r.Mapped? ==> mem < |k.m.pages| && k.m.pages[mem] == p
    ensures KeepsUsers(old(k.m), old(k.g), k.m)
    ensures GrowsPage(Funds(old(k.m), old(k.g), d), Funds(k.m, k.g, d), a, r.Mapped?)
  {
    ghost var m1, g1 := k.m, k.g;
    mem := k.Kalloc();
    if mem == 0 {
      NoFrame(Funds(m1, g1, d), a);
      r := NoMemory;
      return;
    }
    FillKeepsInv(k.m, k.g, mem, p);
    PageInHand(m1, g1, p, d);
    k.m := Filled(k.m, mem, p);
    ghost var b := Funds(k.m, k.g, d);
    r := MapAt(k, d, a, mem, flags);
    GrowsWithPage(m0, g0, m1, g1, p, k.m, k.g, d);
    PagePaid(Funds(m1, g1, d), b, Funds(k.m, k.g, d), a, r);
  }

  /** Page a has been added at the cost of its frame and its page table, or there are too few frames for that. */
  predicate GrowsPage(b: Budget, b': Budget, a: nat, mapped: bool) {
    if mapped then b' == GrowPage(b, a) else GrowPage(b, a).free < 0
  }

  lemma NoFrame(b: Budget, a: nat)
    requires b.free == 0
    ensures GrowPage(b, a).free < 0
  {
  }

  lemma PagePaid(b: Budget, b1: Budget, b2: Budget, a: nat, r: Mapping)
    requires b1 == b.(free := b.free - 1) && Affords(b1, b2, a, a, r) && !r.Remap?
    ensures GrowsPage(b, b2, a, r.Mapped?)
  {
    assert ChargeAll(b1, a, a) == b1;
    assert ChargeAll(b1, a, a + 1) == Charge(b1, a);
  }

  /** A call of `mappages` for one user page. */
  method MapAt(k: Memory, d: nat, a: nat, mem: nat, flags: nat) returns (r: Mapping)
    requires Inv(k.m, k.g) && IsDir(k.g, d) && a < KERNPAGE && !Pte(k.m, d, a).present && mem < |k.m.pages|
    requires k.g.owner[mem].Taken?
    modifies k
    ensures Inv(k.m, k.g) && IsDir(k.g, d) && !r.Remap? && Grows(old(k.m), old(k.g), k.m, k.g, d, {mem})
    ensures forall v :: 0 <= v < NPAGES ==>
              Pte(k.m, d, v) == if v == a && r.Mapped? then Word(mem, true, flags) else Pte(old(k.m), d, v)
    ensures if r.Mapped? then k.g.owner[mem].User? else k.g.owner[mem].Taken?
    ensures Affords(Funds(old(k.m), old(k.g), d), Funds(k.m, k.g, d), a, a, r)
  {
    OnePage(a);
    r := k.Mappages(d, a * PGSIZE, PGSIZE, mem, flags);
  }

  /** The user pages keep their content. */
  ghost predicate KeepsUsers(m: Mem, g: Ledger, m': Mem) {
    && |m'.pages| == |m.pages| == |g.owner|
    && forall f :: 0 <= f < |g.owner| && g.owner[f].User? ==> m'.pages[f] == m.pages[f]
  }

  lemma PageInHand(m: Mem, g: Ledger, p: Page, d: nat)
    requires Inv(m, g) && IsDir(g, d) && g.free != [] && g.free[0] < |m.pages| && m.head == Link(g.free[0])
    requires g.owner[g.free[0]].Free?
    ensures IsDir(PoppedLedger(g), d)
    ensures forall v :: 0 <= v < NPAGES ==> Pte(Filled(Popped(m), g.free[0], p), d, v) == Pte(m, d, v)
  {
    forall v | 0 <= v < NPAGES ensures Pte(Filled(Popped(m), g.free[0], p), d, v) == Pte(m, d, v) {
      OtherEntries(m, g, g.free[0], p, d, v / NENTRIES, v % NENTRIES);
    }
  }

  // ------------------------------------------------------------------
  // allocuvm

  /** Virtual page v of d is a page of zeros that the user may read and write. */
  predicate ZeroMapped(m: Mem, d: nat, v: nat)
    requires v < NPAGES
  {
    var w := Pte(m, d, v);
    && w.present && w.flags == W_U && WriteBit(w) && UserBit(w)
    && w.page < |m.pages| && m.pages[w.page] == ZeroPage()
  }

  /** The pages lo to hi of d are new pages of zeros, and the others are mapped as before. */
  ghost predicate Extended(m: Mem, m': Mem, d: nat, lo: nat, hi: nat) {
    forall v :: 0 <= v < NPAGES ==> if lo <= v < hi then ZeroMapped(m', d, v) else Pte(m', d, v) == Pte(m, d, v)
  }

  lemma ExtendedMore(m: Mem, m1: Mem, g1: Ledger, m2: Mem, d: nat, lo: nat, a: nat, mem: nat)
    requires Extended(m, m1, d, lo, a) && lo <= a < KERNPAGE && Inv(m1, g1) && IsDir(g1, d) && KeepsUsers(m1, g1, m2)
    requires forall v :: 0 <= v < NPAGES ==> Pte(m2, d, v) == if v == a then Word(mem, true, W_U) else Pte(m1, d, v)
    requires mem < |m2.pages| && m2.pages[mem] == ZeroPage()
    ensures Extended(m, m2, d, lo, a + 1)
  {
    forall v | lo <= v < a ensures ZeroMapped(m2, d, v) {
      UserPage(m1, g1, d, v);
    }
  }

  /**
   `allocuvm`: grown is false when it refuses or memory runs out; then all pages are mapped as before.  Memory runs out
   exactly when there are fewer free frames than pages to be added and page tables missing for them.
   */
  method Allocuvm(k: Memory, d: nat, oldsz: nat, newsz: nat) returns (r: nat, grown: bool)
    requires Inv(k.m, k.g) && IsDir(k.g, d)
    requires newsz < KERNBASE ==> forall v :: Pages(oldsz) <= v < Pages(newsz) ==> !Pte(k.m, d, v).present
    modifies k
    ensures Inv(k.m, k.g) && IsDir(k.g, d) && Grows(old(k.m), old(k.g), k.m, k.g, d, {})
    ensures newsz >= KERNBASE ==> !grown && r == 0 && k.m == old(k.m)
    ensures newsz < oldsz && newsz < KERNBASE ==> !grown && r == oldsz && k.m == old(k.m)
    ensures grown ==> oldsz <= newsz == r && Extended(old(k.m), k.m, d, Pages(oldsz), Pages(newsz))
    ensures !grown ==> (r == 0 || r == oldsz) && forall v :: 0 <= v < NPAGES ==> Pte(k.m, d, v) == Pte(old(k.m), d, v)
    ensures oldsz <= newsz < KERNBASE ==>
              GrowsTo(Funds(old(k.m), old(k.g), d), Funds(k.m, k.g, d), Pages(oldsz), Pages(newsz), grown)
  {
    if newsz >= KERNBASE {
      return 0, false;
    }
    if newsz < oldsz {
      return oldsz, false;
    }
    grown := GrowPages(k, d, oldsz, newsz);
    return if grown then newsz else 0, grown;
  }

  /** The loop of `allocuvm`. */
  method GrowPages(k: Memory, d: nat, oldsz: nat, newsz: nat) returns (grown: bool)
    requires Inv(k.m, k.g) && IsDir(k.g, d) && oldsz <= newsz < KERNBASE
    requires forall v :: Pages(oldsz) <= v < Pages(newsz) ==> !Pte(k.m, d, v).present
    modifies k
    ensures Inv(k.m, k.g) && IsDir(k.g, d) && Grows(old(k.m), old(k.g), k.m, k.g, d, {})
    ensures grown ==> Extended(old(k.m), k.m, d, Pages(oldsz), Pages(newsz))
    ensures !grown ==> forall v :: 0 <= v < NPAGES ==> Pte(k.m, d, v) == Pte(old(k.m), d, v)
    ensures GrowsTo(Funds(old(k.m), old(k.g), d), Funds(k.m, k.g, d), Pages(oldsz), Pages(newsz), grown)
  {
    ghost var m0, g0 := k.m, k.g;
    var a := Pages(oldsz);
    while a * PGSIZE < newsz
      invariant Pages(oldsz) <= a <= Pages(newsz)
      invariant Inv(k.m, k.g) && IsDir(k.g, d) && Grows(m0, g0, k.m, k.g, d, {})
      invariant Extended(m0, k.m, d, Pages(oldsz), a) && Funds(k.m, k.g, d) == Grow(Funds(m0, g0, d), Pages(oldsz), a)
    {
      var ok := GrowOrUndo(k, d, a, oldsz, newsz, m0, g0);
      if !ok {
        return false;
      }
      a := a + 1;
    }
    return true;
  }

  /** One iteration of `allocuvm`. */
  method GrowOrUndo(k: Memory, d: nat, a: nat, oldsz: nat, newsz: nat, ghost m0: Mem, ghost g0: Ledger)
    returns (ok: bool)
    requires Inv(m0, g0) && IsDir(g0, d) && oldsz <= newsz < KERNBASE && Pages(oldsz) <= a < Pages(newsz)
    requires forall v :: Pages(oldsz) <= v < Pages(newsz) ==> !Pte(m0, d, v).present
    requires Inv(k.m, k.g) && IsDir(k.g, d) && Grows(m0, g0, k.m, k.g, d, {})
    requires Extended(m0, k.m, d, Pages(oldsz), a) && Funds(k.m, k.g, d) == Grow(Funds(m0, g0, d), Pages(oldsz), a)
    modifies k
    ensures Inv(k.m, k.g) && IsDir(k.g, d) && Grows(m0, g0, k.m, k.g, d, {})
    ensures ok ==> Extended(m0, k.m, d, Pages(oldsz), a + 1)
    ensures ok ==> Funds(k.m, k.g, d) == Grow(Funds(m0, g0, d), Pages(oldsz), a + 1)
    ensures !ok ==> forall v :: 0 <= v < NPAGES ==> Pte(k.m, d, v) == Pte(m0, d, v)
    ensures !ok ==> Grow(Funds(m0, g0, d), Pages(oldsz), Pages(newsz)).free < 0
  {
    var mem;
    ok, mem := GrowOne(k, d, a, Pages(oldsz), Pages(newsz), m0, g0);
    if !ok {
      Undo(k, d, oldsz, newsz, mem, m0, g0);
    }
  }

  /** The pages lo to hi have been added, or there are too few frames for them. */
  predicate GrowsTo(b: Budget, b': Budget, lo: nat, hi: nat, grown: bool) {
    if grown then b' == Grow(b, lo, hi) else Grow(b, lo, hi).free < 0
  }

  lemma GrowsMore(b: Budget, b1: Budget, b2: Budget, lo: nat, a: nat, hi: nat, ok: bool)
    requires lo <= a < hi && b1 == Grow(b, lo, a) && GrowsPage(b1, b2, a, ok)
    ensures ok ==> b2 == Grow(b, lo, a + 1)
    ensures !ok ==> Grow(b, lo, hi).free < 0
  {
    GrowLess(b, lo, a + 1, hi);
  }

  /** The page of one iteration; mem is the frame that was allocated, if any. */
  method GrowOne(k: Memory, d: nat, a: nat, ghost lo: nat, ghost hi: nat, ghost m0: Mem, ghost g0: Ledger)
    returns (ok: bool, mem: nat)
    requires Inv(k.m, k.g) && IsDir(k.g, d) && lo <= a < hi <= KERNPAGE && !Pte(m0, d, a).present
    requires d < |m0.pages| && Funds(k.m, k.g, d) == Grow(Funds(m0, g0, d), lo, a)
    requires Grows(m0, g0, k.m, k.g, d, {}) && Extended(m0, k.m, d, lo, a)
    modifies k
    ensures Inv(k.m, k.g) && IsDir(k.g, d) && Grows(m0, g0, k.m, k.g, d, if ok || mem == 0 then {} else {mem})
    ensures ok ==> Extended(m0, k.m, d, lo, a + 1)
    ensures !ok ==> forall v :: 0 <= v < NPAGES && !(lo <= v < a) ==> Pte(k.m, d, v) == Pte(m0, d, v)
    ensures !ok && mem != 0 ==> mem < |g0.owner| && g0.owner[mem].Free? && k.g.owner[mem].Taken?
    ensures ok ==> Funds(k.m, k.g, d) == Grow(Funds(m0, g0, d), lo, a + 1)
    ensures !ok ==> Grow(Funds(m0, g0, d), lo, hi).free < 0
  {
    ghost var m1, g1 := k.m, k.g;
    var res;
    res, mem := AddPage(k, d, a, ZeroPage(), W_U, m0, g0);
    ok := res.Mapped?;
    GrowsMore(Funds(m0, g0, d), Funds(m1, g1, d), Funds(k.m, k.g, d), lo, a, hi, ok);
    if ok {
      ExtendedMore(m0, m1, g1, k.m, d, lo, a, mem);
    }
  }

  /** The two error paths of `allocuvm`; mem is the page that could not be mapped, if there is one. */
  method Undo(k: Memory, d: nat, oldsz: nat, newsz: nat, mem: nat, ghost m0: Mem, ghost g0: Ledger)
    requires Inv(m0, g0) && IsDir(g0, d) && Inv(k.m, k.g) && IsDir(k.g, d) && oldsz <= newsz < KERNBASE
    requires Pages(oldsz) < Pages(newsz)
    requires forall v :: Pages(oldsz) <= v < Pages(newsz) ==> !Pte(m0, d, v).present
    requires Grows(m0, g0, k.m, k.g, d, if mem == 0 then {} else {mem})
    requires forall v :: 0 <= v < NPAGES && !(Pages(oldsz) <= v < Pages(newsz)) ==> Pte(k.m, d, v) == Pte(m0, d, v)
    requires mem != 0 ==> mem < |g0.owner| && g0.owner[mem].Free? && k.g.owner[mem].Taken?
    modifies k
    ensures Inv(k.m, k.g) && IsDir(k.g, d) && Grows(m0, g0, k.m, k.g, d, {})
    ensures forall v :: 0 <= v < NPAGES ==> Pte(k.m, d, v) == Pte(m0, d, v)
  {
    ghost var m1, g1, lo, hi := k.m, k.g, Pages(oldsz), Pages(newsz);
    var ok, sz := k.Deallocuvm(d, newsz, oldsz);
    Rollback(m0, g0, m1, g1, k.m, k.g, d, lo, hi, if mem == 0 then {} else {mem});
    if mem != 0 {
      Returned(m0, g0, k.m, k.g, d, mem);
      ok := k.Kfree(mem);
    }
  }

  /** Freeing a page in hand. */
  lemma Returned(m0: Mem, g0: Ledger, m: Mem, g: Ledger, d: nat, f: nat)
    requires Inv(m, g) && IsDir(g, d) && Grows(m0, g0, m, g, d, {f}) && f < |g0.owner| && g0.owner[f].Free?
    requires g.owner[f].Taken?
    ensures m.first <= f && Inv(Pushed(m, f), PushedLedger(g, f)) && IsDir(PushedLedger(g, f), d)
    ensures Grows(m0, g0, Pushed(m, f), PushedLedger(g, f), d, {})
    ensures forall v :: 0 <= v < NPAGES ==> Pte(Pushed(m, f), d, v) == Pte(m, d, v)
  {
    assert FrameOk(m, g, f);
    PushKeepsInv(m, g, f);
    GiveBack(m0, g0, m, g, d, f);
    forall v | 0 <= v < NPAGES ensures Pte(Pushed(m, f), d, v) == Pte(m, d, v) {
      OtherEntries(m, g, f, FreedPage(m.head), d, v / NENTRIES, v % NENTRIES);
    }
  }

  // ------------------------------------------------------------------
  // freevm

  /** Exactly the frames of directory d have become free. */
  ghost predicate Dissolved(m: Mem, g: Ledger, m': Mem, g': Ledger, d: nat) {
    && |m'.pages| == |m.pages| == |g.owner| == |g'.owner| && m'.first == m.first
    && forall f :: 0 <= f < |g.owner| ==>
         && g'.owner[f] == (if Belongs(g.owner[f], f, d) then Free else g.owner[f])
         && (g'.owner[f].Free? || m'.pages[f] == m.pages[f])
  }

  /** `freevm`; ok is false on one of its panics. */
  method Freevm(k: Memory, d: nat) returns (ok: bool)
    requires Inv(k.m, k.g) && IsDir(k.g, d)
    modifies k
    ensures ok && Inv(k.m, k.g) && Dissolved(old(k.m), old(k.g), k.m, k.g, d)
  {
    var sz;
    ok, sz := k.Deallocuvm(d, KERNBASE, 0);
    ghost var m1, g1 := k.m, k.g;
    AllUnmapped(old(k.m), old(k.g), m1, g1, d);
    DetachKeepsInv(k.m, k.g, d);
    k.g := DetachedLedger(k.g, d);
    ok := FreeTables(k, d, m1, g1);
    LastFrame(m1, g1, k.m, k.g, d);
    DissolvedAll(old(k.m), old(k.g), m1, g1, k.m, k.g, d);
    ok := k.Kfree(d);
  }

  /** Use of frame f after the first i entries of directory d have been freed; the directory had no user pages left. */
  function Freeing(o: Owner, f: nat, d: nat, i: nat): (o': Owner) {
    if o.Table? && o.d == d && o.i < i then Free else Detached(o, f, d)
  }

  ghost predicate FreedUpto(m: Mem, g: Ledger, m': Mem, g': Ledger, d: nat, i: nat) {
    && |m'.pages| == |m.pages| == |g.owner| == |g'.owner| && m'.first == m.first
    && forall f :: 0 <= f < |g.owner| ==>
         g'.owner[f] == Freeing(g.owner[f], f, d, i) && (g'.owner[f].Free? || m'.pages[f] == m.pages[f])
  }

  /** The loop of `freevm` over the entries of the directory. */
  method FreeTables(k: Memory, d: nat, ghost m1: Mem, ghost g1: Ledger) returns (ok: bool)
    requires Inv(m1, g1) && IsDir(g1, d) && Inv(k.m, k.g) && FreedUpto(m1, g1, k.m, k.g, d, 0)
    modifies k
    ensures ok && Inv(k.m, k.g) && FreedUpto(m1, g1, k.m, k.g, d, NENTRIES)
  {
    ok := true;
    var i := 0;
    while i < NENTRIES
      invariant ok && 0 <= i <= NENTRIES && Inv(k.m, k.g) && FreedUpto(m1, g1, k.m, k.g, d, i)
    {
      FreeEntry(m1, g1, k.m, k.g, d, i);
      if k.m.pages[d][i].present {
        ok := k.Kfree(k.m.pages[d][i].page);
      }
      i := i + 1;
    }
  }

  lemma FreeEntry(m1: Mem, g1: Ledger, m: Mem, g: Ledger, d: nat, i: nat)
    requires Inv(m1, g1) && IsDir(g1, d) && Inv(m, g) && FreedUpto(m1, g1, m, g, d, i) && i < NENTRIES
    ensures !m.pages[d][i].present ==> FreedUpto(m1, g1, m, g, d, i + 1)
    ensures m.pages[d][i].present ==>
              var f := m.pages[d][i].page;
              && m.first <= f < |m.pages| && Inv(Pushed(m, f), PushedLedger(g, f))
              && FreedUpto(m1, g1, Pushed(m, f), PushedLedger(g, f), d, i + 1)
  {
    assert FrameOk(m1, g1, d);
    var w := m.pages[d][i];
    if w.present {
      assert g1.owner[w.page] == Table(d, i);
      assert FrameOk(m, g, w.page);
      PushKeepsInv(m, g, w.page);
    }
    forall x | 0 <= x < |g1.owner| && g1.owner[x] == Table(d, i) ensures w.present && w.page == x {
      assert FrameOk(m1, g1, x);
    }
  }

  lemma AllUnmapped(m: Mem, g: Ledger, m1: Mem, g1: Ledger, d: nat)
    requires Inv(m, g) && Shrinks(m, g, m1, g1, d, 0, KERNPAGE)
    ensures forall f :: 0 <= f < |g1.owner| ==> !(g1.owner[f].User? && g1.owner[f].d == d)
    ensures FreedUpto(m1, g1, m1, DetachedLedger(g1, d), d, 0)
  {
    forall f | 0 <= f < |g1.owner| ensures !(g1.owner[f].User? && g1.owner[f].d == d) {
      if g.owner[f].User? {
        UserIsMapped(m, g, f);
      }
    }
  }

  lemma LastFrame(m1: Mem, g1: Ledger, m: Mem, g: Ledger, d: nat)
    requires Inv(m1, g1) && IsDir(g1, d) && Inv(m, g) && FreedUpto(m1, g1, m, g, d, NENTRIES)
    ensures m.first <= d < |m.pages| && Inv(Pushed(m, d), PushedLedger(g, d))
  {
    assert FrameOk(m, g, d);
    PushKeepsInv(m, g, d);
  }

  lemma DissolvedAll(m: Mem, g: Ledger, m1: Mem, g1: Ledger, m2: Mem, g2: Ledger, d: nat)
    requires Inv(m, g) && Inv(m1, g1) && IsDir(g1, d) && Shrinks(m, g, m1, g1, d, 0, KERNPAGE)
    requires FreedUpto(m1, g1, m2, g2, d, NENTRIES)
    ensures Dissolved(m, g, Pushed(m2, d), PushedLedger(g2, d), d)
  {
    forall f | 0 <= f < |g.owner| && f != d
      ensures g2.owner[f] == (if Belongs(g.owner[f], f, d) then Free else g.owner[f])
    {
      assert FrameOk(m1, g1, f);
      if g.owner[f].User? {
        UserIsMapped(m, g, f);
      }
    }
  }
}
