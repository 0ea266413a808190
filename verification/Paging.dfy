/** The page allocator and the operations on address spaces. */
module Paging {
  import opened PageFrames
  import opened PageBudget
  import opened PageSteps

  /** Result of `mappages`; Remap is its panic. */
  datatype Mapping = Mapped | NoMemory | Remap

  /** Physical memory and its allocator.  The ledger g is specification only. */
  class Memory {
    var m: Mem
    ghost var g: Ledger

    /** Before `kinit1`: no page is on the free list yet. */
    constructor (pages: seq<Page>, first: nat)
      requires 0 < first
      ensures Inv(m, g) && m == Mem(pages, first, NONE) && g.free == []
      ensures forall f :: 0 <= f < |pages| ==> g.owner[f] == if f < first then Reserved else Taken
    {
      m := Mem(pages, first, NONE);
      g := Ledger([], seq(|pages|, f => if f < first then Reserved else Taken));
    }

    /** `kalloc`: 0 if there is no free page. */
    method Kalloc() returns (f: nat)
      requires Inv(m, g)
      modifies this
      ensures Inv(m, g)
      ensures f == 0 <==> old(g).free == []
      ensures f == 0 ==> m == old(m) && g == old(g)
      ensures f != 0 ==> f == old(g).free[0] < |old(m).pages| && old(m).head == Link(f) && old(g).owner[f].Free?
      ensures f != 0 ==> m == Popped(old(m)) && g == PoppedLedger(old(g))
    {
      f := 0;
      var r := m.head;
      HeadIs(m, g);
      if r != NONE {
        PopKeepsInv(m, g);
        f := r.page - KERNPAGE;
        m := m.(head := m.pages[f][0]);
        g := PoppedLedger(g);
      }
    }

    /** `kfree`: false is the panic on a page outside the allocator's range. */
    method Kfree(f: nat) returns (ok: bool)
      requires |g.owner| == |m.pages|
      modifies this
      ensures ok == (old(m).first <= f < |old(m).pages|)
      ensures ok ==> m == Pushed(old(m), f) && g == PushedLedger(old(g), f)
      ensures !ok ==> m == old(m) && g == old(g)
    {
      if f < m.first || f >= |m.pages| {
        return false;
      }
      var r := FreedPage(m.head);
      m := m.(pages := m.pages[f := r], head := Link(f));
      g := PushedLedger(g, f);
      return true;
    }

    /** `freerange`: all whole pages between two physical addresses go to the free list. */
    method Freerange(vstart: nat, vend: nat)
      requires Inv(m, g) && vend <= |m.pages| * PGSIZE
      requires forall f :: Pages(vstart) <= f < vend / PGSIZE ==> g.owner[f].Taken?
      modifies this
      ensures Inv(m, g) && |g.owner| == |old(g).owner|
      ensures forall f :: 0 <= f < |g.owner| ==>
                g.owner[f] == if Pages(vstart) <= f < vend / PGSIZE then Free else old(g).owner[f]
    {
      var p := Pages(vstart);
      while p + 1 <= vend / PGSIZE
        invariant Pages(vstart) <= p && Inv(m, g) && |g.owner| == |old(g).owner|
        invariant p <= vend / PGSIZE || p == Pages(vstart)
        invariant forall f :: 0 <= f < |g.owner| ==>
                    g.owner[f] == if Pages(vstart) <= f < p then Free else old(g).owner[f]
      {
        PushKeepsInv(m, g, p);
        assert FrameOk(m, g, p);
        var ok := Kfree(p);
        p := p + 1;
      }
    }

    /** `walkpgdir`: the page table for virtual page v, 0 if there is none and none is or can be allocated. */
    method Walkpgdir(d: nat, v: nat, alloc: bool) returns (t: nat)
      requires Inv(m, g) && IsDir(g, d) && v < NPAGES
      modifies this
      ensures Inv(m, g) && IsDir(g, d) && Grows(old(m), old(g), m, g, d, {}) && SamePtes(old(m), old(g), m)
      ensures t != 0 ==> t < |m.pages| && g.owner[t] == Table(d, v / NENTRIES)
      ensures t == 0 ==> !m.pages[d][v / NENTRIES].present && (alloc ==> g.free == [])
      ensures t == 0 || !alloc ==> m == old(m) && g == old(g)
      ensures t != 0 && alloc ==> Funds(m, g, d) == Charge(Funds(old(m), old(g), d), v)
    {
      var i := v / NENTRIES;
      var pde := m.pages[d][i];
      assert FrameOk(m, g, d);
      assert FrameOk(m, g, 0);
      if pde.present {
        TableThere(m.pages[d], |g.free|, v);
        return pde.page;
      }
      if !alloc {
        return 0;
      }
      t := Kalloc();
      if t == 0 {
        return;
      }
      FillKeepsInv(m, g, t, ZeroPage());
      m := Filled(m, t, ZeroPage());
      TableKeepsInv(m, g, d, i, t);
      NewTable(old(m), old(g), m, g, d, i, t);
      TableAdded(m.pages[d], |old(g).free|, v, WithTable(m, d, i, t).pages[d][i]);
      m := WithTable(m, d, i, t);
      g := OwnedAs(g, t, Table(d, i));
    }

    /** One iteration of `mappages`: virtual page a is mapped to physical page q. */
    method MapOne(d: nat, a: nat, q: nat, perm: nat) returns (r: Mapping)
      requires Inv(m, g) && IsDir(g, d) && a < NPAGES && (a < KERNPAGE ==> q < |m.pages| && g.owner[q].Taken?)
      modifies this
      ensures Inv(m, g) && IsDir(g, d) && Grows(old(m), old(g), m, g, d, if a < KERNPAGE then {q} else {})
      ensures forall v :: 0 <= v < NPAGES ==>
                Pte(m, d, v) == if v == a && r.Mapped? then Word(q, true, perm) else Pte(old(m), d, v)
      ensures a < KERNPAGE ==> g.owner[q] == if r.Mapped? then User(d, a / NENTRIES, a % NENTRIES) else Taken
      ensures r.Remap? <==> Pte(old(m), d, a).present
      ensures r.Mapped? ==> Funds(m, g, d) == Charge(Funds(old(m), old(g), d), a)
      ensures r.NoMemory? ==> Charge(Funds(old(m), old(g), d), a).free < 0
    {
      var t := Walkpgdir(d, a, true);
      if t == 0 {
        NoTable(m.pages[d], a);
        return NoMemory;
      }
      TableOf(m, g, d, a, t);
      if m.pages[t][a % NENTRIES].present {
        return Remap;
      }
      var w := Word(q, true, perm);
      NewEntry(old(m), old(g), m, g, d, a, t, w);
      m := WithEntry(m, t, a % NENTRIES, w);
      if a < KERNPAGE {
        g := OwnedAs(g, q, User(d, a / NENTRIES, a % NENTRIES));
      }
      return Mapped;
    }

    /** `mappages` of the virtual pages from that of va to that of the last byte, onto physical pages from p on. */
    method Mappages(d: nat, va: nat, size: nat, p: nat, perm: nat) returns (r: Mapping)
      requires Inv(m, g) && IsDir(g, d) && size > 0 && va + size <= NPAGES * PGSIZE
      requires va / PGSIZE < KERNPAGE ==> (va + size - 1) / PGSIZE == va / PGSIZE && p < |m.pages| && g.owner[p].Taken?
      modifies this
      ensures Inv(m, g) && IsDir(g, d)
      ensures MapsRange(old(m), old(g), m, g, d, va / PGSIZE, (va + size - 1) / PGSIZE, p, perm, r)
      ensures va / PGSIZE < KERNPAGE ==>
                g.owner[p] == if r.Mapped? then User(d, va / PGSIZE / NENTRIES, va / PGSIZE % NENTRIES) else Taken
    {
      r := MapPages(d, va / PGSIZE, (va + size - 1) / PGSIZE, p, perm);
    }

    /** The loop of `mappages`; memory runs out exactly when there are more missing page tables than free frames. */
    method MapPages(d: nat, first: nat, last: nat, p: nat, perm: nat) returns (r: Mapping)
      requires Inv(m, g) && IsDir(g, d) && first <= last < NPAGES
      requires first < KERNPAGE ==> last == first && p < |m.pages| && g.owner[p].Taken?
      modifies this
      ensures Inv(m, g) && IsDir(g, d) && MapsRange(old(m), old(g), m, g, d, first, last, p, perm, r)
      ensures first < KERNPAGE ==>
                g.owner[p] == if r.Mapped? then User(d, first / NENTRIES, first % NENTRIES) else Taken
    {
      var a, pa := first, p;
      while true
        invariant first <= a <= last && pa == p + (a - first) && (first < KERNPAGE ==> m == old(m) && g == old(g))
        invariant Inv(m, g) && IsDir(g, d) && MapsSoFar(old(m), old(g), m, g, d, first, a, p, perm)
        decreases last - a
      {
        r := MapNext(d, a, pa, perm, first, last, p, old(m), old(g));
        if !r.Mapped? || a == last {
          return;
        }
        a, pa := a + 1, pa + 1;
      }
    }

    /** One iteration of `mappages`; the state was m0, g0 before the loop. */
    method MapNext(d: nat, a: nat, pa: nat, perm: nat, ghost first: nat, ghost last: nat, ghost p: nat,
                   ghost m0: Mem, ghost g0: Ledger)
      returns (r: Mapping)
      requires Inv(m, g) && IsDir(g, d) && first <= a <= last < NPAGES && pa == p + (a - first)
      requires first < KERNPAGE ==> last == first && p < |m.pages| && g.owner[p].Taken? && m == m0 && g == g0
      requires MapsSoFar(m0, g0, m, g, d, first, a, p, perm)
      modifies this
      ensures Inv(m, g) && IsDir(g, d)
      ensures if r.Mapped? && a < last then MapsSoFar(m0, g0, m, g, d, first, a + 1, p, perm)
              else MapsRange(m0, g0, m, g, d, first, last, p, perm, r)
      ensures first < KERNPAGE ==>
                g.owner[p] == if r.Mapped? then User(d, first / NENTRIES, first % NENTRIES) else Taken
    {
      ghost var m1, g1 := m, g;
      r := MapOne(d, a, pa, perm);
      if first >= KERNPAGE {
        GrowsTwice(m0, g0, m1, g1, m, g, d);
      }
      MapsMore(m0, m1, m, d, first, a, p, perm, last, r);
      AffordsMore(Funds(m0, g0, d), Funds(m1, g1, d), Funds(m, g, d), first, a, last, r);
    }

    /** `deallocuvm`: the user pages between the two sizes are unmapped and freed; ok is false on one of its panics. */
    method Deallocuvm(d: nat, oldsz: nat, newsz: nat) returns (ok: bool, sz: nat)
      requires Inv(m, g) && IsDir(g, d) && oldsz <= KERNPAGE * PGSIZE
      modifies this
      ensures ok && sz == (if newsz >= oldsz then oldsz else newsz)
      ensures Inv(m, g) && IsDir(g, d)
      ensures newsz >= oldsz ==> m == old(m) && g == old(g)
      ensures newsz < oldsz ==> Shrinks(old(m), old(g), m, g, d, Pages(newsz), Pages(oldsz))
    {
      if newsz >= oldsz {
        return true, oldsz;
      }
      var a := Pages(newsz);
      ShrinksNothing(m, g, d, a);
      ok := true;
      while a * PGSIZE < oldsz
        invariant ok && Pages(newsz) <= a && (a <= Pages(oldsz) || a % NENTRIES == 0) && a <= KERNPAGE
        invariant Inv(m, g) && IsDir(g, d)
        invariant Shrinks(old(m), old(g), m, g, d, Pages(newsz), if a < Pages(oldsz) then a else Pages(oldsz))
      {
        ok, a := UnmapOne(d, a, Pages(oldsz), Pages(newsz), old(m), old(g));
      }
      sz := newsz;
    }

    /** One iteration of `deallocuvm`; a missing page table is skipped as a whole. */
    method UnmapOne(d: nat, a: nat, hi: nat, ghost lo: nat, ghost m0: Mem, ghost g0: Ledger) returns (ok: bool, a': nat)
      requires Inv(m0, g0) && IsDir(g0, d) && Inv(m, g) && IsDir(g, d) && lo <= a < hi <= KERNPAGE
      requires Shrinks(m0, g0, m, g, d, lo, a)
      modifies this
      ensures ok && a < a' <= KERNPAGE && (a' <= hi || a' % NENTRIES == 0)
      ensures Inv(m, g) && IsDir(g, d) && Shrinks(m0, g0, m, g, d, lo, if a' < hi then a' else hi)
    {
      var t := Walkpgdir(d, a, false);
      ok := true;
      if t == 0 {
        a' := NextTable(a) - 1;
        SkipTable(m0, g0, m, g, d, lo, a, if NextTable(a) < hi then NextTable(a) else hi);
      } else {
        a' := a;
        ok := UnmapPage(d, a, t, lo, m0, g0);
      }
      a' := a' + 1;
    }

    method UnmapPage(d: nat, a: nat, t: nat, ghost lo: nat, ghost m0: Mem, ghost g0: Ledger) returns (ok: bool)
      requires Inv(m0, g0) && IsDir(g0, d) && Inv(m, g) && IsDir(g, d) && lo <= a < KERNPAGE
      requires Shrinks(m0, g0, m, g, d, lo, a)
      requires t < |m.pages| && g.owner[t] == Table(d, a / NENTRIES)
      modifies this
      ensures ok && Inv(m, g) && IsDir(g, d) && Shrinks(m0, g0, m, g, d, lo, a + 1)
    {
      ok := true;
      var pte := m.pages[t][a % NENTRIES];
      if pte.present {
        UnmapStep(m0, g0, m, g, d, lo, a, t);
        ok := Kfree(pte.page);
        m := WithEntry(m, t, a % NENTRIES, NONE);
      } else {
        TableOf(m, g, d, a, t);
        NothingMapped(m0, g0, m, g, d, lo, a, a + 1);
      }
    }
  }

  lemma HeadIs(m: Mem, g: Ledger)
    requires Inv(m, g)
    ensures m.head == NONE <==> g.free == []
    ensures g.free != [] ==> m.head == Link(g.free[0]) && 0 < g.free[0] < |m.pages|
  {
    if g.free != [] {
      assert FrameOk(m, g, g.free[0]);
    }
  }

  /** The page tables of directory d and the number of free frames. */
  function Funds(m: Mem, g: Ledger, d: nat): (b: Budget)
    requires d < |m.pages|
  {
    BudgetOf(m.pages[d], |g.free|)
  }

  /**
   What `mappages` does to directory d: it maps all of the range, adding the page tables that are missing, or part of it
   only.  Memory runs out exactly when there are fewer free frames than missing page tables.
   */
  ghost predicate MapsRange(m: Mem, g: Ledger, m': Mem, g': Ledger, d: nat, first: nat, last: nat, p: nat, perm: nat,
                            r: Mapping) {
    && Grows(m, g, m', g', d, if first < KERNPAGE then {p} else {}) && MapsEntries(m, m', d, first, last, p, perm, r)
    && d < |m.pages| && d < |m'.pages| && Affords(Funds(m, g, d), Funds(m', g', d), first, last, r)
  }

  ghost predicate MapsEntries(m: Mem, m': Mem, d: nat, first: nat, last: nat, p: nat, perm: nat, r: Mapping) {
    && (r.Mapped? ==> forall v :: 0 <= v < NPAGES ==>
          Pte(m', d, v) == if first <= v <= last then Word(p + (v - first), true, perm) else Pte(m, d, v))
    && (!r.Mapped? ==> forall v :: 0 <= v < NPAGES && !(first <= v < last) ==> Pte(m', d, v) == Pte(m, d, v))
    && (r.Mapped? ==> forall v :: first <= v <= last && v < NPAGES ==> !Pte(m, d, v).present)
    && (r.Remap? ==> exists v :: first <= v <= last && v < NPAGES && Pte(m, d, v).present)
  }

  predicate Affords(b: Budget, b': Budget, first: nat, last: nat, r: Mapping) {
    && (r.Mapped? ==> b' == ChargeAll(b, first, last + 1))
    && (r.NoMemory? ==> ChargeAll(b, first, last + 1).free < 0)
  }

  /** The loop of `mappages` before virtual page a. */
  ghost predicate MapsSoFar(m: Mem, g: Ledger, m': Mem, g': Ledger, d: nat, first: nat, a: nat, p: nat, perm: nat) {
    && Grows(m, g, m', g', d, {}) && MapsUpto(m, m', d, first, a, p, perm)
    && d < |m.pages| && d < |m'.pages| && Funds(m', g', d) == ChargeAll(Funds(m, g, d), first, a)
  }

  /** The pages from `first` to before a have been mapped. */
  ghost predicate MapsUpto(m: Mem, m': Mem, d: nat, first: nat, a: nat, p: nat, perm: nat) {
    && (forall v :: 0 <= v < NPAGES ==>
          Pte(m', d, v) == if first <= v < a then Word(p + (v - first), true, perm) else Pte(m, d, v))
    && (forall v :: first <= v < a && v < NPAGES ==> !Pte(m, d, v).present)
  }

  lemma AffordsMore(b: Budget, b1: Budget, b2: Budget, first: nat, a: nat, last: nat, r: Mapping)
    requires first <= a <= last && b1 == ChargeAll(b, first, a)
    requires (r.Mapped? ==> b2 == Charge(b1, a)) && (r.NoMemory? ==> Charge(b1, a).free < 0)
    ensures r.Mapped? ==> b2 == ChargeAll(b, first, a + 1)
    ensures !r.Mapped? || a == last ==> Affords(b, b2, first, last, r)
  {
    ChargeLess(b, first, a + 1, last + 1);
  }

  lemma MapsMore(m: Mem, m1: Mem, m2: Mem, d: nat, first: nat, a: nat, p: nat, perm: nat, last: nat, r: Mapping)
    requires MapsUpto(m, m1, d, first, a, p, perm) && first <= a <= last < NPAGES
    requires forall v :: 0 <= v < NPAGES ==>
               Pte(m2, d, v) == if v == a && r.Mapped? then Word(p + (a - first), true, perm) else Pte(m1, d, v)
    requires r.Remap? <==> Pte(m1, d, a).present
    ensures r.Mapped? ==> MapsUpto(m, m2, d, first, a + 1, p, perm)
    ensures !r.Mapped? || a == last ==> MapsEntries(m, m2, d, first, last, p, perm, r)
  {
    assert Pte(m1, d, a) == Pte(m, d, a);
  }

  /** First virtual page of the next page table. */
  function NextTable(a: nat): (b: nat)
    ensures a < b && b % NENTRIES == 0 && (a < KERNPAGE ==> b <= KERNPAGE)
  {
    (a / NENTRIES + 1) * NENTRIES
  }

  /** Without a page table none of the pages up to the next page table are mapped. */
  lemma SkipTable(m0: Mem, g0: Ledger, m: Mem, g: Ledger, d: nat, lo: nat, a: nat, b: nat)
    requires Inv(m0, g0) && IsDir(g0, d) && Inv(m, g) && IsDir(g, d) && Shrinks(m0, g0, m, g, d, lo, a)
    requires lo <= a <= b <= KERNPAGE && a < KERNPAGE && b <= NextTable(a) && !m.pages[d][a / NENTRIES].present
    ensures Shrinks(m0, g0, m, g, d, lo, b)
  {
    forall v | a <= v < b ensures !Pte(m, d, v).present {
      assert v / NENTRIES == a / NENTRIES;
    }
    NothingMapped(m0, g0, m, g, d, lo, a, b);
  }

  lemma ShrinksNothing(m: Mem, g: Ledger, d: nat, a: nat)
    requires Inv(m, g) && a <= NPAGES
    ensures Shrinks(m, g, m, g, d, a, a)
  {
  }

  lemma NewTable(m: Mem, g: Ledger, m1: Mem, g1: Ledger, d: nat, i: nat, t: nat)
    requires Inv(m, g) && IsDir(g, d) && i < NENTRIES && !m.pages[d][i].present && g.free != []
    requires t == g.free[0] < |m.pages|
    requires m.head == Link(t) && g.owner[t].Free? && m1 == Filled(Popped(m), t, ZeroPage()) && g1 == PoppedLedger(g)
    requires Inv(m1, g1)
    ensures Grows(m, g, WithTable(m1, d, i, t), OwnedAs(g1, t, Table(d, i)), d, {})
    ensures SamePtes(m, g, WithTable(m1, d, i, t))
  {
    forall e, v | IsDir(g, e) && 0 <= v < NPAGES ensures Pte(WithTable(m1, d, i, t), e, v) == Pte(m, e, v) {
      TableEntries(m1, g1, d, i, t, e, v / NENTRIES, v % NENTRIES);
      OtherEntries(m, g, t, ZeroPage(), e, v / NENTRIES, v % NENTRIES);
    }
  }

  /** The page table entry is set; before, the page table may have been allocated. */
  lemma NewEntry(m: Mem, g: Ledger, m1: Mem, g1: Ledger, d: nat, a: nat, t: nat, w: Word)
    requires Inv(m1, g1) && IsDir(g1, d) && a < NPAGES && Grows(m, g, m1, g1, d, {})
    requires t < |m1.pages| && g1.owner[t] == Table(d, a / NENTRIES) && !m1.pages[t][a % NENTRIES].present
    requires w.present && (a < KERNPAGE ==> w.page < |m.pages| && g.owner[w.page].Taken?)
    ensures var m2, g2 := WithEntry(m1, t, a % NENTRIES, w),
                          if a < KERNPAGE then OwnedAs(g1, w.page, User(d, a / NENTRIES, a % NENTRIES)) else g1;
            && Inv(m2, g2) && IsDir(g2, d) && Grows(m, g, m2, g2, d, if a < KERNPAGE then {w.page} else {})
            && forall v :: 0 <= v < NPAGES ==> Pte(m2, d, v) == if v == a then w else Pte(m1, d, v)
  {
    var i, j := a / NENTRIES, a % NENTRIES;
    if a < KERNPAGE {
      MapKeepsInv(m1, g1, t, d, i, j, w);
    } else {
      KernelMapKeepsInv(m1, g1, t, d, i, j, w);
    }
    forall v | 0 <= v < NPAGES ensures Pte(WithEntry(m1, t, j, w), d, v) == if v == a then w else Pte(m1, d, v) {
      SetEntries(m1, g1, t, d, i, j, w, d, v / NENTRIES, v % NENTRIES);
      SameVPage(v, a);
    }
  }
}
