/** The kernel half of an address space, and the copy of an address space for a child process. */
module ForkMemory {
  import opened PageFrames
  import opened PageBudget
  import opened PageSteps
  import opened Paging
  import opened AddressSpace

  // ------------------------------------------------------------------
  // The kernel's mappings

  /** `count` virtual pages from virt on, mapped to physical pages from phys on. */
  datatype Range = Range(virt: nat, phys: nat, count: nat, flags: nat)

  const NRANGES: nat := 4

  /** The virtual page where the kernel's data begins, after its text and before the end of memory. */
  type DataPage = x: nat | 0x8_0100 < x < 0x8_e000 witness 0x8_0101

  /** The table `kmap`; PTE_W is flag bit 1. */
  function Kmap(data: DataPage, k: nat): (r: Range)
    requires k < NRANGES
    ensures KERNPAGE <= r.virt && 0 < r.count && r.virt + r.count <= NPAGES
  {
    if k == 0 then Range(KERNPAGE, 0, 0x100, 1)
    else if k == 1 then Range(0x8_0100, 0x100, data - 0x8_0100, 0)
    else if k == 2 then Range(data, data - KERNPAGE, 0x8_e000 - data, 1)
    else Range(0xf_e000, 0xf_e000, 0x2000, 1)
  }

  /** Virtual page v is in range k. */
  predicate InRange(data: DataPage, k: nat, v: nat)
    requires k < NRANGES
  {
    Kmap(data, k).virt <= v < Kmap(data, k).virt + Kmap(data, k).count
  }

  /** The entry that the first n ranges give virtual page v. */
  function KernelPte(data: DataPage, n: nat, v: nat): (w: Word)
    requires n <= NRANGES
    ensures w == NONE || (w.present && v >= KERNPAGE)
  {
    if n == 0 then NONE
    else if InRange(data, n - 1, v) then
      var r := Kmap(data, n - 1);
      Word(r.phys + (v - r.virt), true, r.flags)
    else KernelPte(data, n - 1, v)
  }

  /** The ranges do not overlap, so no page is mapped twice. */
  lemma {:induction false} RangesDisjoint(data: DataPage, n: nat, k: nat, v: nat)
    requires n <= k < NRANGES && InRange(data, k, v)
    ensures KernelPte(data, n, v) == NONE
  {
    if n > 0 {
      RangesDisjoint(data, n - 1, k, v);
    }
  }

  /**
   The whole kernel half: memory one to one from KERNBASE on, of which the kernel's text
   is read-only, and the devices at the top at their own addresses.  No page is for the user.
   */
  lemma KernelPteIs(data: DataPage, v: nat)
    requires v < NPAGES
    ensures var w := KernelPte(data, NRANGES, v);
            && (w.present <==> 0x8_0000 <= v < 0x8_e000 || 0xf_e000 <= v)
            && (w.present ==> w.page == (if v < 0xf_e000 then v - 0x8_0000 else v))
            && (w.present ==> !UserBit(w) && (WriteBit(w) <==> !(0x8_0100 <= v < data)))
  {
    var w := KernelPte(data, 4, v);
    if v >= 0xf_e000 {
      assert InRange(data, 3, v);
    } else if v >= KERNPAGE {
      BelowDevices(data, v);
    }
  }

  lemma BelowDevices(data: DataPage, v: nat)
    requires KERNPAGE <= v < 0xf_e000
    ensures KernelPte(data, 4, v) ==
            if v < 0x8_0100 then Word(v - KERNPAGE, true, 1)
            else if v < data then Word(v - KERNPAGE, true, 0)
            else if v < 0x8_e000 then Word(v - KERNPAGE, true, 1)
            else NONE
  {
    assert KernelPte(data, 4, v) == KernelPte(data, 3, v);
    if v < data || v >= 0x8_e000 {
      assert KernelPte(data, 3, v) == KernelPte(data, 2, v);
      if v < 0x8_0100 || v >= data {
        assert KernelPte(data, 2, v) == KernelPte(data, 1, v);
        assert KernelPte(data, 0, v) == NONE;
      }
    }
  }

  /** Physical memory is mapped one to one from KERNBASE up to its end, as P2V and V2P expect. */
  lemma KernelSeesMemory(data: DataPage, f: nat)
    requires f < 0xe000
    ensures KernelPte(data, NRANGES, KERNPAGE + f).present && KernelPte(data, NRANGES, KERNPAGE + f).page == f
  {
    KernelPteIs(data, KERNPAGE + f);
  }

  /** A user program can reach no page of directory d from KERNBASE on. */
  ghost predicate KernelHidden(m: Mem, d: nat) {
    forall v :: KERNPAGE <= v < NPAGES && Pte(m, d, v).present ==> !UserBit(Pte(m, d, v))
  }

  lemma KernelIsHidden(m: Mem, d: nat, data: DataPage)
    requires forall v :: KERNPAGE <= v < NPAGES ==> Pte(m, d, v) == KernelPte(data, NRANGES, v)
    ensures KernelHidden(m, d)
  {
    forall v | KERNPAGE <= v < NPAGES && Pte(m, d, v).present ensures !UserBit(Pte(m, d, v)) {
      KernelPteIs(data, v);
    }
  }

  /** The entries of directory d are those of the first n ranges. */
  ghost predicate KernelHalf(m: Mem, d: nat, data: DataPage, n: nat)
    requires n <= NRANGES
  {
    forall v :: 0 <= v < NPAGES ==> Pte(m, d, v) == KernelPte(data, n, v)
  }

  // ------------------------------------------------------------------
  // What the kernel half costs

  /** A new directory with n free frames left. */
  function Empty(n: int): (b: Budget) {
    Budget(Present(ZeroPage()), n)
  }

  /** What is left after the first n ranges have been mapped. */
  function KernelCharge(data: DataPage, b: Budget, n: nat): (b': Budget)
    requires n <= NRANGES
  {
    if n == 0 then b
    else
      var r := Kmap(data, n - 1);
      ChargeAll(KernelCharge(data, b, n - 1), r.virt, r.virt + r.count)
  }

  lemma {:induction false} KernelChargeLess(data: DataPage, b: Budget, c: nat, n: nat)
    requires c <= n <= NRANGES
    ensures KernelCharge(data, b, n).free <= KernelCharge(data, b, c).free
  {
    if c < n {
      KernelChargeLess(data, b, c, n - 1);
      var b1, r := KernelCharge(data, b, n - 1), Kmap(data, n - 1);
      ChargeLess(b1, r.virt, r.virt, r.virt + r.count);
    }
  }

  /** Exactly the page tables from KERNPDX to before e are there. */
  predicate TablesUpto(b: Budget, e: nat) {
    |b.tables| == NENTRIES && forall k :: 0 <= k < NENTRIES ==> (b.tables[k] <==> KERNPDX <= k < e)
  }

  /** A range that goes on where the last one ended, perhaps within the same page table. */
  lemma NextRange(b: Budget, e: nat, lo: nat, hi: nat)
    requires TablesUpto(b, e) && KERNPDX <= lo / NENTRIES <= e <= lo / NENTRIES + 1
    requires lo < hi && e <= TablesEnd(hi) <= NENTRIES
    ensures TablesUpto(ChargeAll(b, lo, hi), TablesEnd(hi))
    ensures ChargeAll(b, lo, hi).free == b.free - (TablesEnd(hi) - e)
  {
    ChargeAllIs(b, lo, hi);
    MissingFrom(b.tables, lo / NENTRIES, e, TablesEnd(hi));
  }

  /** The devices at the top of the address space. */
  lemma LastRange(b: Budget)
    requires TablesUpto(b, 568)
    ensures ChargeAll(b, 0xf_e000, 0x10_0000).free == b.free - 8
    ensures var t := ChargeAll(b, 0xf_e000, 0x10_0000).tables; |t| == NENTRIES && forall k :: 0 <= k < KERNPDX ==> !t[k]
  {
    ChargeAllIs(b, 0xf_e000, 0x10_0000);
    MissingFrom(b.tables, 1016, 1016, 1024);
  }

  lemma EmptyTables(n: int)
    ensures TablesUpto(Empty(n), KERNPDX)
  {
    forall k | 0 <= k < NENTRIES ensures !Present(ZeroPage())[k] {
      PresentIs(ZeroPage(), k);
    }
  }

  /** The first three ranges need 56 page tables, wherever the kernel's data begins. */
  lemma MemoryCost(data: DataPage, n: int)
    ensures KernelCharge(data, Empty(n), 3).free == n - 56 && TablesUpto(KernelCharge(data, Empty(n), 3), 568)
  {
    var b0, b1, b2 := Empty(n), KernelCharge(data, Empty(n), 1), KernelCharge(data, Empty(n), 2);
    EmptyTables(n);
    assert KernelCharge(data, b0, 0) == b0;
    NextRange(b0, KERNPDX, KERNPAGE, 0x8_0100);
    NextRange(b1, 513, 0x8_0100, data);
    NextRange(b2, TablesEnd(data), data, 0x8_e000);
  }

  /** All four ranges need 64 page tables, none of them for user pages. */
  lemma KernelCost(data: DataPage, n: int)
    ensures KernelCharge(data, Empty(n), NRANGES).free == n - 64
    ensures NoUserTables(KernelCharge(data, Empty(n), NRANGES))
  {
    MemoryCost(data, n);
    LastRange(KernelCharge(data, Empty(n), 3));
  }

  predicate NoUserTables(b: Budget) {
    |b.tables| == NENTRIES && forall k :: 0 <= k < KERNPDX ==> !b.tables[k]
  }

  // ------------------------------------------------------------------
  // setupkvm

  /** The frames of a kernel half: the directory and the page tables. */
  const KERNEL_FRAMES: nat := 65

  /**
   `setupkvm`: 0 if memory runs out, and then every frame is used as before.  Memory runs out exactly when there are
   fewer free frames than the kernel half takes.
   */
  method Setupkvm(k: Memory, data: DataPage) returns (d: nat)
    requires Inv(k.m, k.g)
    modifies k
    ensures Inv(k.m, k.g)
    ensures d == 0 ==> k.g.owner == old(k.g).owner && KeepsContent(old(k.m), old(k.g), k.m)
    ensures d != 0 ==> IsDir(k.g, d) && d < |old(k.g).owner| && old(k.g).owner[d].Free?
    ensures d != 0 ==> Grows(old(k.m), old(k.g), k.m, k.g, d, {}) && KernelHalf(k.m, d, data, NRANGES)
    ensures d != 0 <==> |old(k.g).free| >= KERNEL_FRAMES
    ensures d != 0 ==> |k.g.free| == |old(k.g).free| - KERNEL_FRAMES && NoUserTables(Funds(k.m, k.g, d))
    ensures d != 0 ==> KernelHidden(k.m, d)
  {
    ghost var m0, g0, left := k.m, k.g, |k.g.free| - 1;
    d := NewDirectory(k);
    if d == 0 {
      return;
    }
    var n := 0;
    while n < NRANGES
      invariant 0 <= n <= NRANGES && Inv(k.m, k.g) && IsDir(k.g, d)
      invariant Grows(m0, g0, k.m, k.g, d, {}) && KernelHalf(k.m, d, data, n)
      invariant Funds(k.m, k.g, d) == KernelCharge(data, Empty(left), n)
    {
      var mapped := MapRange(k, d, data, n, left, m0, g0);
      if !mapped {
        Abandon(k, d, m0, g0);
        return 0;
      }
      n := n + 1;
    }
    KernelPaid(data, n, left, Funds(k.m, k.g, d));
    KernelIsHidden(k.m, d, data);
  }

  /** Frames in use keep their content. */
  ghost predicate KeepsContent(m: Mem, g: Ledger, m': Mem) {
    && |m'.pages| == |m.pages| == |g.owner|
    && forall f :: 0 <= f < |g.owner| && !g.owner[f].Free? ==> m'.pages[f] == m.pages[f]
  }

  method NewDirectory(k: Memory) returns (d: nat)
    requires Inv(k.m, k.g)
    modifies k
    ensures Inv(k.m, k.g)
    ensures d == 0 ==> k.m == old(k.m) && k.g == old(k.g) && k.g.free == []
    ensures d != 0 ==> IsDir(k.g, d) && d < |old(k.g).owner| && old(k.g).owner[d].Free?
    ensures d != 0 ==> Grows(old(k.m), old(k.g), k.m, k.g, d, {})
    ensures d != 0 ==> forall v :: 0 <= v < NPAGES ==> Pte(k.m, d, v) == NONE
    ensures d != 0 ==> Funds(k.m, k.g, d) == Empty(|old(k.g).free| - 1)
  {
    d := k.Kalloc();
    if d == 0 {
      return;
    }
    FillKeepsInv(k.m, k.g, d, ZeroPage());
    k.m := Filled(k.m, d, ZeroPage());
    NewDirKeepsInv(k.m, k.g, d);
    k.g := OwnedAs(k.g, d, Dir);
  }

  /** One iteration of `setupkvm`. */
  method MapRange(k: Memory, d: nat, data: DataPage, n: nat, ghost left: int, ghost m0: Mem, ghost g0: Ledger)
    returns (mapped: bool)
    requires Inv(k.m, k.g) && IsDir(k.g, d) && n < NRANGES && Grows(m0, g0, k.m, k.g, d, {})
    requires KernelHalf(k.m, d, data, n)
    requires Funds(k.m, k.g, d) == KernelCharge(data, Empty(left), n)
    modifies k
    ensures Inv(k.m, k.g) && IsDir(k.g, d) && Grows(m0, g0, k.m, k.g, d, {})
    ensures mapped ==> KernelHalf(k.m, d, data, n + 1)
    ensures mapped ==> Funds(k.m, k.g, d) == KernelCharge(data, Empty(left), n + 1)
    ensures !mapped ==> left < KERNEL_FRAMES - 1
  {
    var r := Kmap(data, n);
    ghost var m1, g1 := k.m, k.g;
    RangeBounds(r.virt, r.count);
    var res := k.Mappages(d, r.virt * PGSIZE, r.count * PGSIZE, r.phys, r.flags);
    GrowsTwice(m0, g0, m1, g1, k.m, k.g, d);
    NotRemapped(m1, k.m, d, data, n, res);
    RangePaid(data, n, left, Funds(m1, g1, d), Funds(k.m, k.g, d), res);
    mapped := res.Mapped?;
  }

  lemma RangePaid(data: DataPage, n: nat, left: int, b1: Budget, b2: Budget, r: Mapping)
    requires n < NRANGES && b1 == KernelCharge(data, Empty(left), n) && !r.Remap?
    requires Affords(b1, b2, Kmap(data, n).virt, Kmap(data, n).virt + Kmap(data, n).count - 1, r)
    ensures if r.Mapped? then b2 == KernelCharge(data, Empty(left), n + 1) else left < KERNEL_FRAMES - 1
  {
    KernelChargeLess(data, Empty(left), n + 1, NRANGES);
    KernelCost(data, left);
  }

  lemma KernelPaid(data: DataPage, n: nat, left: int, b: Budget)
    requires n == NRANGES && b == KernelCharge(data, Empty(left), n)
    ensures b.free == left - (KERNEL_FRAMES - 1) && NoUserTables(b)
  {
    KernelCost(data, left);
  }

  lemma RangeBounds(virt: nat, count: nat)
    requires count > 0
    ensures virt * PGSIZE / PGSIZE == virt && (virt * PGSIZE + count * PGSIZE - 1) / PGSIZE == virt + count - 1
  {
  }

  lemma NotRemapped(m1: Mem, m: Mem, d: nat, data: DataPage, n: nat, r: Mapping)
    requires n < NRANGES && KernelHalf(m1, d, data, n)
    requires MapsEntries(m1, m, d, Kmap(data, n).virt, Kmap(data, n).virt + Kmap(data, n).count - 1, Kmap(data, n).phys,
                         Kmap(data, n).flags, r)
    ensures !r.Remap?
    ensures r.Mapped? ==> KernelHalf(m, d, data, n + 1)
  {
    forall v | 0 <= v < NPAGES && InRange(data, n, v) ensures !Pte(m1, d, v).present {
      RangesDisjoint(data, n, n, v);
    }
  }

  /** The error path of `setupkvm` and `copyuvm`: the new directory is freed. */
  method Abandon(k: Memory, d: nat, ghost m0: Mem, ghost g0: Ledger)
    requires Inv(m0, g0) && d < |g0.owner| && g0.owner[d].Free?
    requires Inv(k.m, k.g) && IsDir(k.g, d) && Grows(m0, g0, k.m, k.g, d, {})
    modifies k
    ensures Inv(k.m, k.g) && k.g.owner == g0.owner && KeepsContent(m0, g0, k.m)
  {
    ghost var m1, g1 := k.m, k.g;
    var ok := Freevm(k, d);
    AllReturned(m0, g0, m1, g1, k.m, k.g, d);
  }

  /** Dissolving a directory that was built from free frames leaves every frame used as before. */
  lemma AllReturned(m0: Mem, g0: Ledger, m1: Mem, g1: Ledger, m2: Mem, g2: Ledger, d: nat)
    requires Inv(m0, g0) && d < |g0.owner| && g0.owner[d].Free? && Grows(m0, g0, m1, g1, d, {})
    requires Dissolved(m1, g1, m2, g2, d)
    ensures g2.owner == g0.owner && KeepsContent(m0, g0, m2)
  {
    forall f | 0 <= f < |g0.owner|
      ensures g2.owner[f] == g0.owner[f] && (g0.owner[f].Free? || m2.pages[f] == m0.pages[f])
    {
      assert FrameOk(m0, g0, f);
    }
  }

  // ------------------------------------------------------------------
  // copyuvm

  /** Virtual page v of the copy has the flags and the content of the original, in a frame of its own. */
  predicate Copied(m0: Mem, src: nat, m: Mem, d: nat, v: nat)
    requires v < NPAGES
  {
    var (w0, w) := (Pte(m0, src, v), Pte(m, d, v));
    && w.present && w.flags == w0.flags
    && w0.page < |m0.pages| && w.page < |m.pages| && m.pages[w.page] == m0.pages[w0.page]
  }

  /** The first a pages of d are copies of those of src; otherwise d has just the kernel half. */
  ghost predicate CopiedUpto(m0: Mem, src: nat, m: Mem, d: nat, data: DataPage, a: nat) {
    forall v :: 0 <= v < NPAGES ==>
      if v < a then Copied(m0, src, m, d, v) else Pte(m, d, v) == KernelPte(data, NRANGES, v)
  }

  /** The frames that a copy of n pages takes: the kernel half, the pages, and a page table for each NENTRIES pages. */
  function CopyFrames(n: nat): (frames: nat) {
    KERNEL_FRAMES + n + TablesEnd(n)
  }

  lemma CopyCost(b: Budget, n: nat)
    requires NoUserTables(b) && n <= KERNPAGE
    ensures Grow(b, 0, n).free == b.free - n - TablesEnd(n)
  {
    if n > 0 {
      GrowCost(b, 0, n);
      MissingFrom(b.tables, 0, 0, TablesEnd(n));
    }
  }

  /**
   `copyuvm`: 0 if memory runs out, and then every frame is used as before.  Memory runs out exactly when there are
   fewer free frames than the copy takes.
   */
  method Copyuvm(k: Memory, src: nat, sz: nat, data: DataPage) returns (d: nat)
    requires Inv(k.m, k.g) && IsDir(k.g, src) && sz <= KERNBASE
    requires forall v :: 0 <= v < Pages(sz) ==> Pte(k.m, src, v).present
    modifies k
    ensures Inv(k.m, k.g)
    ensures d == 0 ==> k.g.owner == old(k.g).owner && KeepsContent(old(k.m), old(k.g), k.m)
    ensures d != 0 ==> IsDir(k.g, d) && d < |old(k.g).owner| && old(k.g).owner[d].Free?
    ensures d != 0 ==> Grows(old(k.m), old(k.g), k.m, k.g, d, {})
    ensures d != 0 ==> CopiedUpto(old(k.m), src, k.m, d, data, Pages(sz))
    ensures d != 0 <==> |old(k.g).free| >= CopyFrames(Pages(sz))
    ensures d != 0 ==> |k.g.free| == |old(k.g).free| - CopyFrames(Pages(sz))
    ensures d != 0 ==> KernelHidden(k.m, d)
  {
    ghost var m0, g0 := k.m, k.g;
    d := Setupkvm(k, data);
    if d == 0 {
      return;
    }
    ghost var b := Funds(k.m, k.g, d);
    CopyCost(b, Pages(sz));
    var i := 0;
    while i * PGSIZE < sz
      invariant 0 <= i <= Pages(sz) && Inv(k.m, k.g) && IsDir(k.g, d)
      invariant Grows(m0, g0, k.m, k.g, d, {}) && CopiedUpto(m0, src, k.m, d, data, i)
      invariant Funds(k.m, k.g, d) == Grow(b, 0, i)
    {
      var ok := CopyOne(k, src, d, i, Pages(sz), b, data, m0, g0);
      if !ok {
        Abandon(k, d, m0, g0);
        return 0;
      }
      i := i + 1;
    }
    KernelIsHidden(k.m, d, data);
  }

  /** One iteration of `copyuvm`; a page that cannot be mapped is freed. */
  method CopyOne(k: Memory, src: nat, d: nat, i: nat, ghost n: nat, ghost b: Budget, ghost data: DataPage,
                 ghost m0: Mem, ghost g0: Ledger)
    returns (ok: bool)
    requires Inv(m0, g0) && IsDir(g0, src) && i < n <= KERNPAGE && Pte(m0, src, i).present
    requires d < |g0.owner| && g0.owner[d].Free?
    requires Inv(k.m, k.g) && IsDir(k.g, d) && Grows(m0, g0, k.m, k.g, d, {}) && CopiedUpto(m0, src, k.m, d, data, i)
    requires Funds(k.m, k.g, d) == Grow(b, 0, i)
    modifies k
    ensures Inv(k.m, k.g) && IsDir(k.g, d) && Grows(m0, g0, k.m, k.g, d, {})
    ensures ok ==> CopiedUpto(m0, src, k.m, d, data, i + 1)
    ensures if ok then Funds(k.m, k.g, d) == Grow(b, 0, i + 1) else Grow(b, 0, n).free < 0
  {
    ghost var m1, g1 := k.m, k.g;
    SourceKept(m0, g0, m1, g1, src, d, i);
    var t := k.Walkpgdir(src, i, false);
    TableOf(m1, g1, src, i, t);
    var pte := k.m.pages[t][i % NENTRIES];
    var res, mem := AddPage(k, d, i, k.m.pages[pte.page], pte.flags, m0, g0);
    ok := res.Mapped?;
    GrowsMore(b, Funds(m1, g1, d), Funds(k.m, k.g, d), 0, i, n, ok);
    if ok {
      CopiedMore(m0, src, m1, g1, k.m, d, data, i, mem);
    } else if mem != 0 {
      Returned(m0, g0, k.m, k.g, d, mem);
      var freed := k.Kfree(mem);
    }
  }

  lemma SourceKept(m0: Mem, g0: Ledger, m: Mem, g: Ledger, src: nat, d: nat, v: nat)
    requires Inv(m0, g0) && IsDir(g0, src) && v < KERNPAGE && Pte(m0, src, v).present && d < |g0.owner|
    requires g0.owner[d].Free?
    requires Grows(m0, g0, m, g, d, {})
    ensures IsDir(g, src) && Pte(m, src, v) == Pte(m0, src, v) && m.pages[src][v / NENTRIES].present
    ensures Pte(m, src, v).page < |m.pages| && m.pages[Pte(m, src, v).page] == m0.pages[Pte(m, src, v).page]
  {
    GrowsKeepsOthers(m0, g0, m, g, d, {}, src, v);
    UserPage(m0, g0, src, v);
  }

  lemma CopiedMore(m0: Mem, src: nat, m1: Mem, g1: Ledger, m2: Mem, d: nat, data: DataPage, i: nat, mem: nat)
    requires CopiedUpto(m0, src, m1, d, data, i) && i < KERNPAGE && Inv(m1, g1) && IsDir(g1, d)
    requires KeepsUsers(m1, g1, m2)
    requires forall v :: 0 <= v < NPAGES ==>
               Pte(m2, d, v) == if v == i then Word(mem, true, Pte(m0, src, i).flags) else Pte(m1, d, v)
    requires Pte(m0, src, i).page < |m0.pages| && mem < |m2.pages| && m2.pages[mem] == m0.pages[Pte(m0, src, i).page]
    ensures CopiedUpto(m0, src, m2, d, data, i + 1)
  {
    forall v | 0 <= v < i ensures Copied(m0, src, m2, d, v) {
      assert Copied(m0, src, m1, d, v);
      UserPage(m1, g1, d, v);
    }
  }

  // ------------------------------------------------------------------
  // Isolation

  /** The content that directory d shows at virtual page v. */
  function Seen(m: Mem, d: nat, v: nat): (p: Page)
    requires v < NPAGES && Pte(m, d, v).page < |m.pages|
  {
    m.pages[Pte(m, d, v).page]
  }

  /** A store through one user page is seen through no other user page of any directory, and changes no mapping. */
  lemma Isolation(m: Mem, g: Ledger, d: nat, v: nat, p: Page, d': nat, v': nat)
    requires Inv(m, g) && IsDir(g, d) && IsDir(g, d') && v < KERNPAGE && v' < KERNPAGE && (d, v) != (d', v')
    requires Pte(m, d, v).present && Pte(m, d', v').present
    ensures Pte(m, d, v).page < |m.pages|
    ensures var m' := Filled(m, Pte(m, d, v).page, p);
            && Pte(m', d', v') == Pte(m, d', v') && Pte(m', d, v) == Pte(m, d, v)
            && Pte(m, d', v').page < |m.pages| && Seen(m', d', v') == Seen(m, d', v') && Seen(m', d, v) == p
  {
    UserPage(m, g, d, v);
    UserPage(m, g, d', v');
    OtherEntries(m, g, Pte(m, d, v).page, p, d', v' / NENTRIES, v' % NENTRIES);
    OtherEntries(m, g, Pte(m, d, v).page, p, d, v / NENTRIES, v % NENTRIES);
    SameVPage(v, v');
  }
}
