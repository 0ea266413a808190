/**
 Physical page frames, the free list threaded through the free ones, and the page
 directories built from them.  A ledger records what every frame is used for; the
 invariant ties it to what memory actually holds.
 */
module PageFrames {
  import opened Basics

  /** Entries of a directory or page table. */
  const NENTRIES: nat := 1024
  /** First directory entry of the kernel half. */
  const KERNPDX: nat := 512
  /** Virtual pages in all, and the first one of the kernel. */
  const NPAGES: nat := 0x10_0000
  const KERNPAGE: nat := 0x8_0000

  /** A 32-bit word by its parts: page number (20 bits), lowest bit, and the other 11 flag bits. */
  datatype Word = Word(page: nat, present: bool, flags: nat)

  const NONE: Word := Word(0, false, 0)

  /** PTE_W and PTE_U of an entry; the flags are those above PTE_P. */
  predicate WriteBit(w: Word) {
    w.flags % 2 == 1
  }

  predicate UserBit(w: Word) {
    w.flags / 2 % 2 == 1
  }

  type Page = p: seq<Word> | |p| == 1024 witness seq(1024, i => Word(0, false, 0))

  function ZeroPage(): (p: Page)
    ensures forall j :: 0 <= j < NENTRIES ==> p[j] == NONE
  {
    seq(1024, i => Word(0, false, 0))
  }

  /** A freed page: a link to the next free page, the rest filled with bytes of value 1. */
  function FreedPage(next: Word): (p: Page)
    ensures p[0] == next
  {
    seq(1024, i => if i == 0 then next else Word(0x1010, true, 0x80))
  }

  /** The kernel address of frame f, as a link of the free list. */
  function Link(f: nat): (w: Word) {
    Word(KERNPAGE + f, false, 0)
  }

  /** first is the first frame after the kernel image; head is the link to the first free page. */
  datatype Mem = Mem(pages: seq<Page>, first: nat, head: Word)

  /** Taken frames are in the hands of a caller of `kalloc`: kernel stacks, pipes, pages about to be mapped. */
  datatype Owner = Reserved | Free | Taken | Dir | Table(d: nat, i: nat) | User(d: nat, i: nat, j: nat)

  datatype Ledger = Ledger(free: seq<nat>, owner: seq<Owner>)

  // ------------------------------------------------------------------
  // The invariant

  ghost predicate IsDir(g: Ledger, d: nat) {
    d < |g.owner| && g.owner[d].Dir?
  }

  predicate Linked(m: Mem, free: seq<nat>) {
    && m.head == (if free == [] then NONE else Link(free[0]))
    && (forall k :: 0 <= k < |free| ==> free[k] < |m.pages|)
    && (forall k {:trigger LinkOk(m, free, k)} :: 0 <= k < |free| ==> LinkOk(m, free, k))
  }

  /** The first word of free page k refers to the next one. */
  predicate LinkOk(m: Mem, free: seq<nat>, k: nat)
    requires k < |free| && free[k] < |m.pages|
  {
    m.pages[free[k]][0] == if k + 1 < |free| then Link(free[k + 1]) else NONE
  }

  ghost predicate FreeOk(m: Mem, g: Ledger) {
    && Linked(m, g.free) && NoRepeat(g.free)
    && (forall k :: 0 <= k < |g.free| ==> g.free[k] < |g.owner| && g.owner[g.free[k]].Free?)
  }

  /** The present entries of directory d are page tables of its own, with the flags PTE_W and PTE_U. */
  ghost predicate DirOk(m: Mem, g: Ledger, d: nat)
    requires d < |m.pages|
  {
    forall i :: 0 <= i < NENTRIES && m.pages[d][i].present ==>
      && m.pages[d][i].page < |g.owner| && g.owner[m.pages[d][i].page] == Table(d, i)
      && m.pages[d][i].flags == 3
  }

  /** The entries of a page table for user addresses are empty or user pages of their own. */
  ghost predicate TableOk(m: Mem, g: Ledger, t: nat, d: nat, i: nat)
    requires t < |m.pages|
  {
    forall j :: 0 <= j < NENTRIES && m.pages[t][j] != NONE ==>
      && m.pages[t][j].present
      && m.pages[t][j].page < |g.owner| && g.owner[m.pages[t][j].page] == User(d, i, j)
  }

  /** Entry i of directory d refers to page table t. */
  predicate HasTable(m: Mem, d: nat, i: nat, t: nat)
    requires d < |m.pages|
  {
    i < NENTRIES && m.pages[d][i].present && m.pages[d][i].page == t
  }

  /** Frame f is used for exactly what the ledger says. */
  ghost predicate FrameOk(m: Mem, g: Ledger, f: nat)
    requires |g.owner| == |m.pages| && f < |m.pages|
  {
    && (f < m.first <==> g.owner[f].Reserved?)
    && match g.owner[f]
       case Reserved => true
       case Free => f in g.free
       case Taken => true
       case Dir => DirOk(m, g, f)
       case Table(d, i) => IsDir(g, d) && HasTable(m, d, i, f) && (i < KERNPDX ==> TableOk(m, g, f, d, i))
       case User(d, i, j) =>
         && IsDir(g, d) && i < KERNPDX && j < NENTRIES
         && m.pages[d][i].present && m.pages[d][i].page < |g.owner| && g.owner[m.pages[d][i].page] == Table(d, i)
         && m.pages[m.pages[d][i].page][j].present && m.pages[m.pages[d][i].page][j].page == f
  }

  ghost predicate Inv(m: Mem, g: Ledger) {
    && |g.owner| == |m.pages| && m.first > 0
    && FreeOk(m, g)
    && forall f :: 0 <= f < |m.pages| ==> FrameOk(m, g, f)
  }

  // ------------------------------------------------------------------
  // What a directory maps

  /** Entry j of the page table that entry i of directory d refers to. */
  function Entry(m: Mem, d: nat, i: nat, j: nat): (w: Word)
    requires i < NENTRIES && j < NENTRIES
  {
    if d < |m.pages| && m.pages[d][i].present && m.pages[d][i].page < |m.pages| then
      m.pages[m.pages[d][i].page][j]
    else NONE
  }

  /** The page table entry for virtual page v. */
  function Pte(m: Mem, d: nat, v: nat): (w: Word)
    requires v < NPAGES
  {
    Entry(m, d, v / NENTRIES, v % NENTRIES)
  }

  /** Bits 22 to 31 of a virtual address select the entry of the directory, bits 12 to 21 that of the page table. */
  lemma AddressParts(m: Mem, d: nat, va: nat)
    requires va < 0x1_0000_0000 && d < |m.pages|
    requires m.pages[d][va / 0x40_0000].present ==> m.pages[d][va / 0x40_0000].page < |m.pages|
    ensures Pte(m, d, va / 0x1000) ==
            if m.pages[d][va / 0x40_0000].present then
              m.pages[m.pages[d][va / 0x40_0000].page][va % 0x40_0000 / 0x1000]
            else NONE
  {
  }

  /** Distinct user pages of all directories are distinct frames, none of them free or in other use. */
  lemma UserPagesExclusive(m: Mem, g: Ledger, d: nat, v: nat, d': nat, v': nat)
    requires Inv(m, g) && IsDir(g, d) && IsDir(g, d') && v < KERNPAGE && v' < KERNPAGE
    requires Pte(m, d, v).present && Pte(m, d', v').present
    ensures m.first <= Pte(m, d, v).page < |m.pages|
    ensures Pte(m, d, v).page !in g.free && g.owner[Pte(m, d, v).page].User?
    ensures Pte(m, d, v).page == Pte(m, d', v').page <==> d == d' && v == v'
  {
    UserPage(m, g, d, v);
    UserPage(m, g, d', v');
  }

  lemma UserPage(m: Mem, g: Ledger, d: nat, v: nat)
    requires Inv(m, g) && IsDir(g, d) && v < KERNPAGE && Pte(m, d, v).present
    ensures Pte(m, d, v).page < |m.pages| && g.owner[Pte(m, d, v).page] == User(d, v / NENTRIES, v % NENTRIES)
    ensures m.pages[d][v / NENTRIES].page < |m.pages|
    ensures g.owner[m.pages[d][v / NENTRIES].page] == Table(d, v / NENTRIES)
    ensures m.first <= Pte(m, d, v).page && Pte(m, d, v).page !in g.free
  {
    var i, j := v / NENTRIES, v % NENTRIES;
    assert FrameOk(m, g, d);
    var t := m.pages[d][i].page;
    assert g.owner[t] == Table(d, i);
    assert FrameOk(m, g, t);
    var f := m.pages[t][j].page;
    assert FrameOk(m, g, f);
    NotFree(m, g, f);
  }

  lemma NotFree(m: Mem, g: Ledger, f: nat)
    requires Inv(m, g) && f < |g.owner| && !g.owner[f].Free?
    ensures f !in g.free
  {
    forall k | 0 <= k < |g.free| ensures g.free[k] != f {
    }
  }

  // ------------------------------------------------------------------
  // Allocation

  /** `kalloc` takes the first free page. */
  function Popped(m: Mem): (m': Mem)
    requires m.head.page >= KERNPAGE && m.head.page - KERNPAGE < |m.pages|
  {
    m.(head := m.pages[m.head.page - KERNPAGE][0])
  }

  function PoppedLedger(g: Ledger): (g': Ledger)
    requires g.free != [] && g.free[0] < |g.owner|
  {
    Ledger(g.free[1..], g.owner[g.free[0] := Taken])
  }

  lemma PopFree(m: Mem, g: Ledger)
    requires |g.owner| == |m.pages| && FreeOk(m, g) && g.free != []
    ensures FreeOk(Popped(m), PoppedLedger(g))
  {
    var m', g' := Popped(m), PoppedLedger(g);
    assert LinkOk(m, g.free, 0);
    forall k | 0 <= k < |g'.free|
      ensures g'.free[k] < |g'.owner| && g'.owner[g'.free[k]].Free? && LinkOk(m', g'.free, k)
    {
      assert g'.free[k] == g.free[k + 1] && LinkOk(m, g.free, k + 1);
    }
  }

  lemma PopKeepsInv(m: Mem, g: Ledger)
    requires Inv(m, g) && g.free != []
    ensures m.head == Link(g.free[0]) && g.free[0] < |m.pages| && g.owner[g.free[0]].Free?
    ensures Inv(Popped(m), PoppedLedger(g))
  {
    var m', g', f := Popped(m), PoppedLedger(g), g.free[0];
    PopFree(m, g);
    forall x | 0 <= x < |m.pages| ensures FrameOk(m', g', x) {
      assert FrameOk(m, g, x);
      if g.owner[x].Free? && x != f {
        var k :| 0 <= k < |g.free| && g.free[k] == x;
        assert g'.free[k - 1] == x;
      }
    }
  }

  /** `kfree` fills the page with junk and puts it in front of the list. */
  function Pushed(m: Mem, f: nat): (m': Mem)
    requires f < |m.pages|
  {
    m.(pages := m.pages[f := FreedPage(m.head)], head := Link(f))
  }

  function PushedLedger(g: Ledger, f: nat): (g': Ledger)
    requires f < |g.owner|
  {
    Ledger([f] + g.free, g.owner[f := Free])
  }

  lemma PushKeepsInv(m: Mem, g: Ledger, f: nat)
    requires Inv(m, g) && f < |m.pages| && g.owner[f].Taken?
    ensures Inv(Pushed(m, f), PushedLedger(g, f))
  {
    var m', g' := Pushed(m, f), PushedLedger(g, f);
    NotFree(m, g, f);
    PushFree(m, g, f);
    forall x | 0 <= x < |m.pages| ensures FrameOk(m', g', x) {
      assert FrameOk(m, g, x);
      assert x in g.free ==> x in g'.free;
    }
  }

  lemma PushFree(m: Mem, g: Ledger, f: nat)
    requires |g.owner| == |m.pages| && FreeOk(m, g) && f < |m.pages| && f !in g.free
    ensures FreeOk(Pushed(m, f), PushedLedger(g, f))
  {
    var m', g' := Pushed(m, f), PushedLedger(g, f);
    forall k | 0 < k < |g'.free|
      ensures g'.free[k] == g.free[k - 1] && g'.free[k] != f && g'.owner[g'.free[k]].Free?
      ensures m'.pages[g'.free[k]] == m.pages[g.free[k - 1]]
    {
      assert g.free[k - 1] in g.free;
    }
    PushLinked(m, g.free, f);
  }

  lemma PushLinked(m: Mem, free: seq<nat>, f: nat)
    requires Linked(m, free) && f < |m.pages| && f !in free
    ensures Linked(Pushed(m, f), [f] + free)
  {
    var m', free' := Pushed(m, f), [f] + free;
    forall k | 0 <= k < |free'| ensures free'[k] < |m'.pages| && LinkOk(m', free', k) {
      if k > 0 {
        assert free'[k] == free[k - 1] && free[k - 1] in free;
        assert LinkOk(m, free, k - 1);
      }
    }
  }

  /** The holder of a taken page may write anything to it. */
  function Filled(m: Mem, f: nat, p: Page): (m': Mem)
    requires f < |m.pages|
  {
    m.(pages := m.pages[f := p])
  }

  function OwnedAs(g: Ledger, f: nat, o: Owner): (g': Ledger)
    requires f < |g.owner|
  {
    g.(owner := g.owner[f := o])
  }

  /** The free list depends neither on the content nor on the use of the other pages. */
  lemma FreeKept(m: Mem, g: Ledger, f: nat, p: Page, x: nat, o: Owner)
    requires |g.owner| == |m.pages| && FreeOk(m, g)
    requires f < |m.pages| && f !in g.free && x < |m.pages| && x !in g.free
    ensures FreeOk(Filled(m, f, p), OwnedAs(g, x, o)) && FreeOk(Filled(m, f, p), g)
  {
    var m' := Filled(m, f, p);
    forall k | 0 <= k < |g.free|
      ensures g.free[k] < |m'.pages| && LinkOk(m', g.free, k) && OwnedAs(g, x, o).owner[g.free[k]].Free?
    {
      assert g.free[k] in g.free && LinkOk(m, g.free, k);
    }
  }

  lemma FillKeepsInv(m: Mem, g: Ledger, f: nat, p: Page)
    requires Inv(m, g) && f < |m.pages| && g.owner[f].Taken?
    ensures Inv(Filled(m, f, p), g)
  {
    var m' := Filled(m, f, p);
    NotFree(m, g, f);
    FreeKept(m, g, f, p, f, Taken);
    forall x | 0 <= x < |m.pages| ensures FrameOk(m', g, x) {
      assert FrameOk(m, g, x);
    }
  }

  // ------------------------------------------------------------------
  // Changing page tables

  /** Frame t, a page of zeros, becomes the page table of entry i. */
  function WithTable(m: Mem, d: nat, i: nat, t: nat): (m': Mem)
    requires d < |m.pages| && i < NENTRIES
  {
    m.(pages := m.pages[d := m.pages[d][i := Word(t, true, 3)]])
  }

  lemma TableKeepsInv(m: Mem, g: Ledger, d: nat, i: nat, t: nat)
    requires Inv(m, g) && IsDir(g, d) && i < NENTRIES && !m.pages[d][i].present
    requires t < |m.pages| && g.owner[t].Taken? && m.pages[t] == ZeroPage()
    ensures Inv(WithTable(m, d, i, t), OwnedAs(g, t, Table(d, i)))
  {
    var m', g' := WithTable(m, d, i, t), OwnedAs(g, t, Table(d, i));
    NotFree(m, g, d);
    NotFree(m, g, t);
    FreeKept(m, g, d, m'.pages[d], t, Table(d, i));
    forall x | 0 <= x < |m.pages| ensures FrameOk(m', g', x) {
      assert FrameOk(m, g, x);
    }
  }

  /** Entry j of page table t is set to w. */
  function WithEntry(m: Mem, t: nat, j: nat, w: Word): (m': Mem)
    requires t < |m.pages| && j < NENTRIES
  {
    m.(pages := m.pages[t := m.pages[t][j := w]])
  }

  /** A taken frame becomes a user page. */
  lemma MapKeepsInv(m: Mem, g: Ledger, t: nat, d: nat, i: nat, j: nat, w: Word)
    requires Inv(m, g) && t < |m.pages| && g.owner[t] == Table(d, i) && i < KERNPDX && j < NENTRIES
    requires !m.pages[t][j].present && w.present && w.page < |m.pages| && g.owner[w.page].Taken?
    ensures Inv(WithEntry(m, t, j, w), OwnedAs(g, w.page, User(d, i, j)))
  {
    var m', g' := WithEntry(m, t, j, w), OwnedAs(g, w.page, User(d, i, j));
    NotFree(m, g, t);
    NotFree(m, g, w.page);
    FreeKept(m, g, t, m'.pages[t], w.page, User(d, i, j));
    assert FrameOk(m, g, t);
    forall x | 0 <= x < |m.pages| ensures FrameOk(m', g', x) {
      assert FrameOk(m, g, x);
    }
  }

  /** Page tables of the kernel half own nothing. */
  lemma KernelMapKeepsInv(m: Mem, g: Ledger, t: nat, d: nat, i: nat, j: nat, w: Word)
    requires Inv(m, g) && t < |m.pages| && g.owner[t] == Table(d, i) && i >= KERNPDX && j < NENTRIES
    ensures Inv(WithEntry(m, t, j, w), g)
  {
    var m' := WithEntry(m, t, j, w);
    NotFree(m, g, t);
    FreeKept(m, g, t, m'.pages[t], t, g.owner[t]);
    forall x | 0 <= x < |m.pages| ensures FrameOk(m', g, x) {
      assert FrameOk(m, g, x);
    }
  }

  /** A user page leaves its page table and is free again. */
  lemma UnmapKeepsInv(m: Mem, g: Ledger, t: nat, d: nat, i: nat, j: nat)
    requires Inv(m, g) && t < |m.pages| && g.owner[t] == Table(d, i) && i < KERNPDX && j < NENTRIES
    requires m.pages[t][j].present
    ensures var f := m.pages[t][j].page;
            && f < |m.pages| && f != t && m.first <= f && g.owner[f] == User(d, i, j)
            && Inv(WithEntry(Pushed(m, f), t, j, NONE), PushedLedger(g, f))
  {
    var f := m.pages[t][j].page;
    assert FrameOk(m, g, t);
    assert FrameOk(m, g, f);
    UnentryKeepsInv(m, g, t, d, i, j, f);
    var m1, g1 := WithEntry(m, t, j, NONE), OwnedAs(g, f, Taken);
    PushKeepsInv(m1, g1, f);
    assert WithEntry(Pushed(m, f), t, j, NONE) == Pushed(m1, f);
    assert PushedLedger(g, f) == PushedLedger(g1, f);
  }

  lemma UnentryKeepsInv(m: Mem, g: Ledger, t: nat, d: nat, i: nat, j: nat, f: nat)
    requires Inv(m, g) && t < |m.pages| && g.owner[t] == Table(d, i) && i < KERNPDX && j < NENTRIES
    requires m.pages[t][j].present && f == m.pages[t][j].page < |m.pages| && g.owner[f] == User(d, i, j)
    ensures Inv(WithEntry(m, t, j, NONE), OwnedAs(g, f, Taken))
  {
    var m', g' := WithEntry(m, t, j, NONE), OwnedAs(g, f, Taken);
    NotFree(m, g, t);
    NotFree(m, g, f);
    FreeKept(m, g, t, m'.pages[t], f, Taken);
    assert FrameOk(m, g, t);
    forall x | 0 <= x < |m.pages| ensures FrameOk(m', g', x) {
      assert FrameOk(m, g, x);
    }
  }
}
