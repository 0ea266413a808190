/** How the operations on page directories change memory: growth, unmapping and dismantling. */
module PageSteps {
  import opened PageFrames

  const PGSIZE: nat := 4096

  /** Pages needed for sz bytes; `PGROUNDUP` in pages. */
  function Pages(sz: nat): (n: nat)
    ensures forall a: nat :: a * PGSIZE < sz <==> a < n
  {
    (sz + 4095) / 4096
  }

  /** Virtual page of entry j of page table i. */
  function VPage(i: nat, j: nat): (v: nat) {
    i * NENTRIES + j
  }

  lemma VPageParts(i: nat, j: nat)
    requires i < NENTRIES && j < NENTRIES
    ensures VPage(i, j) < NPAGES && VPage(i, j) / NENTRIES == i && VPage(i, j) % NENTRIES == j
    ensures VPage(i, j) < KERNPAGE <==> i < KERNPDX
  {
  }

  // ------------------------------------------------------------------
  // Effects on the mapping

  lemma TableEntries(m: Mem, g: Ledger, d: nat, i: nat, t: nat, d': nat, i': nat, j': nat)
    requires Inv(m, g) && IsDir(g, d) && i < NENTRIES && !m.pages[d][i].present && t < |m.pages| && g.owner[t].Taken?
    requires m.pages[t] == ZeroPage() && IsDir(g, d') && i' < NENTRIES && j' < NENTRIES
    ensures Entry(WithTable(m, d, i, t), d', i', j') == Entry(m, d', i', j')
  {
    assert FrameOk(m, g, d');
  }

  lemma SetEntries(m: Mem, g: Ledger, t: nat, d: nat, i: nat, j: nat, w: Word, d': nat, i': nat, j': nat)
    requires Inv(m, g) && t < |m.pages| && g.owner[t] == Table(d, i) && j < NENTRIES
    requires IsDir(g, d') && i' < NENTRIES && j' < NENTRIES
    ensures Entry(WithEntry(m, t, j, w), d', i', j') ==
            if d' == d && i' == i && j' == j then w else Entry(m, d', i', j')
  {
    assert FrameOk(m, g, d');
    assert FrameOk(m, g, t);
  }

  /** The content of a frame that is neither directory nor page table does not matter to the mapping. */
  lemma OtherEntries(m: Mem, g: Ledger, f: nat, p: Page, d': nat, i': nat, j': nat)
    requires Inv(m, g) && f < |m.pages| && !g.owner[f].Dir? && !g.owner[f].Table?
    requires IsDir(g, d') && i' < NENTRIES && j' < NENTRIES
    ensures Entry(Filled(m, f, p), d', i', j') == Entry(m, d', i', j')
  {
    assert FrameOk(m, g, d');
  }

  /** The entry that has just been unmapped is gone; all others are as they were. */
  lemma UnmapEntries(m: Mem, g: Ledger, t: nat, d: nat, i: nat, j: nat, d': nat, i': nat, j': nat)
    requires Inv(m, g) && t < |m.pages| && g.owner[t] == Table(d, i) && i < KERNPDX && j < NENTRIES
    requires m.pages[t][j].present
    requires m.pages[t][j].page < |m.pages| && g.owner[m.pages[t][j].page].User?
    requires IsDir(g, d') && i' < NENTRIES && j' < NENTRIES
    ensures Entry(WithEntry(Pushed(m, m.pages[t][j].page), t, j, NONE), d', i', j') ==
            if d' == d && i' == i && j' == j then NONE else Entry(m, d', i', j')
  {
    assert FrameOk(m, g, d');
    assert FrameOk(m, g, t);
  }

  /** Both states map the same for every directory of the first. */
  ghost predicate SamePtes(m: Mem, g: Ledger, m': Mem) {
    forall d, v :: IsDir(g, d) && 0 <= v < NPAGES ==> Pte(m', d, v) == Pte(m, d, v)
  }

  // ------------------------------------------------------------------
  // Growth

  /** Frame f, used as o, is part of directory d. */
  predicate Belongs(o: Owner, f: nat, d: nat) {
    match o
    case Dir => f == d
    case Table(e, _) => e == d
    case User(e, _, _) => e == d
    case _ => false
  }

  /** A frame that is not free keeps its use, and its content unless it is the directory or a page table of d. */
  predicate GrowsAt(o: Owner, o': Owner, same: bool, f: nat, d: nat) {
    if o.Free? then o'.Free? || Belongs(o', f, d)
    else o' == o && (same || ((o.Dir? || o.Table?) && Belongs(o, f, d)))
  }

  /** A frame in hand, which may have been taken from the free list, stays in hand or becomes a user page of d. */
  predicate HandAt(o: Owner, o': Owner, same: bool, d: nat) {
    (o.Free? || (o.Taken? && same)) && (o'.Taken? || (o'.User? && o'.d == d))
  }

  /** Free frames may have gone to directory d, and so may the frames in hand; nothing else has changed. */
  ghost predicate Grows(m: Mem, g: Ledger, m': Mem, g': Ledger, d: nat, hand: set<nat>) {
    && |m'.pages| == |m.pages| == |g.owner| == |g'.owner| && m'.first == m.first
    && forall f :: 0 <= f < |g.owner| ==>
         if f in hand then HandAt(g.owner[f], g'.owner[f], m'.pages[f] == m.pages[f], d)
         else GrowsAt(g.owner[f], g'.owner[f], m'.pages[f] == m.pages[f], f, d)
  }

  lemma GrowsTwice(m: Mem, g: Ledger, m1: Mem, g1: Ledger, m2: Mem, g2: Ledger, d: nat)
    requires Grows(m, g, m1, g1, d, {}) && Grows(m1, g1, m2, g2, d, {})
    ensures Grows(m, g, m2, g2, d, {})
  {
  }

  /** After growth, a page is allocated and filled, and more growth happens with that page in hand. */
  lemma GrowsWithPage(m: Mem, g: Ledger, m1: Mem, g1: Ledger, p: Page, m2: Mem, g2: Ledger, d: nat)
    requires Grows(m, g, m1, g1, d, {}) && Inv(m1, g1) && g1.free != []
    requires g1.free[0] < |m1.pages| && m1.head == Link(g1.free[0]) && g1.owner[g1.free[0]].Free?
    requires Grows(Filled(Popped(m1), g1.free[0], p), PoppedLedger(g1), m2, g2, d, {g1.free[0]})
    ensures Grows(m, g, m2, g2, d, {g1.free[0]}) && g.owner[g1.free[0]].Free?
    ensures g2.owner[g1.free[0]].User? ==> Grows(m, g, m2, g2, d, {})
    ensures forall x :: 0 <= x < |g1.owner| && g1.owner[x].User? ==>
              g2.owner[x] == g1.owner[x] && m2.pages[x] == m1.pages[x]
    ensures m2.pages[g1.free[0]] == p
  {
    var f := g1.free[0];
    var m', g' := Filled(Popped(m1), f, p), PoppedLedger(g1);
    forall x | 0 <= x < |g.owner| && x != f ensures m'.pages[x] == m1.pages[x] && g'.owner[x] == g1.owner[x] {
    }
  }

  /** The page in hand goes back to the free list. */
  lemma GiveBack(m: Mem, g: Ledger, m1: Mem, g1: Ledger, d: nat, f: nat)
    requires Grows(m, g, m1, g1, d, {f}) && f < |g.owner| && g.owner[f].Free? && g1.owner[f].Taken?
    ensures Grows(m, g, Pushed(m1, f), PushedLedger(g1, f), d, {})
  {
  }

  /** The mapping of the other directories is not affected. */
  lemma GrowsKeepsOthers(m: Mem, g: Ledger, m': Mem, g': Ledger, d: nat, hand: set<nat>, d': nat, v: nat)
    requires Inv(m, g) && Grows(m, g, m', g', d, hand) && IsDir(g, d') && d' != d && v < NPAGES
    ensures IsDir(g', d') && Pte(m', d', v) == Pte(m, d', v)
  {
    assert FrameOk(m, g, d');
    assert d' !in hand;
    var w := m.pages[d'][v / NENTRIES];
    if w.present {
      assert g.owner[w.page] == Table(d', v / NENTRIES);
      assert w.page !in hand;
    }
  }

  // ------------------------------------------------------------------
  // Unmapping

  /** Frame use after the user pages lo to hi of directory d are unmapped. */
  function Unmapped(o: Owner, d: nat, lo: nat, hi: nat): (o': Owner) {
    if o.User? && o.d == d && lo <= VPage(o.i, o.j) < hi then Free else o
  }

  /** Exactly the user pages lo to hi of directory d have been unmapped and freed. */
  ghost predicate Shrinks(m: Mem, g: Ledger, m': Mem, g': Ledger, d: nat, lo: nat, hi: nat) {
    && |m'.pages| == |m.pages| == |g.owner| == |g'.owner| && m'.first == m.first && hi <= NPAGES
    && (forall f :: 0 <= f < |g.owner| ==>
          && g'.owner[f] == Unmapped(g.owner[f], d, lo, hi)
          && (m'.pages[f] == m.pages[f] || g'.owner[f].Free? || (g.owner[f].Table? && g.owner[f].d == d)))
    && (forall e, v :: IsDir(g, e) && 0 <= v < NPAGES ==>
          Pte(m', e, v) == if e == d && lo <= v < hi && Pte(m, e, v).present then NONE else Pte(m, e, v))
  }

  /** No user page lies in the range, so there is nothing to unmap in it. */
  lemma NothingMapped(m: Mem, g: Ledger, m': Mem, g': Ledger, d: nat, lo: nat, a: nat, b: nat)
    requires Inv(m, g) && Shrinks(m, g, m', g', d, lo, a) && Inv(m', g') && IsDir(g, d) && lo <= a <= b <= KERNPAGE
    requires forall v :: a <= v < b ==> !Pte(m', d, v).present
    ensures Shrinks(m, g, m', g', d, lo, b)
  {
    forall f | 0 <= f < |g.owner| ensures g'.owner[f] == Unmapped(g.owner[f], d, lo, b) {
      if g.owner[f].User? {
        UserIsMapped(m, g, f);
      }
    }
  }

  /** A user page is mapped where the ledger says. */
  lemma UserIsMapped(m: Mem, g: Ledger, f: nat)
    requires Inv(m, g) && f < |g.owner| && g.owner[f].User?
    ensures IsDir(g, g.owner[f].d) && VPage(g.owner[f].i, g.owner[f].j) < KERNPAGE
    ensures var w := Pte(m, g.owner[f].d, VPage(g.owner[f].i, g.owner[f].j)); w.present && w.page == f
  {
    assert FrameOk(m, g, f);
    VPageParts(g.owner[f].i, g.owner[f].j);
  }

  /** One present page is unmapped and freed. */
  lemma UnmapStep(m: Mem, g: Ledger, m1: Mem, g1: Ledger, d: nat, lo: nat, a: nat, t: nat)
    requires Inv(m, g) && Shrinks(m, g, m1, g1, d, lo, a) && Inv(m1, g1) && IsDir(g, d) && lo <= a < KERNPAGE
    requires t < |m1.pages| && g1.owner[t] == Table(d, a / NENTRIES) && m1.pages[t][a % NENTRIES].present
    ensures var f := m1.pages[t][a % NENTRIES].page;
            && m1.first <= f < |m1.pages|
            && Inv(WithEntry(Pushed(m1, f), t, a % NENTRIES, NONE), PushedLedger(g1, f))
            && Shrinks(m, g, WithEntry(Pushed(m1, f), t, a % NENTRIES, NONE), PushedLedger(g1, f), d, lo, a + 1)
  {
    var i, j := a / NENTRIES, a % NENTRIES;
    var f := m1.pages[t][j].page;
    UnmapKeepsInv(m1, g1, t, d, i, j);
    var m2, g2 := WithEntry(Pushed(m1, f), t, j, NONE), PushedLedger(g1, f);
    forall x | 0 <= x < |g.owner|
      ensures g2.owner[x] == Unmapped(g.owner[x], d, lo, a + 1)
      ensures m2.pages[x] == m.pages[x] || g2.owner[x].Free? || (g.owner[x].Table? && g.owner[x].d == d)
    {
      UnmapStepFrame(m, g, g1, d, lo, a, x, f);
    }
    forall e, v | IsDir(g, e) && 0 <= v < NPAGES
      ensures Pte(m2, e, v) == if e == d && lo <= v < a + 1 && Pte(m, e, v).present then NONE else Pte(m, e, v)
    {
      UnmapEntries(m1, g1, t, d, i, j, e, v / NENTRIES, v % NENTRIES);
      SameVPage(v, a);
      TableOf(m1, g1, d, a, t);
    }
  }

  lemma SameVPage(v: nat, a: nat)
    ensures v / NENTRIES == a / NENTRIES && v % NENTRIES == a % NENTRIES <==> v == a
  {
  }

  lemma TableOf(m: Mem, g: Ledger, d: nat, v: nat, t: nat)
    requires Inv(m, g) && v < NPAGES && t < |m.pages| && g.owner[t] == Table(d, v / NENTRIES)
    ensures IsDir(g, d) && Pte(m, d, v) == m.pages[t][v % NENTRIES]
  {
    assert FrameOk(m, g, t);
  }

  lemma UnmapStepFrame(m: Mem, g: Ledger, g1: Ledger, d: nat, lo: nat, a: nat, x: nat, f: nat)
    requires Inv(m, g) && |g1.owner| == |g.owner| && x < |g.owner| && f < |g.owner| && lo <= a
    requires g1.owner[x] == Unmapped(g.owner[x], d, lo, a) && g1.owner[f] == Unmapped(g.owner[f], d, lo, a)
    requires g1.owner[f] == User(d, a / NENTRIES, a % NENTRIES)
    ensures PushedLedger(g1, f).owner[x] == Unmapped(g.owner[x], d, lo, a + 1)
  {
    if g.owner[x].User? {
      UserIsMapped(m, g, x);
      UserIsMapped(m, g, f);
    }
  }

  /**
   Growth of directory d within a range that was empty, followed by unmapping of that
   range, leaves the mapping as it was.
   */
  lemma Rollback(m: Mem, g: Ledger, m1: Mem, g1: Ledger, m2: Mem, g2: Ledger, d: nat, lo: nat, hi: nat, hand: set<nat>)
    requires Inv(m, g) && Inv(m1, g1) && IsDir(g, d) && IsDir(g1, d) && lo <= hi <= KERNPAGE
    requires forall v :: lo <= v < hi ==> !Pte(m, d, v).present
    requires Grows(m, g, m1, g1, d, hand) && forall f <- hand :: f < |g1.owner| && g1.owner[f].Taken?
    requires forall v :: 0 <= v < NPAGES && !(lo <= v < hi) ==> Pte(m1, d, v) == Pte(m, d, v)
    requires Shrinks(m1, g1, m2, g2, d, lo, hi)
    ensures Grows(m, g, m2, g2, d, hand)
    ensures forall v :: 0 <= v < NPAGES ==> Pte(m2, d, v) == Pte(m, d, v)
  {
    forall x | 0 <= x < |g.owner|
      ensures if x in hand then HandAt(g.owner[x], g2.owner[x], m2.pages[x] == m.pages[x], d)
              else GrowsAt(g.owner[x], g2.owner[x], m2.pages[x] == m.pages[x], x, d)
    {
      if g.owner[x].User? {
        UserIsMapped(m, g, x);
      }
    }
    forall v | 0 <= v < NPAGES ensures Pte(m2, d, v) == Pte(m, d, v) {
      if lo <= v < hi {
        AbsentIsNone(m, g, d, v);
        if !Pte(m1, d, v).present {
          AbsentIsNone(m1, g1, d, v);
        }
      }
    }
  }

  /** An absent user page has an empty entry. */
  lemma AbsentIsNone(m: Mem, g: Ledger, d: nat, v: nat)
    requires Inv(m, g) && IsDir(g, d) && v < KERNPAGE && !Pte(m, d, v).present
    ensures Pte(m, d, v) == NONE
  {
    assert FrameOk(m, g, d);
    var w := m.pages[d][v / NENTRIES];
    if w.present {
      assert FrameOk(m, g, w.page);
    }
  }

  // ------------------------------------------------------------------
  // Dismantling

  /** Directory d, without user pages, and its page tables are handed over to be freed. */
  function Detached(o: Owner, f: nat, d: nat): (o': Owner) {
    if (o.Dir? && f == d) || (o.Table? && o.d == d) then Taken else o
  }

  function DetachedLedger(g: Ledger, d: nat): (g': Ledger)
    ensures |g'.owner| == |g.owner| && g'.free == g.free
    ensures forall f :: 0 <= f < |g.owner| ==> g'.owner[f] == Detached(g.owner[f], f, d)
  {
    g.(owner := seq(|g.owner|, f requires 0 <= f < |g.owner| => Detached(g.owner[f], f, d)))
  }

  lemma DetachKeepsInv(m: Mem, g: Ledger, d: nat)
    requires Inv(m, g) && IsDir(g, d) && forall f :: 0 <= f < |g.owner| ==> !(g.owner[f].User? && g.owner[f].d == d)
    ensures Inv(m, DetachedLedger(g, d))
  {
    var g' := DetachedLedger(g, d);
    forall x | 0 <= x < |m.pages| ensures FrameOk(m, g', x) {
      assert FrameOk(m, g, x);
    }
  }

  /** A taken page of zeros becomes a directory that maps nothing. */
  lemma NewDirKeepsInv(m: Mem, g: Ledger, d: nat)
    requires Inv(m, g) && d < |m.pages| && g.owner[d].Taken? && m.pages[d] == ZeroPage()
    ensures Inv(m, OwnedAs(g, d, Dir))
  {
    var g' := OwnedAs(g, d, Dir);
    NotFree(m, g, d);
    assert DirOk(m, g', d);
    assert FrameOk(m, g, d);
    forall x | 0 <= x < |m.pages| && x != d ensures FrameOk(m, g', x) {
      assert FrameOk(m, g, x);
    }
  }
}
