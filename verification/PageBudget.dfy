/** How many frames the operations on a directory take for pages and page tables. */
module PageBudget {
  import opened PageFrames

  /** Which entries of a directory have a page table, and the free frames; fewer than none if they do not suffice. */
  datatype Budget = Budget(tables: seq<bool>, free: int)

  function Present(dir: seq<Word>): (s: seq<bool>)
    ensures |s| == |dir|
  {
    if dir == [] then [] else Present(dir[..|dir| - 1]) + [dir[|dir| - 1].present]
  }

  lemma {:induction false} PresentIs(dir: seq<Word>, i: nat)
    requires i < |dir|
    ensures Present(dir)[i] == dir[i].present
  {
    if i < |dir| - 1 {
      PresentIs(dir[..|dir| - 1], i);
    }
  }

  function BudgetOf(dir: Page, n: nat): (b: Budget) {
    Budget(Present(dir), n)
  }

  /** Mapping virtual page v takes a frame if its page table is missing. */
  function Charge(b: Budget, v: nat): (b': Budget) {
    var i := v / NENTRIES;
    if i >= |b.tables| || b.tables[i] then b else Budget(b.tables[i := true], b.free - 1)
  }

  /** Mapping the virtual pages from lo to before hi. */
  function ChargeAll(b: Budget, lo: nat, hi: nat): (b': Budget) {
    if hi <= lo then b else Charge(ChargeAll(b, lo, hi - 1), hi - 1)
  }

  /** Mapping new frames at the virtual pages from lo to before hi. */
  function Grow(b: Budget, lo: nat, hi: nat): (b': Budget) {
    if hi <= lo then b else GrowPage(Grow(b, lo, hi - 1), hi - 1)
  }

  function GrowPage(b: Budget, v: nat): (b': Budget) {
    Charge(b.(free := b.free - 1), v)
  }

  lemma {:induction false} ChargeLess(b: Budget, lo: nat, c: nat, hi: nat)
    requires c <= hi
    ensures ChargeAll(b, lo, hi).free <= ChargeAll(b, lo, c).free
    decreases hi
  {
    if c < hi && lo < hi {
      ChargeLess(b, lo, c, hi - 1);
    }
  }

  lemma {:induction false} GrowLess(b: Budget, lo: nat, c: nat, hi: nat)
    requires c <= hi
    ensures Grow(b, lo, hi).free <= Grow(b, lo, c).free
    decreases hi
  {
    if c < hi && lo < hi {
      GrowLess(b, lo, c, hi - 1);
    }
  }

  /** The page table of virtual page v is there. */
  lemma TableThere(dir: Page, n: nat, v: nat)
    requires v < NPAGES && dir[v / NENTRIES].present
    ensures Charge(BudgetOf(dir, n), v) == BudgetOf(dir, n)
  {
    PresentIs(dir, v / NENTRIES);
  }

  /** The page table of virtual page v is not there, nor is a frame for it. */
  lemma NoTable(dir: Page, v: nat)
    requires v < NPAGES && !dir[v / NENTRIES].present
    ensures Charge(BudgetOf(dir, 0), v).free < 0
  {
    PresentIs(dir, v / NENTRIES);
  }

  /** The page table of virtual page v is not there, and becomes the entry w. */
  lemma TableAdded(dir: Page, n: nat, v: nat, w: Word)
    requires v < NPAGES && !dir[v / NENTRIES].present && w.present
    ensures Charge(BudgetOf(dir, n), v) == Budget(Present(dir[v / NENTRIES := w]), n - 1)
  {
    var i := v / NENTRIES;
    var dir' := dir[i := w];
    PresentIs(dir, i);
    forall k: nat | k < NENTRIES ensures Present(dir')[k] == Present(dir)[i := true][k] {
      PresentIs(dir, k);
      PresentIs(dir', k);
    }
    assert Present(dir') == Present(dir)[i := true];
  }

  // ------------------------------------------------------------------
  // Closed forms

  /** The number of missing page tables from i to before j. */
  function Missing(tables: seq<bool>, i: nat, j: nat): (n: nat)
    requires j <= |tables|
  {
    if j <= i then 0 else Missing(tables, i, j - 1) + if tables[j - 1] then 0 else 1
  }

  /** The page tables from i to before j have been added. */
  function Added(tables: seq<bool>, i: nat, j: nat): (tables': seq<bool>)
    requires j <= |tables|
    ensures |tables'| == |tables|
    ensures forall k :: 0 <= k < |tables| ==> tables'[k] == (tables[k] || i <= k < j)
  {
    if j <= i then tables else Added(tables, i, j - 1)[j - 1 := true]
  }

  /** The end of the page tables of the pages before hi. */
  function TablesEnd(hi: nat): (j: nat) {
    (hi + 1023) / 1024
  }

  lemma TablesEndNext(lo: nat, hi: nat)
    requires lo <= hi
    ensures TablesEnd(hi + 1) == hi / NENTRIES + 1
    ensures lo < hi ==> lo / NENTRIES < TablesEnd(hi) && hi / NENTRIES <= TablesEnd(hi) <= hi / NENTRIES + 1
    ensures TablesEnd(hi) <= TablesEnd(hi + 1) && lo / NENTRIES <= hi / NENTRIES
  {
  }

  /** The page tables from i to before e are there, and each that was missing has taken one frame. */
  function Charged(b: Budget, i: nat, e: nat): (b': Budget)
    requires e <= |b.tables|
  {
    Budget(Added(b.tables, i, e), b.free - Missing(b.tables, i, e))
  }

  /** The next page is in the last of them or needs one more. */
  lemma ChargedNext(b: Budget, i: nat, e: nat, v: nat)
    requires i <= v / NENTRIES <= e <= v / NENTRIES + 1 <= |b.tables|
    ensures i < e || e == v / NENTRIES
    ensures Charge(Charged(b, i, e), v) == Charged(b, i, v / NENTRIES + 1)
  {
    var k := v / NENTRIES;
    if e == k {
      assert b.tables[k] ==> Added(b.tables, i, k)[k := true] == Added(b.tables, i, k);
    }
  }

  lemma ChargedPage(b: Budget, lo: nat, v: nat, c: Budget)
    requires lo <= v && TablesEnd(v + 1) <= |b.tables| && TablesEnd(v) <= |b.tables|
    requires c == if lo == v then b else Charged(b, lo / NENTRIES, TablesEnd(v))
    ensures Charge(c, v) == Charged(b, lo / NENTRIES, TablesEnd(v + 1))
  {
    var i := lo / NENTRIES;
    TablesEndNext(lo, v);
    if lo == v {
      assert Charged(b, i, i) == b;
      ChargedNext(b, i, i, v);
    } else {
      ChargedNext(b, i, TablesEnd(v), v);
    }
  }

  lemma {:induction false} ChargeAllIs(b: Budget, lo: nat, hi: nat)
    requires lo < hi && TablesEnd(hi) <= |b.tables|
    ensures ChargeAll(b, lo, hi) == Charged(b, lo / NENTRIES, TablesEnd(hi))
    decreases hi
  {
    var c := ChargeAll(b, lo, hi - 1);
    assert ChargeAll(b, lo, hi) == Charge(c, hi - 1);
    assert TablesEnd(hi - 1) <= TablesEnd(hi);
    if lo < hi - 1 {
      ChargeAllIs(b, lo, hi - 1);
    }
    ChargedPage(b, lo, hi - 1, c);
  }

  lemma {:induction false} GrowIs(b: Budget, lo: nat, hi: nat)
    requires lo <= hi
    ensures Grow(b, lo, hi) == var b' := ChargeAll(b, lo, hi); b'.(free := b'.free - (hi - lo))
  {
    if lo < hi {
      GrowIs(b, lo, hi - 1);
    }
  }

  /** Growth takes a frame for each page and one for each page table that is missing. */
  lemma GrowCost(b: Budget, lo: nat, hi: nat)
    requires lo < hi && TablesEnd(hi) <= |b.tables|
    ensures Grow(b, lo, hi).free == b.free - (hi - lo) - Missing(b.tables, lo / NENTRIES, TablesEnd(hi))
  {
    GrowIs(b, lo, hi);
    ChargeAllIs(b, lo, hi);
  }

  /** Of the page tables from i to before j, those before e are there. */
  lemma {:induction false} MissingFrom(tables: seq<bool>, i: nat, e: nat, j: nat)
    requires i <= e <= j <= |tables| && forall k :: i <= k < j ==> (tables[k] <==> k < e)
    ensures Missing(tables, i, j) == j - e
  {
    if e < j {
      MissingFrom(tables, i, e, j - 1);
    } else if i < j {
      MissingFrom(tables, i, e - 1, j - 1);
    }
  }
}
