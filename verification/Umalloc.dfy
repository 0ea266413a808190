/**
 The storage allocator of section 8.7 of "The C Programming Language", 2nd edition:
 `malloc`, `free` and `morecore` over a circular, address-ordered free list.  The
 static header `base` lies below every block of the heap.
 */
module Umalloc {
  import opened Basics
  import opened FreeList

  const UINT: nat := 0x1_0000_0000
  const UNIT: nat := 8
  const MINCORE: nat := 4096

  /** Units for a request, header included, in 32-bit arithmetic. */
  function UnitsFor(nbytes: nat): (n: nat)
    ensures n > 0
  {
    (nbytes + UNIT - 1) % UINT / UNIT + 1
  }

  /** The payload is large enough exactly when the rounding does not wrap around. */
  lemma PayloadExact(nbytes: nat)
    requires nbytes < UINT
    ensures (UnitsFor(nbytes) - 1) * UNIT >= nbytes <==> nbytes <= UINT - UNIT
    ensures nbytes <= UINT - UNIT ==> (UnitsFor(nbytes) - 1) * UNIT < nbytes + UNIT
  {
  }

  /** Units asked of sbrk for a request of n units. */
  function CoreUnits(n: nat): (nu: nat)
    ensures nu >= n && nu >= 4096 && (nu == n || nu == 4096)
  {
    if n < MINCORE then MINCORE else n
  }

  /** The argument of sbrk for nu units: a 32-bit product taken as a signed number. */
  function SbrkArgument(nu: nat): (n: int) {
    var bytes := nu * UNIT % UINT;
    if bytes < 0x8000_0000 then bytes else bytes - UINT
  }

  /** The heap is extended by the units asked for exactly when the request is small or wraps around. */
  lemma SbrkExact(nbytes: nat)
    requires nbytes < UINT
    ensures var nu := CoreUnits(UnitsFor(nbytes));
            if 0x7fff_fff0 < nbytes <= UINT - UNIT then SbrkArgument(nu) <= 0 else SbrkArgument(nu) == nu * UNIT > 0
  {
  }

  /** Units held by the live blocks. */
  ghost function LiveUnits(live: map<nat, nat>): (n: nat) {
    if live == map[] then 0 else var a :| a in live; live[a] + LiveUnits(live - {a})
  }

  lemma {:induction false} LiveUnitsRemove(live: map<nat, nat>, x: nat)
    requires x in live
    ensures LiveUnits(live) == live[x] + LiveUnits(live - {x})
    decreases |live|
  {
    var a :| a in live && LiveUnits(live) == live[a] + LiveUnits(live - {a});
    if a != x {
      LiveUnitsRemove(live - {a}, x);
      LiveUnitsRemove(live - {x}, a);
      assert live - {a} - {x} == live - {x} - {a};
    }
  }

  lemma LiveUnitsAdd(live: map<nat, nat>, x: nat, n: nat)
    requires x !in live
    ensures LiveUnits(live[x := n]) == LiveUnits(live) + n
  {
    LiveUnitsRemove(live[x := n], x);
    assert live[x := n] - {x} == live;
  }

  /** The shape of the free list: base first, then non-empty blocks in address order, all below brk. */
  predicate Shaped(base: nat, fl: Blocks, brk: nat) {
    && fl != [] && fl[0] == Blk(base, 0)
    && Ordered(fl)
    && (forall i :: 1 <= i < |fl| ==> fl[i].size > 0)
    && (forall i :: 0 <= i < |fl| ==> fl[i].End() <= brk)
  }

  /** The blocks are linked in memory into one cycle. */
  ghost predicate GoodList(base: nat, mem: Memory, fl: Blocks, brk: nat) {
    Shaped(base, fl, brk) && Linked(mem, fl, base)
  }

  /** The live blocks lie above base and below brk, apart from each other and from every free block. */
  ghost predicate Placed(base: nat, fl: Blocks, brk: nat, live: map<nat, nat>) {
    && (forall a <- live :: base < a && live[a] > 0 && a + live[a] <= brk)
    && (forall a <- live :: Clear(fl, Blk(a, live[a])))
    && (forall a <- live, b <- live {:trigger Apart(a, live[a], b, live[b])} ::
          a != b ==> Apart(a, live[a], b, live[b]))
  }

  /** Every live block carries its size in its header. */
  ghost predicate Headed(mem: Memory, live: map<nat, nat>) {
    forall a <- live :: Get(mem, a).size == live[a]
  }

  /** No unit of a live block differs between the two memories. */
  ghost predicate Untouched(live: map<nat, nat>, mem: Memory, mem': Memory) {
    forall a <- live, x: nat :: a <= x < a + live[a] ==> Get(mem', x) == Get(mem, x)
  }

  // ------------------------------------------------------------------
  // Facts about one insertion and one removal

  lemma {:induction false} FindBefore(fl: Blocks, a: nat) returns (t: nat)
    requires fl != [] && Ordered(fl) && fl[0].addr < a
    requires forall i :: 0 <= i < |fl| ==> fl[i].addr != a
    ensures Before(fl, t, a)
  {
    t := 0;
    while t + 1 < |fl| && fl[t + 1].addr < a
      invariant t < |fl| && fl[t].addr < a
    {
      t := t + 1;
    }
  }

  lemma InsertedShaped(base: nat, fl: Blocks, brk: nat, t: nat, b: Blk)
    requires Shaped(base, fl, brk) && Before(fl, t, b.addr) && Clear(fl, b) && b.size > 0 && b.End() <= brk
    ensures Shaped(base, Inserted(fl, t, b), brk)
  {
    var fl' := Inserted(fl, t, b);
    InsertedOrdered(fl, t, b);
    forall j | 0 <= j < |fl'| ensures fl'[j].End() <= brk && (j > 0 ==> fl'[j].size > 0) {
      InsertedElement(fl, t, b, j);
    }
    assert t > 0 ==> fl'[0] == fl'[..t][0];
    assert t == 0 ==> !MergesDown(fl, t, b);
  }

  lemma InsertedElement(fl: Blocks, t: nat, b: Blk, j: nat)
    requires t < |fl| && j < |Inserted(fl, t, b)|
    ensures var (x, u) := (Inserted(fl, t, b)[j], Upper(fl, t, b));
            || (x in fl && (j > 0 ==> x in fl[1..]))
            || x == u
            || (x == Blk(fl[t].addr, fl[t].size + u.size) && MergesDown(fl, t, b))
  {
    var rest := Rest(fl, t, b);
    var m := if MergesDown(fl, t, b) then 1 else 2;
    if j < t {
      assert j > 0 ==> fl[j] == fl[1..][j - 1];
    } else if j >= t + m {
      var k := |fl| - |rest| + (j - t - m);
      assert Inserted(fl, t, b)[j] == rest[j - t - m] == fl[k] == fl[1..][k - 1];
    } else if j == t && m == 2 {
      assert j > 0 ==> fl[t] == fl[1..][t - 1];
    }
  }

  /** The freed units are in the block that `free` leaves in freep or in the one after it. */
  lemma InsertedLarge(fl: Blocks, t: nat, b: Blk)
    requires t < |fl|
    ensures var fl' := Inserted(fl, t, b);
            && t < |fl'| && fl'[t].addr == fl[t].addr
            && (fl'[t].size >= b.size || (t + 1 < |fl'| && fl'[t + 1].size >= b.size))
  {
  }

  lemma InsertedClear(fl: Blocks, t: nat, b: Blk, c: Blk)
    requires Ordered(fl) && Before(fl, t, b.addr) && Clear(fl, b) && Clear(fl, c) && b.size > 0 && c.size > 0
    requires Apart(b.addr, b.size, c.addr, c.size)
    ensures Clear(Inserted(fl, t, b), c)
  {
  }

  lemma InsertedPlaced(base: nat, fl: Blocks, brk: nat, live: map<nat, nat>, t: nat, bp: nat)
    requires Shaped(base, fl, brk) && Placed(base, fl, brk, live) && bp in live && Before(fl, t, bp)
    ensures Placed(base, Inserted(fl, t, Blk(bp, live[bp])), brk, live - {bp})
  {
    var b := Blk(bp, live[bp]);
    forall a <- live - {bp} ensures Clear(Inserted(fl, t, b), Blk(a, live[a])) {
      assert Clear(fl, Blk(a, live[a])) && Apart(bp, live[bp], a, live[a]);
      InsertedClear(fl, t, b, Blk(a, live[a]));
    }
  }

  lemma InsertedUntouched(base: nat, mem: Memory, fl: Blocks, brk: nat, live: map<nat, nat>, t: nat, bp: nat)
    requires Shaped(base, fl, brk) && Placed(base, fl, brk, live) && bp in live && Before(fl, t, bp)
    ensures Untouched(live - {bp}, mem, InsertedMemory(mem, fl, t, Blk(bp, live[bp]), base))
  {
    var m := InsertedMemory(mem, fl, t, Blk(bp, live[bp]), base);
    assert forall x: nat :: x != bp && x != fl[t].addr ==> Get(m, x) == Get(mem, x);
    forall a <- live - {bp}, x: nat | a <= x < a + live[a] ensures Get(m, x) == Get(mem, x) {
      assert Clear(fl, Blk(a, live[a])) && Apart(bp, live[bp], a, live[a]);
      assert Apart(a, live[a], fl[t].addr, fl[t].size);
    }
  }

  lemma TakenShaped(base: nat, fl: Blocks, brk: nat, i: nat, n: nat)
    requires Shaped(base, fl, brk) && 0 < i < |fl| && 0 < n <= fl[i].size
    ensures Shaped(base, Taken(fl, i, n), brk)
  {
    var fl' := Taken(fl, i, n);
    if n == fl[i].size {
      assert forall j :: 0 <= j < |fl'| ==> fl'[j] == if j < i then fl[j] else fl[j + 1];
    }
  }

  lemma TakenClear(fl: Blocks, i: nat, n: nat, c: Blk)
    requires i < |fl| && 0 < n <= fl[i].size && Clear(fl, c) && c.size > 0
    ensures Clear(Taken(fl, i, n), c)
    ensures Apart(c.addr, c.size, fl[i].End() - n, n)
  {
    var fl' := Taken(fl, i, n);
    if n == fl[i].size {
      assert forall j :: 0 <= j < |fl'| ==> fl'[j] == if j < i then fl[j] else fl[j + 1];
    }
  }

  lemma TakenPlaced(base: nat, fl: Blocks, brk: nat, live: map<nat, nat>, i: nat, n: nat, a: nat, fl': Blocks)
    requires Shaped(base, fl, brk) && Placed(base, fl, brk, live) && 0 < i < |fl| && 0 < n <= fl[i].size
    requires a == fl[i].End() - n && fl' == Taken(fl, i, n)
    ensures base < a && a !in live && Placed(base, fl', brk, live[a := n])
  {
    forall b <- live ensures Apart(b, live[b], a, n) && Clear(fl', Blk(b, live[b])) {
      TakenClear(fl, i, n, Blk(b, live[b]));
    }
    TakenSelf(base, fl, brk, i, n);
    assert forall x <- live[a := n] :: x == a || x in live;
  }

  lemma TakenSelf(base: nat, fl: Blocks, brk: nat, i: nat, n: nat)
    requires Shaped(base, fl, brk) && 0 < i < |fl| && 0 < n <= fl[i].size
    ensures base < fl[i].End() - n && fl[i].End() <= brk
    ensures Clear(Taken(fl, i, n), Blk(fl[i].End() - n, n))
  {
    var fl' := Taken(fl, i, n);
    if n == fl[i].size {
      assert forall j :: 0 <= j < |fl'| ==> fl'[j] == if j < i then fl[j] else fl[j + 1];
    }
  }

  lemma TakenUntouched(base: nat, mem: Memory, fl: Blocks, brk: nat, live: map<nat, nat>, i: nat, n: nat)
    requires Shaped(base, fl, brk) && Placed(base, fl, brk, live) && 0 < i < |fl| && 0 < n <= fl[i].size
    ensures Untouched(live, mem, TakenMemory(mem, fl, i, n, base))
    ensures n < fl[i].size ==> Get(TakenMemory(mem, fl, i, n, base), fl[i].End() - n).size == n
  {
    var m := TakenMemory(mem, fl, i, n, base);
    forall a <- live, x: nat | a <= x < a + live[a] ensures Get(m, x) == Get(mem, x) {
      assert Clear(fl, Blk(a, live[a]));
      assert Apart(a, live[a], fl[i].addr, fl[i].size) && Apart(a, live[a], fl[i - 1].addr, fl[i - 1].size);
    }
  }

  /** The heap between calls: the free list, the live blocks, and all units accounted for. */
  ghost predicate GoodHeap(base: nat, mem: Memory, fl: Blocks, brk: nat, live: map<nat, nat>, total: nat) {
    && GoodList(base, mem, fl, brk)
    && Placed(base, fl, brk, live)
    && Headed(mem, live)
    && Units(fl) + LiveUnits(live) == total
  }

  lemma FreeKeepsHeap(base: nat, mem: Memory, fl: Blocks, brk: nat, live: map<nat, nat>, total: nat, t: nat, bp: nat)
    requires GoodHeap(base, mem, fl, brk, live, total) && bp in live && Before(fl, t, bp)
    ensures var (b, live') := (Blk(bp, live[bp]), live - {bp});
            var mem' := InsertedMemory(mem, fl, t, b, base);
            && GoodHeap(base, mem', Inserted(fl, t, b), brk, live', total)
            && Untouched(live', mem, mem')
  {
    var b := Blk(bp, live[bp]);
    assert Clear(fl, b);
    InsertedShaped(base, fl, brk, t, b);
    InsertedLinked(mem, fl, t, b, base);
    InsertedPlaced(base, fl, brk, live, t, bp);
    InsertedUntouched(base, mem, fl, brk, live, t, bp);
    InsertedUnits(fl, t, b);
    LiveUnitsRemove(live, bp);
    var mem' := InsertedMemory(mem, fl, t, b, base);
    forall a <- live - {bp} ensures Get(mem', a).size == live[a] {
      assert Get(mem', a) == Get(mem, a);
    }
  }

  lemma TakeKeepsHeap(base: nat, mem: Memory, fl: Blocks, brk: nat, live: map<nat, nat>, total: nat, i: nat, n: nat,
                      a: nat, fl': Blocks, mem': Memory)
    requires GoodHeap(base, mem, fl, brk, live, total) && 0 < i < |fl| && 0 < n <= fl[i].size
    requires a == fl[i].End() - n && fl' == Taken(fl, i, n) && mem' == TakenMemory(mem, fl, i, n, base)
    ensures base < a && a !in live && GoodHeap(base, mem', fl', brk, live[a := n], total) && Untouched(live, mem, mem')
  {
    TakenShaped(base, fl, brk, i, n);
    TakenLinked(mem, fl, i, n, base);
    TakenPlaced(base, fl, brk, live, i, n, a, fl');
    TakenUntouched(base, mem, fl, brk, live, i, n);
    TakenTotal(fl, live, i, n, a);
    TakenHeaded(base, mem, fl, live, i, n, mem');
  }

  lemma TakenTotal(fl: Blocks, live: map<nat, nat>, i: nat, n: nat, a: nat)
    requires 0 < i < |fl| && n <= fl[i].size && a !in live
    ensures Units(Taken(fl, i, n)) + LiveUnits(live[a := n]) == Units(fl) + LiveUnits(live)
  {
    TakenUnits(fl, i, n);
    LiveUnitsAdd(live, a, n);
  }

  /** The headers of the live blocks, the new one among them. */
  lemma TakenHeaded(base: nat, mem: Memory, fl: Blocks, live: map<nat, nat>, i: nat, n: nat, mem': Memory)
    requires Linked(mem, fl, base) && Headed(mem, live) && 0 < i < |fl| && 0 < n <= fl[i].size
    requires mem' == TakenMemory(mem, fl, i, n, base) && Untouched(live, mem, mem')
    requires n < fl[i].size ==> Get(mem', fl[i].End() - n).size == n
    requires forall b <- live :: live[b] > 0
    ensures Headed(mem', live[fl[i].End() - n := n])
  {
    if n == fl[i].size {
      assert Get(mem, fl[i].addr).size == n;
    }
    forall b <- live ensures Get(mem', b).size == live[b] {
      assert Get(mem', b) == Get(mem, b);
    }
  }

  // ------------------------------------------------------------------
  // The loops and the header updates of `free` and `malloc`

  /** The search loop of `free`: it ends, at the block after which bp belongs. */
  method Search(base: nat, mem: Memory, freep: nat, bp: nat, ghost fl: Blocks, ghost cur: nat)
    returns (p: nat, ghost t: nat)
    requires fl != [] && fl[0].addr == base < bp && Ordered(fl) && Linked(mem, fl, base)
    requires forall i :: 0 <= i < |fl| ==> fl[i].addr != bp
    requires cur < |fl| && fl[cur].addr == freep
    ensures Before(fl, t, bp) && p == fl[t].addr
  {
    t := FindBefore(fl, bp);
    p := freep;
    ghost var i := cur;
    while !(bp > p && bp < Get(mem, p).ptr)
      invariant 0 <= i < |fl| && p == fl[i].addr
      decreases if i <= t then t - i else |fl| - i + t
    {
      if p >= Get(mem, p).ptr && (bp > p || bp < Get(mem, p).ptr) {
        break;
      }
      p := Get(mem, p).ptr;
      i := if i + 1 < |fl| then i + 1 else 0;
    }
  }

  /** What the first header update of `free`, the merge upwards, puts in the header. */
  lemma UpperHeader(base: nat, mem: Memory, fl: Blocks, t: nat, b: Blk)
    requires Linked(mem, fl, base) && t < |fl| && base < b.addr
    ensures var next := Get(mem, fl[t].addr).ptr;
            && Get(mem, fl[t].addr).size == fl[t].size
            && (b.End() == next <==> MergesUp(fl, t, b))
            && First(Rest(fl, t, b), base) == (if b.End() == next then Get(mem, next).ptr else next)
            && Upper(fl, t, b).size == (if b.End() == next then b.size + Get(mem, next).size else b.size)
  {
    if t + 1 < |fl| {
      assert Get(mem, fl[t + 1].addr) == Header(NextAddr(fl, t + 1, base), fl[t + 1].size);
    }
  }

  /** The header updates of `free`, which merge with the upper and the lower neighbour. */
  method LinkIn(base: nat, mem: Memory, bp: nat, p: nat, ghost fl: Blocks, ghost t: nat) returns (m: Memory)
    requires Linked(mem, fl, base) && t < |fl| && p == fl[t].addr != bp && base < bp
    ensures m == InsertedMemory(mem, fl, t, Blk(bp, Get(mem, bp).size), base)
  {
    UpperHeader(base, mem, fl, t, Blk(bp, Get(mem, bp).size));
    m := mem;
    var next, size := Get(m, p).ptr, Get(m, bp).size;
    if bp + size == next {
      m := m[bp := Header(Get(m, next).ptr, size + Get(m, next).size)];
    } else {
      m := m[bp := Header(next, size)];
    }
    if p + Get(m, p).size == bp {
      m := m[p := Header(Get(m, bp).ptr, Get(m, p).size + Get(m, bp).size)];
    } else {
      m := m[p := Header(bp, Get(m, p).size)];
    }
  }

  /** Position j lies strictly between cur and i, going round the list from cur. */
  predicate InArc(cur: nat, i: nat, j: nat) {
    if cur < i then cur < j < i else j > cur || j < i
  }

  /**
   The search loop of `malloc`: one pass from freep; it finds the first block that is
   large enough, if there is one.
   */
  method FindFit(base: nat, mem: Memory, freep: nat, n: nat, ghost fl: Blocks, ghost cur: nat)
    returns (p: nat, prevp: nat, ghost i: nat)
    requires fl != [] && fl[0] == Blk(base, 0) && base > 0 && Ordered(fl) && Linked(mem, fl, base)
    requires cur < |fl| && fl[cur].addr == freep && n > 0
    ensures p == 0 <==> forall j :: 0 <= j < |fl| ==> fl[j].size < n
    ensures p != 0 ==> 0 < i < |fl| && p == fl[i].addr && prevp == fl[i - 1].addr && fl[i].size >= n
    ensures p != 0 ==> forall j :: 0 <= j < |fl| && InArc(cur, i, j) ==> fl[j].size < n
  {
    prevp := freep;
    p := Get(mem, prevp).ptr;
    i := if cur + 1 < |fl| then cur + 1 else 0;
    while true
      invariant i < |fl| && p == fl[i].addr && prevp == fl[if i == 0 then |fl| - 1 else i - 1].addr
      invariant forall j :: 0 <= j < |fl| && InArc(cur, i, j) ==> fl[j].size < n
      decreases if i <= cur then cur - i else |fl| - i + cur
    {
      if Get(mem, p).size >= n {
        return;
      }
      ArcGrows(fl, cur, i, n);
      if p == freep {
        p := 0;
        return;
      }
      prevp := p;
      p := Get(mem, p).ptr;
      i := if i + 1 < |fl| then i + 1 else 0;
    }
  }

  /** One block more has been looked at, and none is left after the block at freep. */
  lemma ArcGrows(fl: Blocks, cur: nat, i: nat, n: nat)
    requires cur < |fl| && i < |fl| && fl[i].size < n
    requires forall j :: 0 <= j < |fl| && InArc(cur, i, j) ==> fl[j].size < n
    ensures i == cur ==> forall j :: 0 <= j < |fl| ==> fl[j].size < n
    ensures i != cur ==>
              forall j :: 0 <= j < |fl| && InArc(cur, if i + 1 < |fl| then i + 1 else 0, j) ==> fl[j].size < n
  {
  }

  /** The end of `malloc`: unlink the block or cut off its tail. */
  method Take(base: nat, mem: Memory, p: nat, prevp: nat, n: nat, ghost fl: Blocks, ghost i: nat)
    returns (a: nat, m: Memory)
    requires 0 < i < |fl| && Linked(mem, fl, base) && p == fl[i].addr && prevp == fl[i - 1].addr && 0 < n <= fl[i].size
    ensures a == fl[i].End() - n && m == TakenMemory(mem, fl, i, n, base)
  {
    a, m := p, mem;
    if Get(m, p).size == n {
      m := m[prevp := Header(Get(m, p).ptr, Get(m, prevp).size)];
    } else {
      m := m[p := Header(Get(m, p).ptr, Get(m, p).size - n)];
      a := p + Get(m, p).size;
      m := m[a := Header(Get(m, a).ptr, n)];
    }
  }

  // ------------------------------------------------------------------
  // The three operations on the allocator's state

  /** The memory, the static pointer `freep` (0 before the first call) and the end of the heap. */
  datatype Arena = Arena(mem: Memory, freep: nat, brk: nat)

  /**
   What the memory stands for: the free list, where freep is in it, the live blocks, and
   the units obtained from sbrk.
   */
  datatype View = View(fl: Blocks, cur: nat, live: map<nat, nat>, total: nat)

  ghost predicate Good(base: nat, s: Arena, v: View) {
    && 0 < base <= s.brk
    && (s.freep == 0 ==> v == View([Blk(base, 0)], 0, map[], 0))
    && (s.freep != 0 ==> InUse(base, s, v))
  }

  ghost predicate InUse(base: nat, s: Arena, v: View) {
    && GoodHeap(base, s.mem, v.fl, s.brk, v.live, v.total)
    && v.cur < |v.fl| && v.fl[v.cur].addr == s.freep
  }

  /** `free`, given the header address. */
  method FreeBlock(base: nat, s: Arena, bp: nat, ghost v: View) returns (s': Arena, ghost v': View)
    requires InUse(base, s, v) && bp in v.live
    ensures InUse(base, s', v')
    ensures Before(v.fl, v'.cur, bp)
    ensures v' == View(Inserted(v.fl, v'.cur, Blk(bp, v.live[bp])), v'.cur, v.live - {bp}, v.total)
    ensures s'.brk == s.brk && s'.freep >= base
    ensures Untouched(v'.live, s.mem, s'.mem)
  {
    assert Clear(v.fl, Blk(bp, v.live[bp]));
    var p;
    ghost var t;
    p, t := Search(base, s.mem, s.freep, bp, v.fl, v.cur);
    FreeKeepsHeap(base, s.mem, v.fl, s.brk, v.live, v.total, t, bp);
    InsertedLarge(v.fl, t, Blk(bp, v.live[bp]));
    var m := LinkIn(base, s.mem, bp, p, v.fl, t);
    s' := Arena(m, p, s.brk);
    v' := View(Inserted(v.fl, t, Blk(bp, v.live[bp])), t, v.live - {bp}, v.total);
  }

  lemma GrowKeepsHeap(base: nat, mem: Memory, fl: Blocks, brk: nat, live: map<nat, nat>, total: nat, hp: nat, nu: nat)
    requires GoodHeap(base, mem, fl, brk, live, total) && hp >= brk && hp > base && nu > 0
    ensures hp !in live
    ensures GoodHeap(base, mem[hp := Header(Get(mem, hp).ptr, nu)], fl, hp + nu, live[hp := nu], total + nu)
    ensures Untouched(live, mem, mem[hp := Header(Get(mem, hp).ptr, nu)])
  {
    var m, more := mem[hp := Header(Get(mem, hp).ptr, nu)], live[hp := nu];
    assert hp !in live;
    GrownPlaced(base, fl, brk, live, hp, nu);
    GrownHeaders(base, mem, fl, brk, live, hp, nu);
    assert Units(fl) + LiveUnits(more) == total + nu by { LiveUnitsAdd(live, hp, nu); }
    assert Shaped(base, fl, hp + nu);
    assert GoodList(base, m, fl, hp + nu);
  }

  lemma GrownHeaders(base: nat, mem: Memory, fl: Blocks, brk: nat, live: map<nat, nat>, hp: nat, nu: nat)
    requires Linked(mem, fl, base) && Placed(base, fl, brk, live) && Headed(mem, live) && hp >= brk
    requires forall i :: 0 <= i < |fl| ==> fl[i].addr != hp
    ensures var m := mem[hp := Header(Get(mem, hp).ptr, nu)];
            Linked(m, fl, base) && Headed(m, live[hp := nu]) && Untouched(live, mem, m)
  {
    LinkedFrame(mem, mem[hp := Header(Get(mem, hp).ptr, nu)], fl, base);
  }

  lemma GrownPlaced(base: nat, fl: Blocks, brk: nat, live: map<nat, nat>, hp: nat, nu: nat)
    requires Shaped(base, fl, brk) && Placed(base, fl, brk, live) && hp >= brk && hp > base && nu > 0
    ensures Placed(base, fl, hp + nu, live[hp := nu])
    ensures forall i :: 0 <= i < |fl| ==> fl[i].addr != hp
  {
    forall i | 0 <= i < |fl| ensures fl[i].addr != hp && Apart(hp, nu, fl[i].addr, fl[i].size) {
      assert fl[i].End() <= brk;
      assert i > 0 ==> fl[i].size > 0;
    }
    assert Clear(fl, Blk(hp, nu));
  }

  /** `morecore`: hp is what sbrk returned; the new units go through `free`. */
  method Morecore(base: nat, s: Arena, nunits: nat, hp: nat, ghost v: View) returns (s': Arena, ghost v': View)
    requires InUse(base, s, v) && nunits > 0 && hp >= s.brk && hp > base
    ensures InUse(base, s', v')
    ensures s'.freep >= base && s'.brk == hp + CoreUnits(nunits)
    ensures v'.live == v.live && v'.total == v.total + CoreUnits(nunits)
    ensures exists i :: 0 <= i < |v'.fl| && v'.fl[i].size >= nunits
    ensures Untouched(v.live, s.mem, s'.mem)
  {
    var nu := nunits;
    if nu < MINCORE {
      nu := MINCORE;
    }
    GrowKeepsHeap(base, s.mem, v.fl, s.brk, v.live, v.total, hp, nu);
    var grown := Arena(s.mem[hp := Header(Get(s.mem, hp).ptr, nu)], s.freep, hp + nu);
    ghost var wider := View(v.fl, v.cur, v.live[hp := nu], v.total + nu);
    s', v' := FreeBlock(base, grown, hp, wider);
    InsertedLarge(v.fl, v'.cur, Blk(hp, nu));
    AddRemove(v.live, hp, nu);
    UntouchedTransitive(v.live, s.mem, grown.mem, s'.mem);
  }

  lemma AddRemove(live: map<nat, nat>, a: nat, n: nat)
    requires a !in live
    ensures live[a := n] - {a} == live
  {
  }

  lemma UntouchedTransitive(live: map<nat, nat>, a: Memory, b: Memory, c: Memory)
    requires Untouched(live, a, b) && Untouched(live, b, c)
    ensures Untouched(live, a, c)
  {
    forall x <- live, y: nat | x <= y < x + live[x] ensures Get(c, y) == Get(a, y) {
      assert Get(b, y) == Get(a, y);
    }
  }

  /** The first call of `malloc` makes the free list consist of base alone. */
  method Initialised(base: nat, s: Arena, ghost v: View) returns (s': Arena)
    requires Good(base, s, v)
    ensures InUse(base, s', v) && Untouched(v.live, s.mem, s'.mem) && s'.brk == s.brk
    ensures s' == if s.freep == 0 then Arena(s.mem[base := Header(base, 0)], base, s.brk) else s
  {
    s' := s;
    if s.freep == 0 {
      s' := s.(mem := s.mem[base := Header(base, 0)], freep := base);
    }
  }

  /** A request met from block i: the block leaves the list or loses its tail. */
  method TakeBlock(base: nat, s: Arena, n: nat, p: nat, prevp: nat, ghost v: View, ghost i: nat)
    returns (a: nat, s': Arena, ghost v': View)
    requires InUse(base, s, v) && 0 < n && 0 < i < |v.fl| && n <= v.fl[i].size
    requires p == v.fl[i].addr && prevp == v.fl[i - 1].addr
    ensures InUse(base, s', v')
    ensures a !in v.live && base < a == v.fl[i].End() - n
    ensures v' == View(Taken(v.fl, i, n), i - 1, v.live[a := n], v.total)
    ensures s'.brk == s.brk && s'.freep == prevp
    ensures Untouched(v.live, s.mem, s'.mem)
  {
    var m;
    a, m := Take(base, s.mem, p, prevp, n, v.fl, i);
    TakeKeepsHeap(base, s.mem, v.fl, s.brk, v.live, v.total, i, n, a, Taken(v.fl, i, n), m);
    TakenShape(v.fl, i, n);
    s' := Arena(m, prevp, s.brk);
    v' := View(Taken(v.fl, i, n), i - 1, v.live[a := n], v.total);
  }

  predicate NoFit(fl: Blocks, n: nat) {
    forall i :: 0 <= i < |fl| ==> fl[i].size < n
  }

  /**
   `malloc` of nunits units: one pass over the list and, if that finds nothing,
   `morecore` and a second pass.  The result is 0, or the address behind the header of
   a new live block.  sbrk is what the system call would return.  granted is false when sbrk
   succeeds without extending the heap by the units asked for, because its signed
   argument is not positive; the accesses that follow are then outside the heap.
   */
  method MallocBlock(base: nat, s: Arena, nunits: nat, sbrk: Option<nat>, ghost v: View)
    returns (granted: bool, r: nat, s': Arena, ghost v': View)
    requires Good(base, s, v) && nunits > 0
    requires sbrk.Some? ==> sbrk.value >= s.brk && sbrk.value > base
    ensures Good(base, s', v')
    ensures !granted <==> NoFit(v.fl, nunits) && sbrk.Some? && SbrkArgument(CoreUnits(nunits)) <= 0
    ensures granted ==> (r == 0 <==> NoFit(v.fl, nunits) && sbrk.None?)
    ensures !granted || r == 0 ==> v'.live == v.live && v'.total == v.total
    ensures granted && r != 0 ==> Allocated(base, v, v', r, nunits)
    ensures Untouched(v.live, s.mem, s'.mem)
  {
    var s0 := Initialised(base, s, v);
    var p, prevp, s1;
    ghost var i, v1;
    granted, p, prevp, s1, v1, i := FitOrGrow(base, s0, nunits, sbrk, v);
    UntouchedTransitive(v.live, s.mem, s0.mem, s1.mem);
    r, s', v' := 0, s1, v1;
    if granted && p != 0 {
      r, s', v' := TakeBlock(base, s1, nunits, p, prevp, v1, i);
      UntouchedTransitive(v.live, s.mem, s1.mem, s'.mem);
      AllocatedIs(base, v, v1, v', r, nunits);
      r := r + 1;
    }
    InUseIsGood(base, s', v');
  }

  lemma InUseIsGood(base: nat, s: Arena, v: View)
    requires InUse(base, s, v) && s.freep != 0 && 0 < base <= s.brk
    ensures Good(base, s, v)
  {
  }

  /** A block of n units before address r is live now, in memory that was free or has just been obtained. */
  ghost predicate Allocated(base: nat, v: View, v': View, r: nat, n: nat) {
    && r - 1 > base && r - 1 !in v.live && v'.live == v.live[r - 1 := n]
    && v'.total == v.total + if NoFit(v.fl, n) then CoreUnits(n) else 0
  }

  lemma AllocatedIs(base: nat, v: View, v1: View, v': View, a: nat, n: nat)
    requires v1.live == v.live && v1.total == v.total + (if NoFit(v.fl, n) then CoreUnits(n) else 0)
    requires base < a && a !in v.live && v'.live == v1.live[a := n] && v'.total == v1.total
    ensures Allocated(base, v, v', a + 1, n)
  {
  }

  /** The search part of `malloc`: a block that is large enough, found at once or after `morecore`. */
  method FitOrGrow(base: nat, s: Arena, n: nat, sbrk: Option<nat>, ghost v: View)
    returns (granted: bool, p: nat, prevp: nat, s': Arena, ghost v': View, ghost i: nat)
    requires base > 0 && InUse(base, s, v) && n > 0
    requires sbrk.Some? ==> sbrk.value >= s.brk && sbrk.value > base
    ensures InUse(base, s', v') && s'.brk >= s.brk && v'.live == v.live && s'.freep > 0
    ensures !granted <==> NoFit(v.fl, n) && sbrk.Some? && SbrkArgument(CoreUnits(n)) <= 0
    ensures !granted ==> v' == v
    ensures granted ==> (p == 0 <==> NoFit(v.fl, n) && sbrk.None?)
    ensures granted && p != 0 ==>
              0 < i < |v'.fl| && n <= v'.fl[i].size && p == v'.fl[i].addr && prevp == v'.fl[i - 1].addr
    ensures granted ==> v'.total == v.total + if NoFit(v.fl, n) && sbrk.Some? then CoreUnits(n) else 0
    ensures Untouched(v.live, s.mem, s'.mem)
  {
    granted, s', v' := true, s, v;
    p, prevp, i := FindFit(base, s.mem, s.freep, n, v.fl, v.cur);
    if p == 0 && sbrk.Some? {
      if SbrkArgument(CoreUnits(n)) <= 0 {
        granted := false;
        return;
      }
      s', v' := Morecore(base, s, n, sbrk.value, v);
      p, prevp, i := FindFit(base, s'.mem, s'.freep, n, v'.fl, v'.cur);
    }
  }

  // ------------------------------------------------------------------
  // The allocator

  class Allocator {
    /** Address of the static header. */
    const base: nat
    var arena: Arena
    ghost var view: View

    ghost predicate Valid()
      reads this
    {
      Good(base, arena, view)
    }

    constructor (base: nat, brk: nat, mem: Memory)
      requires 0 < base <= brk
      ensures Valid() && view.live == map[] && view.total == 0
    {
      this.base := base;
      arena, view := Arena(mem, 0, brk), View([Blk(base, 0)], 0, map[], 0);
    }

    /**
     `free` of the block whose payload starts at ap, which belongs after block t of the
     list: its units return to the free list, merged with their neighbours.
     */
    method Free(ap: nat) returns (ghost t: nat)
      requires Valid() && ap > 0 && ap - 1 in view.live
      modifies this
      ensures Valid()
      ensures view.live == old(view.live) - {ap - 1} && view.total == old(view.total)
      ensures Before(old(view.fl), t, ap - 1)
      ensures view.fl == Inserted(old(view.fl), t, Blk(ap - 1, old(view.live)[ap - 1]))
      ensures Untouched(view.live, old(arena).mem, arena.mem)
    {
      arena, view := FreeBlock(base, arena, ap - 1, view);
      t := view.cur;
    }

    /** `malloc`; the payload has room for the request exactly when the rounding does not wrap around. */
    method Malloc(nbytes: nat, sbrk: Option<nat>) returns (granted: bool, r: nat)
      requires Valid() && nbytes < UINT
      requires sbrk.Some? ==> sbrk.value >= arena.brk && sbrk.value > base
      modifies this
      ensures Valid()
      ensures !granted <==> NoFit(old(view.fl), UnitsFor(nbytes)) && sbrk.Some? && 0x7fff_fff0 < nbytes <= UINT - UNIT
      ensures granted ==> (r == 0 <==> NoFit(old(view.fl), UnitsFor(nbytes)) && sbrk.None?)
      ensures !granted || r == 0 ==> view.live == old(view.live) && view.total == old(view.total)
      ensures granted && r != 0 ==> Allocated(base, old(view), view, r, UnitsFor(nbytes))
      ensures (UnitsFor(nbytes) - 1) * UNIT >= nbytes <==> nbytes <= UINT - UNIT
      ensures Untouched(old(view.live), old(arena).mem, arena.mem)
    {
      PayloadExact(nbytes);
      SbrkExact(nbytes);
      granted, r, arena, view := MallocBlock(base, arena, UnitsFor(nbytes), sbrk, view);
    }

    /** A program may overwrite the payload of its live blocks; the allocator does not depend on it. */
    method Store(a: nat, x: nat, h: Header)
      requires Valid() && a in view.live && a < x < a + view.live[a]
      modifies this`arena
      ensures Valid() && arena == old(arena).(mem := old(arena).mem[x := h])
    {
      StoreKeepsHeap(base, arena.mem, view.fl, arena.brk, view.live, view.total, a, x, h);
      arena := arena.(mem := arena.mem[x := h]);
    }
  }

  lemma StoreKeepsHeap(base: nat, mem: Memory, fl: Blocks, brk: nat, live: map<nat, nat>, total: nat, a: nat, x: nat,
                       h: Header)
    requires GoodHeap(base, mem, fl, brk, live, total) && a in live && a < x < a + live[a]
    ensures GoodHeap(base, mem[x := h], fl, brk, live, total)
  {
    assert Clear(fl, Blk(a, live[a]));
    forall i | 0 <= i < |fl| ensures fl[i].addr != x {
      assert Apart(a, live[a], fl[i].addr, fl[i].size);
    }
    LinkedFrame(mem, mem[x := h], fl, base);
    forall b <- live ensures b != x {
      assert b != a ==> Apart(a, live[a], b, live[b]);
    }
  }
}
