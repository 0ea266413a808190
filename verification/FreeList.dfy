/**
 The free list of the storage allocator as a value: an address-ordered sequence of
 blocks that starts with the zero-sized base block, laid out in memory as a circular
 list of headers.  Addresses and sizes are in header-sized units.
 */
module FreeList {

  datatype Header = Header(ptr: nat, size: nat)

  type Memory = map<nat, Header>

  function Get(mem: Memory, a: nat): Header {
    if a in mem then mem[a] else Header(0, 0)
  }

  datatype Blk = Blk(addr: nat, size: nat) {
    function End(): nat { addr + size }
  }

  type Blocks = seq<Blk>

  /** The units [a, a+n) and [b, b+m) do not meet. */
  predicate Apart(a: nat, n: nat, b: nat, m: nat) {
    a + n <= b || b + m <= a
  }

  function First(xs: Blocks, end: nat): nat {
    if xs == [] then end else xs[0].addr
  }

  function NextAddr(xs: Blocks, i: nat, end: nat): nat {
    if i + 1 < |xs| then xs[i + 1].addr else end
  }

  /** The header of every block of xs is in memory and points to the next block, the last one to `end`. */
  predicate Linked(mem: Memory, xs: Blocks, end: nat) {
    forall i {:trigger Get(mem, xs[i].addr)} :: 0 <= i < |xs| ==>
      Get(mem, xs[i].addr) == Header(NextAddr(xs, i, end), xs[i].size)
  }

  /** Ascending, disjoint, and with a gap between neighbours: adjacent free blocks are merged. */
  predicate Ordered(xs: Blocks) {
    forall i, j :: 0 <= i < j < |xs| ==> xs[i].End() < xs[j].addr
  }

  function Units(xs: Blocks): nat {
    if xs == [] then 0 else xs[0].size + Units(xs[1..])
  }

  lemma LinkedJoin(mem: Memory, xs: Blocks, ys: Blocks, end: nat)
    requires Linked(mem, xs, First(ys, end)) && Linked(mem, ys, end)
    ensures Linked(mem, xs + ys, end)
  {
    var zs := xs + ys;
    forall i | 0 <= i < |zs| ensures Get(mem, zs[i].addr) == Header(NextAddr(zs, i, end), zs[i].size) {
      if i < |xs| {
        assert zs[i] == xs[i];
      } else {
        assert zs[i] == ys[i - |xs|];
      }
    }
  }

  lemma LinkedSlice(mem: Memory, xs: Blocks, end: nat, lo: nat, hi: nat)
    requires Linked(mem, xs, end) && lo <= hi <= |xs|
    ensures Linked(mem, xs[lo..hi], if hi < |xs| then xs[hi].addr else end)
  {
    var zs := xs[lo..hi];
    assert forall i :: 0 <= i < |zs| ==> zs[i] == xs[lo + i];
  }

  lemma LinkedFrame(mem: Memory, mem': Memory, xs: Blocks, end: nat)
    requires Linked(mem, xs, end)
    requires forall i :: 0 <= i < |xs| ==> Get(mem', xs[i].addr) == Get(mem, xs[i].addr)
    ensures Linked(mem', xs, end)
  {
  }

  lemma {:induction false} UnitsConcat(xs: Blocks, ys: Blocks)
    ensures Units(xs + ys) == Units(xs) + Units(ys)
  {
    if xs == [] {
      assert xs + ys == ys;
    } else {
      assert (xs + ys)[1..] == xs[1..] + ys;
      UnitsConcat(xs[1..], ys);
    }
  }

  /** One or two blocks in the middle of a list. */
  lemma UnitsSplit(xs: Blocks, mid: Blocks, ys: Blocks)
    requires 1 <= |mid| <= 2
    ensures Units(xs + mid + ys) == Units(xs) + mid[0].size + (if |mid| == 2 then mid[1].size else 0) + Units(ys)
  {
    UnitsConcat(xs + mid, ys);
    UnitsConcat(xs, mid);
    assert mid == [mid[0]] + mid[1..];
    assert Units(mid) == mid[0].size + Units(mid[1..]);
    if |mid| == 2 {
      assert Units(mid[1..]) == mid[1].size + Units(mid[1..][1..]);
    }
  }

  // ------------------------------------------------------------------
  // Freeing a block between fl[t] and its successor

  /** t is the position after which a block at address a belongs. */
  predicate Before(fl: Blocks, t: nat, a: nat) {
    && t < |fl|
    && fl[t].addr < a
    && (t + 1 < |fl| ==> a < fl[t + 1].addr)
  }

  predicate MergesUp(fl: Blocks, t: nat, b: Blk) {
    t + 1 < |fl| && b.End() == fl[t + 1].addr
  }

  predicate MergesDown(fl: Blocks, t: nat, b: Blk)
    requires t < |fl|
  {
    fl[t].End() == b.addr
  }

  /** The block that is to be linked in after merging upwards, and what follows it. */
  function Upper(fl: Blocks, t: nat, b: Blk): Blk {
    if MergesUp(fl, t, b) then Blk(b.addr, b.size + fl[t + 1].size) else b
  }

  function Rest(fl: Blocks, t: nat, b: Blk): Blocks
    requires t < |fl|
  {
    if MergesUp(fl, t, b) then fl[t + 2..] else fl[t + 1..]
  }

  /** What takes the place of fl[t]. */
  function Middle(fl: Blocks, t: nat, b: Blk): (mid: Blocks)
    requires t < |fl|
    ensures 1 <= |mid| <= 2 && mid[0].addr == fl[t].addr
  {
    var u := Upper(fl, t, b);
    if MergesDown(fl, t, b) then [Blk(fl[t].addr, fl[t].size + u.size)] else [fl[t], u]
  }

  function Inserted(fl: Blocks, t: nat, b: Blk): Blocks
    requires t < |fl|
  {
    fl[..t] + Middle(fl, t, b) + Rest(fl, t, b)
  }

  /** b lies apart from every block of the list. */
  predicate Clear(fl: Blocks, b: Blk) {
    forall i :: 0 <= i < |fl| ==> Apart(b.addr, b.size, fl[i].addr, fl[i].size)
  }

  lemma InsertedOrdered(fl: Blocks, t: nat, b: Blk)
    requires Ordered(fl) && Before(fl, t, b.addr) && Clear(fl, b) && b.size > 0
    requires forall i :: 1 <= i < |fl| ==> fl[i].size > 0
    ensures Ordered(Inserted(fl, t, b))
    ensures |Inserted(fl, t, b)| > t && Inserted(fl, t, b)[..t] == fl[..t] && Inserted(fl, t, b)[t].addr == fl[t].addr
  {
    var front, mid, rest := fl[..t], Middle(fl, t, b), Rest(fl, t, b);
    MiddleFits(fl, t, b);
    OrderedSlice(fl, 0, t);
    assert fl[0..t] == front;
    OrderedSlice(fl, |fl| - |rest|, |fl|);
    assert fl[|fl| - |rest|..|fl|] == rest;
    assert forall i :: 0 <= i < |front| ==> front[i].End() < mid[0].addr;
    OrderedJoin(front, mid);
    OrderedJoin(front + mid, rest);
  }

  /** The middle part is in order, and lies below what follows it, as does everything before it. */
  lemma MiddleFits(fl: Blocks, t: nat, b: Blk)
    requires Ordered(fl) && Before(fl, t, b.addr) && Clear(fl, b) && b.size > 0
    requires forall i :: 1 <= i < |fl| ==> fl[i].size > 0
    ensures Ordered(Middle(fl, t, b))
    ensures var rest := Rest(fl, t, b);
            rest != [] ==>
              && (forall x <- Middle(fl, t, b) :: x.End() < rest[0].addr)
              && (forall i :: 0 <= i < t ==> fl[i].End() < rest[0].addr)
  {
    assert Apart(b.addr, b.size, fl[t].addr, fl[t].size);
    if t + 1 < |fl| {
      assert Apart(b.addr, b.size, fl[t + 1].addr, fl[t + 1].size) && fl[t].End() < fl[t + 1].addr;
    }
    if t + 2 < |fl| {
      assert fl[t + 1].End() < fl[t + 2].addr;
    }
  }

  lemma OrderedSlice(xs: Blocks, lo: nat, hi: nat)
    requires Ordered(xs) && lo <= hi <= |xs|
    ensures Ordered(xs[lo..hi])
  {
    var zs := xs[lo..hi];
    forall i, j | 0 <= i < j < |zs| ensures zs[i].End() < zs[j].addr {
      assert zs[i] == xs[lo + i] && zs[j] == xs[lo + j];
    }
  }

  lemma OrderedJoin(xs: Blocks, ys: Blocks)
    requires Ordered(xs) && Ordered(ys)
    requires ys != [] ==> forall x <- xs :: x.End() < ys[0].addr
    ensures Ordered(xs + ys)
  {
    var zs := xs + ys;
    forall i, j | 0 <= i < j < |zs| ensures zs[i].End() < zs[j].addr {
      if i < |xs| <= j {
        assert zs[i] == xs[i] && zs[j] == ys[j - |xs|];
        assert j == |xs| || ys[0].End() < ys[j - |xs|].addr;
      } else if i >= |xs| {
        assert zs[i] == ys[i - |xs|] && zs[j] == ys[j - |xs|];
      }
    }
  }

  lemma InsertedUnits(fl: Blocks, t: nat, b: Blk)
    requires Before(fl, t, b.addr)
    ensures Units(Inserted(fl, t, b)) == Units(fl) + b.size
  {
    var rest, mid := Rest(fl, t, b), Middle(fl, t, b);
    UnitsSplit(fl[..t], mid, rest);
    if MergesUp(fl, t, b) {
      assert fl == fl[..t] + [fl[t], fl[t + 1]] + rest;
      UnitsSplit(fl[..t], [fl[t], fl[t + 1]], rest);
    } else {
      assert fl == fl[..t] + [fl[t]] + rest;
      UnitsSplit(fl[..t], [fl[t]], rest);
    }
  }

  /** The memory after `free` has written the two headers. */
  function InsertedMemory(mem: Memory, fl: Blocks, t: nat, b: Blk, end: nat): Memory
    requires t < |fl|
  {
    var u, next := Upper(fl, t, b), First(Rest(fl, t, b), end);
    var m := mem[b.addr := Header(next, u.size)];
    m[fl[t].addr := if MergesDown(fl, t, b) then Header(next, fl[t].size + u.size) else Header(b.addr, fl[t].size)]
  }

  /** The part before fl[t], and the part that follows the new block, stay linked as they are. */
  lemma InsertedSides(mem: Memory, fl: Blocks, t: nat, b: Blk, end: nat)
    requires Ordered(fl) && Linked(mem, fl, end) && Before(fl, t, b.addr)
    ensures Linked(InsertedMemory(mem, fl, t, b, end), fl[..t], fl[t].addr)
    ensures Linked(InsertedMemory(mem, fl, t, b, end), Rest(fl, t, b), end)
  {
    var m, rest := InsertedMemory(mem, fl, t, b, end), Rest(fl, t, b);
    var k := |fl| - |rest|;
    assert forall a: nat :: a != b.addr && a != fl[t].addr ==> Get(m, a) == Get(mem, a);
    LinkedSlice(mem, fl, end, 0, t);
    assert fl[0..t] == fl[..t];
    LinkedFrame(mem, m, fl[..t], fl[t].addr);
    LinkedSlice(mem, fl, end, k, |fl|);
    assert fl[k..|fl|] == rest;
    assert forall i :: 0 <= i < |rest| ==> rest[i] == fl[k + i];
    LinkedFrame(mem, m, rest, end);
  }

  lemma InsertedLinked(mem: Memory, fl: Blocks, t: nat, b: Blk, end: nat)
    requires Ordered(fl) && Linked(mem, fl, end) && Before(fl, t, b.addr)
    ensures Linked(InsertedMemory(mem, fl, t, b, end), Inserted(fl, t, b), end)
  {
    var rest, mid := Rest(fl, t, b), Middle(fl, t, b);
    var m := InsertedMemory(mem, fl, t, b, end);
    InsertedSides(mem, fl, t, b, end);
    assert Linked(m, mid, First(rest, end));
    LinkedJoin(m, fl[..t], mid, First(rest, end));
    LinkedJoin(m, fl[..t] + mid, rest, end);
  }

  // ------------------------------------------------------------------
  // Taking units from block i

  /** A block that fits exactly leaves the list; from a larger one the tail is cut off. */
  function Taken(fl: Blocks, i: nat, n: nat): Blocks
    requires i < |fl| && n <= fl[i].size
  {
    if n == fl[i].size then fl[..i] + fl[i + 1..] else fl[i := Blk(fl[i].addr, fl[i].size - n)]
  }

  function TakenMemory(mem: Memory, fl: Blocks, i: nat, n: nat, end: nat): Memory
    requires 0 < i < |fl| && n <= fl[i].size
  {
    if n == fl[i].size then
      mem[fl[i - 1].addr := Header(First(fl[i + 1..], end), fl[i - 1].size)]
    else
      var m := mem[fl[i].addr := Header(First(fl[i + 1..], end), fl[i].size - n)];
      m[fl[i].End() - n := Header(Get(m, fl[i].End() - n).ptr, n)]
  }

  lemma TakenUnits(fl: Blocks, i: nat, n: nat)
    requires 0 < i < |fl| && n <= fl[i].size
    ensures Units(Taken(fl, i, n)) + n == Units(fl)
  {
    var after := fl[i + 1..];
    TakenShape(fl, i, n);
    if n == fl[i].size {
      FourParts(fl, i);
      UnitsSplit(fl[..i - 1], [fl[i - 1], fl[i]], after);
      UnitsSplit(fl[..i - 1], [fl[i - 1]], after);
    } else {
      ThreeParts(fl, i);
      UnitsSplit(fl[..i], [fl[i]], after);
      UnitsSplit(fl[..i], [Blk(fl[i].addr, fl[i].size - n)], after);
    }
  }

  lemma ThreeParts(fl: Blocks, i: nat)
    requires i < |fl|
    ensures fl == fl[..i] + [fl[i]] + fl[i + 1..]
  {
  }

  lemma FourParts(fl: Blocks, i: nat)
    requires 0 < i < |fl|
    ensures fl == fl[..i - 1] + [fl[i - 1], fl[i]] + fl[i + 1..]
  {
  }

  lemma TakenLinked(mem: Memory, fl: Blocks, i: nat, n: nat, end: nat)
    requires Ordered(fl) && Linked(mem, fl, end) && 0 < i < |fl| && 0 < n <= fl[i].size
    ensures Linked(TakenMemory(mem, fl, i, n, end), Taken(fl, i, n), end)
  {
    var m, after := TakenMemory(mem, fl, i, n, end), fl[i + 1..];
    TakenSides(mem, fl, i, n, end);
    var front, b := if n == fl[i].size then fl[..i - 1] else fl[..i],
                    if n == fl[i].size then fl[i - 1] else Blk(fl[i].addr, fl[i].size - n);
    assert Linked(m, [b], First(after, end));
    LinkedJoin(m, front, [b], First(after, end));
    LinkedJoin(m, front + [b], after, end);
    TakenShape(fl, i, n);
  }

  lemma TakenShape(fl: Blocks, i: nat, n: nat)
    requires 0 < i < |fl| && n <= fl[i].size
    ensures n == fl[i].size ==> Taken(fl, i, n) == fl[..i - 1] + [fl[i - 1]] + fl[i + 1..]
    ensures n < fl[i].size ==> Taken(fl, i, n) == fl[..i] + [Blk(fl[i].addr, fl[i].size - n)] + fl[i + 1..]
  {
    assert fl[..i] == fl[..i - 1] + [fl[i - 1]];
  }

  lemma TakenSides(mem: Memory, fl: Blocks, i: nat, n: nat, end: nat)
    requires Ordered(fl) && Linked(mem, fl, end) && 0 < i < |fl| && 0 < n <= fl[i].size
    ensures Linked(TakenMemory(mem, fl, i, n, end), fl[i + 1..], end)
    ensures Linked(TakenMemory(mem, fl, i, n, end), fl[..i - 1], fl[i - 1].addr)
    ensures n < fl[i].size ==> Linked(TakenMemory(mem, fl, i, n, end), fl[..i], fl[i].addr)
  {
    var m := TakenMemory(mem, fl, i, n, end);
    TakenElsewhere(mem, fl, i, n, end);
    LinkedPart(mem, m, fl, end, i + 1, |fl|);
    assert fl[i + 1..] == fl[i + 1..|fl|] && fl[..i] == fl[0..i] && fl[..i - 1] == fl[0..i - 1];
    LinkedPart(mem, m, fl, end, 0, i - 1);
    if n < fl[i].size {
      LinkedPart(mem, m, fl, end, 0, i);
    }
  }

  /** Taking units changes no header of another block of the list. */
  lemma TakenElsewhere(mem: Memory, fl: Blocks, i: nat, n: nat, end: nat)
    requires Ordered(fl) && 0 < i < |fl| && 0 < n <= fl[i].size
    ensures forall j :: 0 <= j < |fl| && j != i && (j != i - 1 || n < fl[i].size) ==>
              Get(TakenMemory(mem, fl, i, n, end), fl[j].addr) == Get(mem, fl[j].addr)
  {
  }

  lemma LinkedPart(mem: Memory, m: Memory, fl: Blocks, end: nat, lo: nat, hi: nat)
    requires Linked(mem, fl, end) && lo <= hi <= |fl|
    requires forall j :: lo <= j < hi ==> Get(m, fl[j].addr) == Get(mem, fl[j].addr)
    ensures Linked(m, fl[lo..hi], if hi < |fl| then fl[hi].addr else end)
  {
    LinkedSlice(mem, fl, end, lo, hi);
    var zs := fl[lo..hi];
    forall k | 0 <= k < |zs| ensures Get(m, zs[k].addr) == Get(mem, zs[k].addr) {
      assert zs[k] == fl[lo + k];
    }
    LinkedFrame(mem, m, zs, if hi < |fl| then fl[hi].addr else end);
  }
}
