/** The ring buffer of a pipe, with its 32-bit counters. */
module PipeRing {
  import opened Basics

  const PIPESIZE: nat := 512
  const UINT: nat := 0x1_0000_0000

  datatype Ring = Ring(data: seq<byte>, nread: nat, nwrite: nat)

  /** Bytes in the pipe, in 32-bit arithmetic. */
  function Count(r: Ring): (n: nat) {
    (r.nwrite + UINT - r.nread % UINT) % UINT
  }

  lemma CountIs(r: Ring)
    requires r.nread < UINT && r.nwrite < UINT
    ensures Count(r) == if r.nwrite >= r.nread then r.nwrite - r.nread else r.nwrite + UINT - r.nread
  {
  }

  predicate Good(r: Ring) {
    |r.data| == PIPESIZE && r.nread < UINT && r.nwrite < UINT && Count(r) <= PIPESIZE
  }

  /** `nwrite == nread + PIPESIZE`, as the code tests it. */
  predicate Full(r: Ring) {
    r.nwrite == (r.nread + PIPESIZE) % UINT
  }

  predicate Empty(r: Ring) {
    r.nread == r.nwrite
  }

  /** The bytes that have been written and not yet read. */
  function Window(r: Ring): (w: seq<byte>)
    requires Good(r)
    ensures |w| == Count(r) <= PIPESIZE
  {
    seq(Count(r), k requires 0 <= k < Count(r) => r.data[(r.nread + k) % PIPESIZE])
  }

  lemma FullAndEmpty(r: Ring)
    requires Good(r)
    ensures Full(r) <==> Count(r) == PIPESIZE
    ensures Empty(r) <==> Count(r) == 0
  {
  }

  function Put(r: Ring, b: byte): (r': Ring)
    requires |r.data| == PIPESIZE
    ensures |r'.data| == PIPESIZE
  {
    Ring(r.data[r.nwrite % PIPESIZE := b], r.nread, (r.nwrite + 1) % UINT)
  }

  function Take(r: Ring): (r': Ring)
    ensures r'.data == r.data
  {
    r.(nread := (r.nread + 1) % UINT)
  }

  lemma PutCount(r: Ring, b: byte)
    requires Good(r) && Count(r) < PIPESIZE
    ensures Count(Put(r, b)) == Count(r) + 1
  {
    CountIs(r);
    CountIs(Put(r, b));
    assert (r.nwrite + 1) % UINT == if r.nwrite == UINT - 1 then 0 else r.nwrite + 1;
  }

  lemma WriteIndex(r: Ring)
    requires Good(r)
    ensures (r.nread + Count(r)) % PIPESIZE == r.nwrite % PIPESIZE
  {
    CountIs(r);
    assert (r.nwrite + UINT) % PIPESIZE == r.nwrite % PIPESIZE;
  }

  /** The counters may wrap around anywhere: PIPESIZE divides 2^32. */
  lemma PutWindow(r: Ring, b: byte)
    requires Good(r) && Count(r) < PIPESIZE
    ensures Good(Put(r, b)) && Window(Put(r, b)) == Window(r) + [b]
  {
    var r', n := Put(r, b), Count(r);
    PutCount(r, b);
    WriteIndex(r);
    var w, v := Window(r'), Window(r) + [b];
    forall k | 0 <= k < |w| ensures w[k] == v[k] {
      if k < n {
        Apart(r.nread + k, r.nread + n);
      }
    }
  }

  lemma Apart(a: nat, b: nat)
    requires a < b < a + PIPESIZE
    ensures a % PIPESIZE != b % PIPESIZE
  {
  }

  lemma NextIndex(n: nat, k: nat)
    requires n < UINT && k > 0
    ensures ((n + 1) % UINT + (k - 1)) % PIPESIZE == (n + k) % PIPESIZE
  {
  }

  lemma TakeCount(r: Ring)
    requires Good(r) && Count(r) > 0
    ensures Count(Take(r)) == Count(r) - 1
  {
    CountIs(r);
    CountIs(Take(r));
    assert (r.nread + 1) % UINT == if r.nread == UINT - 1 then 0 else r.nread + 1;
  }

  lemma TakeWindow(r: Ring)
    requires Good(r) && Count(r) > 0
    ensures Good(Take(r)) && Window(r) == [r.data[r.nread % PIPESIZE]] + Window(Take(r))
  {
    var r' := Take(r);
    TakeCount(r);
    var w, u := Window(r), Window(r');
    forall k | 0 < k < |w| ensures w[k] == u[k - 1] {
      NextIndex(r.nread, k);
    }
    assert w == [w[0]] + u;
  }

  // ------------------------------------------------------------------
  // Copying several bytes at once, with the lock held

  function PutAll(r: Ring, bs: seq<byte>): (r': Ring)
    requires |r.data| == PIPESIZE
    ensures |r'.data| == PIPESIZE
  {
    if bs == [] then r else Put(PutAll(r, bs[..|bs| - 1]), bs[|bs| - 1])
  }

  lemma {:induction false} PutAllWindow(r: Ring, bs: seq<byte>)
    requires Good(r) && Count(r) + |bs| <= PIPESIZE
    ensures Good(PutAll(r, bs)) && Window(PutAll(r, bs)) == Window(r) + bs
  {
    if bs != [] {
      PutAllWindow(r, bs[..|bs| - 1]);
      PutWindow(PutAll(r, bs[..|bs| - 1]), bs[|bs| - 1]);
      assert bs == bs[..|bs| - 1] + [bs[|bs| - 1]];
    }
  }

  function TakeAll(r: Ring, m: nat): (r': Ring)
    ensures r'.data == r.data
    decreases m
  {
    if m == 0 then r else TakeAll(Take(r), m - 1)
  }

  lemma {:induction false} TakeAllWindow(r: Ring, m: nat)
    requires Good(r) && m <= Count(r)
    ensures Good(TakeAll(r, m)) && Window(r) == Window(r)[..m] + Window(TakeAll(r, m))
    decreases m
  {
    if m > 0 {
      TakeWindow(r);
      TakeAllWindow(Take(r), m - 1);
    }
  }

  lemma PutOneMore(r: Ring, bs: seq<byte>, b: byte)
    requires |r.data| == PIPESIZE
    ensures PutAll(r, bs + [b]) == Put(PutAll(r, bs), b)
  {
    assert (bs + [b])[..|bs|] == bs;
  }

  lemma {:induction false} TakeOneMore(r: Ring, m: nat)
    ensures TakeAll(r, m + 1) == Take(TakeAll(r, m))
    decreases m
  {
    if m > 0 {
      TakeOneMore(Take(r), m - 1);
    }
  }

  /** How far the bytes from i to n get into the pipe: to the end, or to the last byte that fits. */
  function FillEnd(r: Ring, i: nat, n: nat): (j: nat)
    requires i <= n && Good(r)
    ensures i <= j <= n
  {
    if n - i <= PIPESIZE - Count(r) then n else i + PIPESIZE - Count(r)
  }

  /** The pipe's memory: the loops of `pipewrite` and `piperead` between two sleeps. */
  class Pipe {
    const data: array<byte>
    var nread: nat
    var nwrite: nat

    ghost function State(): (r: Ring)
      reads this, data
    {
      Ring(data[..], nread, nwrite)
    }

    constructor ()
      ensures Good(State()) && Window(State()) == [] && fresh(data)
    {
      data := new byte[PIPESIZE](i => 0 as byte);
      nread, nwrite := 0, 0;
    }

    /** Copy bytes of addr from position i on, until all are in or the pipe is full. */
    method Fill(addr: seq<byte>, i: nat) returns (j: nat)
      requires Good(State()) && i <= |addr|
      modifies this`nwrite, data
      ensures Good(State()) && nread == old(nread) && i <= j <= |addr|
      ensures Window(State()) == old(Window(State())) + addr[i..j]
      ensures j < |addr| ==> |Window(State())| == PIPESIZE
      ensures j == FillEnd(old(State()), i, |addr|) && State() == PutAll(old(State()), addr[i..j])
    {
      ghost var before, r := Window(State()), State();
      j := i;
      FullAndEmpty(State());
      while j < |addr| && nwrite != (nread + PIPESIZE) % UINT
        invariant i <= j <= |addr| && Good(State()) && nread == old(nread)
        invariant Window(State()) == before + addr[i..j]
        invariant Full(State()) <==> |Window(State())| == PIPESIZE
        invariant State() == PutAll(r, addr[i..j])
      {
        PutByte(addr[j]);
        FullAndEmpty(State());
        assert addr[i..j + 1] == addr[i..j] + [addr[j]];
        PutOneMore(r, addr[i..j], addr[j]);
        Regroup(before, addr[i..j], [addr[j]]);
        j := j + 1;
      }
    }

    method PutByte(b: byte)
      requires Good(State()) && |Window(State())| < PIPESIZE
      modifies this`nwrite, data
      ensures Good(State()) && nread == old(nread) && Window(State()) == old(Window(State())) + [b]
      ensures State() == Put(old(State()), b)
    {
      ghost var r := State();
      PutWindow(r, b);
      data[nwrite % PIPESIZE] := b;
      nwrite := (nwrite + 1) % UINT;
      assert State() == Put(r, b);
    }

    /** The copy loop of `piperead`: up to n bytes, in order. */
    method Copy(n: nat) returns (out: seq<byte>)
      requires Good(State())
      modifies this`nread
      ensures Good(State()) && nwrite == old(nwrite) && unchanged(data)
      ensures old(Window(State())) == out + Window(State())
      ensures |out| == if n < |old(Window(State()))| then n else |old(Window(State()))|
      ensures State() == TakeAll(old(State()), |out|)
    {
      ghost var before, r := Window(State()), State();
      out := [];
      var i := 0;
      FullAndEmpty(State());
      while i < n
        invariant 0 <= i == |out| <= n && Good(State()) && nwrite == old(nwrite)
        invariant before == out + Window(State())
        invariant Empty(State()) <==> |Window(State())| == 0
        invariant State() == TakeAll(r, i)
      {
        if nread == nwrite {
          break;
        }
        var b := TakeByte();
        FullAndEmpty(State());
        TakeOneMore(r, i);
        Regroup(out, [b], Window(State()));
        out := out + [b];
        i := i + 1;
      }
    }

    method TakeByte() returns (b: byte)
      requires Good(State()) && |Window(State())| > 0
      modifies this`nread
      ensures Good(State()) && nwrite == old(nwrite) && old(Window(State())) == [b] + Window(State())
      ensures State() == Take(old(State()))
    {
      ghost var r := State();
      TakeWindow(r);
      b := data[nread % PIPESIZE];
      nread := (nread + 1) % UINT;
      assert State() == Take(r);
    }
  }
}
