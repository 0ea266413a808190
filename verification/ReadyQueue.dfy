/**
 A scheduling queue: an array of NPROC entries of which the first pi+1 are in use.
 Entries are positions in the process table.
 */
module ReadyQueue {

  const NPROC: nat := 64

  /** Value of an entry that holds no process. */
  const NULL: nat := 64

  /** Every entry is a position in a table of n processes. */
  predicate Entries(q: seq<nat>, n: nat) {
    forall i :: 0 <= i < |q| ==> q[i] < n
  }

  /** First entry with the given pid, or the length of q. */
  function Find(pids: seq<nat>, q: seq<nat>, pid: nat): (k: nat)
    requires Entries(q, |pids|)
    ensures k <= |q|
    ensures k < |q| ==> pids[q[k]] == pid
    ensures forall i :: 0 <= i < k ==> pids[q[i]] != pid
  {
    if q == [] then 0
    else if pids[q[0]] == pid then 0
    else 1 + Find(pids, q[1..], pid)
  }

  /**
   The queue after `cleanupCorresQueue`: without that entry, the others in order;
   without the last one if there is no such entry.
   */
  function Removed(pids: seq<nat>, q: seq<nat>, pid: nat): (r: seq<nat>)
    requires q != [] && Entries(q, |pids|)
    ensures |r| == |q| - 1
  {
    var k := Find(pids, q, pid);
    if k < |q| then q[..k] + q[k + 1..] else q[..|q| - 1]
  }

  class Queue {
    const proc: array<nat>
    var pi: int

    ghost predicate Valid()
      reads this
    {
      proc.Length == NPROC && -1 <= pi < NPROC
    }

    ghost function View(): (q: seq<nat>)
      reads this, proc
      requires Valid()
    {
      proc[..pi + 1]
    }

    constructor ()
      ensures Valid() && View() == [] && fresh(proc)
    {
      proc := new nat[NPROC](i => NULL);
      pi := -1;
    }

    /** `q.pi++; q.proc[q.pi] = p` */
    method Enqueue(p: nat)
      requires Valid() && |View()| < NPROC
      modifies this, proc
      ensures Valid() && View() == old(View()) + [p]
    {
      pi := pi + 1;
      proc[pi] := p;
    }

    /** The first entry with that pid; one past the last entry if there is none. */
    method Locate(pids: seq<nat>, pid: nat) returns (qi: nat)
      requires Valid() && Entries(View(), |pids|)
      ensures qi == Find(pids, View(), pid)
    {
      ghost var q := View();
      qi := 0;
      while qi <= pi
        invariant 0 <= qi <= pi + 1
        invariant forall i :: 0 <= i < qi ==> pids[q[i]] != pid
      {
        if pids[proc[qi]] == pid {
          break;
        }
        qi := qi + 1;
      }
      FindIs(pids, q, pid, qi);
    }

    /**
     `shiftOutQueue`: the entry with that pid moves past the end, one swap at a time, and
     is cleared.  The result is false when an access would be outside the array.
     */
    method ShiftOut(pids: seq<nat>, pid: nat) returns (inside: bool)
      requires Valid() && Entries(View(), |pids|)
      modifies proc
      ensures inside <==> pi + 1 < NPROC
      ensures inside && View() != [] ==> View()[..pi] == Removed(pids, old(View()), pid)
    {
      ghost var q := View();
      var qi := Locate(pids, pid);
      ghost var k := qi;
      while qi <= pi
        invariant k <= qi <= pi + 1 && Shifted(q, proc[..], k, qi)
      {
        if qi + 1 >= proc.Length {
          return false;
        }
        SwapShifts(q, proc[..], k, qi);
        proc[qi], proc[qi + 1] := proc[qi + 1], proc[qi];
        qi := qi + 1;
      }
      if qi >= proc.Length {
        return false;
      }
      proc[qi] := NULL;
      if pi >= 0 {
        ShiftedIs(pids, q, pid, k, proc[..pi]);
      }
      return true;
    }

    /** The part of `cleanupCorresQueue` for one queue; false is the panic on an empty queue. */
    method Cleanup(pids: seq<nat>, pid: nat) returns (ok: bool)
      requires Valid() && |View()| < NPROC && Entries(View(), |pids|)
      modifies this, proc
      ensures Valid() && ok == (old(View()) != [])
      ensures View() == if ok then Removed(pids, old(View()), pid) else old(View())
    {
      if pi <= -1 {
        return false;
      }
      var inside := ShiftOut(pids, pid);
      pi := pi - 1;
      return true;
    }
  }

  lemma FindIs(pids: seq<nat>, q: seq<nat>, pid: nat, k: nat)
    requires Entries(q, |pids|) && k <= |q| && (k < |q| ==> pids[q[k]] == pid)
    requires forall i :: 0 <= i < k ==> pids[q[i]] != pid
    ensures Find(pids, q, pid) == k
  {
  }

  /** The array a, in which the entry k of q has moved up to position qi. */
  predicate Shifted(q: seq<nat>, a: seq<nat>, k: nat, qi: nat) {
    && k <= qi <= |q| <= |a|
    && (forall i :: 0 <= i < k ==> a[i] == q[i])
    && (forall i :: k <= i < qi && i + 1 < |q| ==> a[i] == q[i + 1])
    && (forall i :: qi < i < |q| ==> a[i] == q[i])
  }

  lemma SwapShifts(q: seq<nat>, a: seq<nat>, k: nat, qi: nat)
    requires Shifted(q, a, k, qi) && qi < |q| && qi + 1 < |a|
    ensures Shifted(q, a[qi := a[qi + 1]][qi + 1 := a[qi]], k, qi + 1)
  {
  }

  /** What remains when the first entry with the pid, at k, is cut out. */
  lemma ShiftedIs(pids: seq<nat>, q: seq<nat>, pid: nat, k: nat, r: seq<nat>)
    requires q != [] && Entries(q, |pids|) && |r| == |q| - 1 && k == Find(pids, q, pid)
    requires forall i :: 0 <= i < |r| && i < k ==> r[i] == q[i]
    requires forall i :: k <= i < |r| ==> r[i] == q[i + 1]
    ensures r == Removed(pids, q, pid)
  {
    assert k < |q| ==> r == q[..k] + q[k + 1..];
    assert k == |q| ==> r == q[..|q| - 1];
  }
}
