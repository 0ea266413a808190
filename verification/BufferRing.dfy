/** The circular doubly linked list of the buffer cache, with the list head at position 0. */
module BufferRing {
  import opened Basics

  function After(c: seq<nat>, k: nat): (j: nat)
    requires k < |c|
    ensures j < |c|
  {
    if k + 1 < |c| then k + 1 else 0
  }

  /** next and prev lead round the nodes of c, forwards and backwards. */
  predicate Ring(next: seq<nat>, prev: seq<nat>, c: seq<nat>) {
    && |next| == |prev|
    && c != [] && NoRepeat(c)
    && (forall k :: 0 <= k < |c| ==> c[k] < |next|)
    && (forall k {:trigger next[c[k]]} :: 0 <= k < |c| ==> next[c[k]] == c[After(c, k)])
    && (forall k {:trigger After(c, k)} :: 0 <= k < |c| ==> prev[c[After(c, k)]] == c[k])
  }

  /** c without position k. */
  function Without(c: seq<nat>, k: nat): (d: seq<nat>)
    requires k < |c|
    ensures |d| == |c| - 1 && forall i :: 0 <= i < |d| ==> d[i] == c[if i < k then i else i + 1]
  {
    c[..k] + c[k + 1..]
  }

  /** c with b right behind the head. */
  function InFront(c: seq<nat>, b: nat): seq<nat>
    requires c != []
  {
    [c[0], b] + c[1..]
  }

  lemma InFrontMembers(c: seq<nat>, b: nat)
    requires c != []
    ensures forall x: nat :: x in InFront(c, b) <==> x == b || x in c
  {
    assert c == [c[0]] + c[1..];
  }

  lemma PrevAt(next: seq<nat>, prev: seq<nat>, c: seq<nat>, k: nat)
    requires Ring(next, prev, c) && k < |c|
    ensures prev[c[k]] == c[if k == 0 then |c| - 1 else k - 1]
  {
    var j := if k == 0 then |c| - 1 else k - 1;
    assert After(c, j) == k;
  }

  lemma Unlink(next: seq<nat>, prev: seq<nat>, c: seq<nat>, k: nat)
    requires Ring(next, prev, c) && 0 < k < |c|
    ensures var (n, p) := (next[c[k]], prev[c[k]]);
            n < |next| && p < |next| && Ring(next[p := n], prev[n := p], Without(c, k))
  {
    PrevAt(next, prev, c, k);
    var n, p, d := next[c[k]], prev[c[k]], Without(c, k);
    forall i | 0 <= i < |d|
      ensures d[i] < |next| && next[p := n][d[i]] == d[After(d, i)] && prev[n := p][d[After(d, i)]] == d[i]
    {
      UnlinkAt(next, prev, c, k, i);
    }
  }

  lemma UnlinkAt(next: seq<nat>, prev: seq<nat>, c: seq<nat>, k: nat, i: nat)
    requires Ring(next, prev, c) && 0 < k < |c| && i < |c| - 1
    ensures var (n, p, d) := (c[After(c, k)], c[k - 1], Without(c, k));
            && n < |next| && p < |next| && d[i] < |next| && d[After(d, i)] < |next|
            && next[p := n][d[i]] == d[After(d, i)] && prev[n := p][d[After(d, i)]] == d[i]
  {
    var i0 := if i < k then i else i + 1;
    assert next[c[i0]] == c[After(c, i0)] && prev[c[After(c, i0)]] == c[i0];
    var d := Without(c, k);
    assert d[i] == c[i0] && d[After(d, i)] == c[if i == k - 1 then After(c, k) else After(c, i0)];
  }

  lemma Link(next: seq<nat>, prev: seq<nat>, c: seq<nat>, b: nat)
    requires Ring(next, prev, c) && b < |next| && b !in c
    ensures var (h, n) := (c[0], next[c[0]]);
            && n < |next|
            && Ring(next[b := n][h := b], prev[b := h][n := b], InFront(c, b))
  {
    var h, n, d := c[0], next[c[0]], InFront(c, b);
    var next', prev' := next[b := n][h := b], prev[b := h][n := b];
    assert n == c[After(c, 0)];
    assert forall i :: 0 <= i < |d| ==> d[i] == if i == 0 then c[0] else if i == 1 then b else c[i - 1];
    forall i | 0 <= i < |d| ensures next'[d[i]] == d[After(d, i)] && prev'[d[After(d, i)]] == d[i] {
      if i > 1 {
        assert next[c[i - 1]] == c[After(c, i - 1)] && prev[c[After(c, i - 1)]] == c[i - 1];
      }
    }
  }

  /** The six assignments by which `brelse` moves node c[k] to the front. */
  function MovedPrev(next: seq<nat>, prev: seq<nat>, h: nat, b: nat): (p: seq<nat>)
    requires |next| == |prev| && h < |next| && b < |next| && next[b] < |next| && prev[b] < |next| && next[h] < |next|
  {
    var prev1 := prev[next[b] := prev[b]];
    var next1 := next[prev[b] := next[b]];
    prev1[b := h][next1[h] := b]
  }

  function MovedNext(next: seq<nat>, prev: seq<nat>, h: nat, b: nat): (n: seq<nat>)
    requires |next| == |prev| && h < |next| && b < |next| && next[b] < |next| && prev[b] < |next|
  {
    var next1 := next[prev[b] := next[b]];
    next1[b := next1[h]][h := b]
  }

  lemma MoveToFront(next: seq<nat>, prev: seq<nat>, c: seq<nat>, k: nat)
    requires Ring(next, prev, c) && 0 < k < |c|
    ensures var (h, b) := (c[0], c[k]);
            && next[b] < |next| && prev[b] < |next| && next[h] < |next| && next[b] != b && prev[b] != b
            && next[prev[b] := next[b]][h] < |next| && next[prev[b] := next[b]][h] != b
            && Ring(MovedNext(next, prev, h, b), MovedPrev(next, prev, h, b), InFront(Without(c, k), b))
            && (forall x <- c :: x in InFront(Without(c, k), b))
  {
    var h, b := c[0], c[k];
    PrevAt(next, prev, c, k);
    assert next[c[k]] == c[After(c, k)] && next[c[0]] == c[After(c, 0)];
    Unlink(next, prev, c, k);
    var d := Without(c, k);
    assert b !in d;
    Link(next[prev[b] := next[b]], prev[next[b] := prev[b]], d, b);
    assert forall i :: 0 <= i < |c| ==> i == k || c[i] == d[if i < k then i else i - 1];
    InFrontMembers(d, b);
  }
}
