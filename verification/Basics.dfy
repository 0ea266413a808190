/** Notions that several parts share. */
module Basics {

  datatype Option<T> = None | Some(value: T)

  type byte = x: int | 0 <= x < 256

  predicate NoRepeat(s: seq<nat>) {
    forall i, j :: 0 <= i < j < |s| ==> s[i] != s[j]
  }

  lemma Regroup<T>(a: seq<T>, b: seq<T>, c: seq<T>)
    ensures a + b + c == a + (b + c)
  {
  }

  lemma SubsetSize(a: set<nat>, b: set<nat>)
    requires a <= b
    ensures |a| <= |b|
  {
    assert b == a + (b - a);
  }

  /** The numbers below n. */
  function Below(n: nat): (r: set<nat>)
    ensures |r| == n && forall x: nat :: x in r <==> x < n
  {
    if n == 0 then {} else Below(n - 1) + {n - 1}
  }

  function Members(q: seq<nat>): (r: set<nat>)
    ensures forall x: nat :: x in r <==> x in q
  {
    if q == [] then {} else Members(q[..|q| - 1]) + {q[|q| - 1]}
  }

  lemma {:induction false} MembersCount(q: seq<nat>)
    requires NoRepeat(q)
    ensures |Members(q)| == |q|
  {
    if q != [] {
      MembersCount(q[..|q| - 1]);
    }
  }

  // ------------------------------------------------------------------
  // Division

  lemma MulGrows(n: nat, k: int)
    requires k >= 1
    ensures k * n >= n
  {
  }

  lemma MulMinus(n: nat, a: int, b: int)
    ensures (a - b) * n == a * n - b * n
  {
  }

  lemma DivisionUnique(n: nat, a: int, r: int, b: int, r': int)
    requires n > 0 && 0 <= r < n && 0 <= r' < n && a * n + r == b * n + r'
    ensures a == b && r == r'
  {
    MulMinus(n, a, b);
    MulMinus(n, b, a);
    if a > b {
      MulGrows(n, a - b);
    } else if b > a {
      MulGrows(n, b - a);
    }
  }

  lemma ModIs(x: nat, n: nat, q: nat, r: nat)
    requires n > 0 && r < n && x == q * n + r
    ensures x / n == q && x % n == r
  {
    assert x == x / n * n + x % n;
    DivisionUnique(n, q, r, x / n, x % n);
  }
}
