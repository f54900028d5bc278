// Sums of functions.
module Totals {
  // Over initial ranges, and exchanging the order of a double sum.

  type Weight = (nat, nat) -> int

  function Total(f: nat -> int, n: nat): int {
    if n == 0 then 0 else Total(f, n - 1) + f(n - 1)
  }

  lemma {:induction false} TotalEqual(f: nat -> int, g: nat -> int, n: nat)
    requires forall i: nat | i < n :: f(i) == g(i)
    ensures Total(f, n) == Total(g, n)
  {
    if n > 0 { TotalEqual(f, g, n - 1); }
  }

  lemma {:induction false} TotalAdd(f: nat -> int, g: nat -> int, h: nat -> int, n: nat)
    requires forall i: nat | i < n :: h(i) == f(i) + g(i)
    ensures Total(h, n) == Total(f, n) + Total(g, n)
  {
    if n > 0 { TotalAdd(f, g, h, n - 1); }
  }

  lemma {:induction false} TotalAtMost(f: nat -> int, g: nat -> int, n: nat)
    requires forall i: nat | i < n :: f(i) <= g(i)
    ensures Total(f, n) <= Total(g, n)
  {
    if n > 0 { TotalAtMost(f, g, n - 1); }
  }

  lemma {:induction false} TotalZero(f: nat -> int, n: nat)
    requires forall i: nat | i < n :: f(i) == 0
    ensures Total(f, n) == 0
  {
    if n > 0 { TotalZero(f, n - 1); }
  }

  lemma {:induction false} TotalPoint(f: nat -> int, t: nat, n: nat)
    requires t < n && forall i: nat | i < n && i != t :: f(i) == 0
    ensures Total(f, n) == f(t)
  {
    if n == t + 1 { TotalZero(f, t); } else { TotalPoint(f, t, n - 1); }
  }

  function IndexBelow(i: nat): nat -> int { (j: nat) => if j < i then 1 else 0 }

  lemma {:induction false} CountIndices(i: nat, n: nat)
    ensures Total(IndexBelow(i), n) == if n <= i then n else i
  {
    if n > 0 { CountIndices(i, n - 1); }
  }

  function RowOf(w: Weight, i: nat): nat -> int { (j: nat) => w(i, j) }

  function ColOf(w: Weight, j: nat): nat -> int { (i: nat) => w(i, j) }

  function RowTotals(w: Weight, m: nat): nat -> int { (i: nat) => Total(RowOf(w, i), m) }

  function ColTotals(w: Weight, n: nat): nat -> int { (j: nat) => Total(ColOf(w, j), n) }

  /** A double sum may be taken rows first or columns first. */
  lemma {:induction false} Exchange(w: Weight, n: nat, m: nat)
    ensures Total(RowTotals(w, m), n) == Total(ColTotals(w, n), m)
  {
    if n == 0 {
      TotalZero(ColTotals(w, 0), m);
    } else {
      Exchange(w, n - 1, m);
      forall j: nat | j < m
        ensures ColTotals(w, n)(j) == ColTotals(w, n - 1)(j) + RowOf(w, n - 1)(j)
      {
      }
      TotalAdd(ColTotals(w, n - 1), RowOf(w, n - 1), ColTotals(w, n), m);
    }
  }

  predicate Inverse(p: seq<nat>, q: seq<nat>) {
    |p| == |q| && forall i | 0 <= i < |p| :: p[i] < |p| && q[i] < |p| && q[p[i]] == i && p[q[i]] == i
  }

  function Through(f: nat -> int, q: seq<nat>): nat -> int {
    (v: nat) => if v < |q| then f(q[v]) else 0
  }

  // f(i) placed in the column p[i].
  function Placed(f: nat -> int, p: seq<nat>): Weight {
    (i: nat, v: nat) => if i < |p| && p[i] == v then f(i) else 0
  }

  /** A sum does not depend on the order in which its terms are visited. */
  lemma Reindex(f: nat -> int, p: seq<nat>, q: seq<nat>)
    requires Inverse(p, q)
    ensures Total(f, |p|) == Total(Through(f, q), |p|)
  {
    var w, n := Placed(f, p), |p|;
    Exchange(w, n, n);
    forall i: nat | i < n
      ensures f(i) == RowTotals(w, n)(i)
    {
      TotalPoint(RowOf(w, i), p[i], n);
    }
    forall v: nat | v < n
      ensures Through(f, q)(v) == ColTotals(w, n)(v)
    {
      TotalPoint(ColOf(w, v), q[v], n);
    }
    TotalEqual(f, RowTotals(w, n), n);
    TotalEqual(Through(f, q), ColTotals(w, n), n);
  }

  /** At most n distinct numbers lie below n. */
  lemma {:induction false} DistinctBelow(s: seq<nat>, n: nat)
    requires (forall k | 0 <= k < |s| :: s[k] < n) && forall k, k' | 0 <= k < k' < |s| :: s[k] != s[k']
    ensures |s| <= n
    decreases n
  {
    if s != [] {
      assert s[0] < n;
      if k: nat :| k < |s| && s[k] == n - 1 {
        DistinctBelow(s[..k] + s[k + 1..], n - 1);
      } else {
        DistinctBelow(s, n - 1);
      }
    }
  }
}
