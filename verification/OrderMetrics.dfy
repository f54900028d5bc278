// Order metrics.
module OrderMetrics {
  // Two distances between service orders: summed position changes and Kendall's inversions.

  import opened Wrappers
  import opened Totals

  // ---------------------------------------------------------------- permutations

  function Abs(x: int): nat { if x < 0 then -x else x }

  function Displacement(p: seq<nat>): nat -> int {
    (i: nat) => if i < |p| then Abs(i - p[i]) else 0
  }

  function Footrule(p: seq<nat>): int { Total(Displacement(p), |p|) }

  function Inverted(p: seq<nat>): Weight {
    (i: nat, j: nat) => if i < j < |p| && p[i] > p[j] then 1 else 0
  }

  function InversionCount(p: seq<nat>): int { Total(RowTotals(Inverted(p), |p|), |p|) }

  function ValueBelow(p: seq<nat>, v: nat): nat -> int { (j: nat) => if j < |p| && p[j] < v then 1 else 0 }

  function ValueIs(p: seq<nat>, v: nat): nat -> int { (j: nat) => if j < |p| && p[j] == v then 1 else 0 }

  // A permutation takes exactly v values below v.
  lemma {:induction false} CountBelow(p: seq<nat>, q: seq<nat>, v: nat)
    requires Inverse(p, q) && v <= |p|
    ensures Total(ValueBelow(p, v), |p|) == v
  {
    if v == 0 {
      TotalZero(ValueBelow(p, 0), |p|);
    } else {
      CountBelow(p, q, v - 1);
      TotalPoint(ValueIs(p, v - 1), q[v - 1], |p|);
      TotalAdd(ValueBelow(p, v - 1), ValueIs(p, v - 1), ValueBelow(p, v), |p|);
    }
  }

  function PlusFunctions(f: nat -> int, g: nat -> int): nat -> int { (i: nat) => f(i) + g(i) }

  // Inversions to the right of i minus those to its left make up its displacement.
  lemma DisplacementIsInversions(p: seq<nat>, q: seq<nat>, i: nat)
    requires Inverse(p, q) && i < |p|
    ensures Total(RowOf(Inverted(p), i), |p|) - Total(ColOf(Inverted(p), i), |p|) == p[i] - i
  {
    var right, left := RowOf(Inverted(p), i), ColOf(Inverted(p), i);
    var both := PlusFunctions(ValueBelow(p, p[i]), left);
    forall j: nat | j < |p|
      ensures both(j) == right(j) + IndexBelow(i)(j)
    {
      assert p[i] == p[j] ==> q[p[i]] == q[p[j]];
    }
    TotalAdd(ValueBelow(p, p[i]), left, both, |p|);
    TotalAdd(right, IndexBelow(i), both, |p|);
    CountBelow(p, q, p[i]);
    CountIndices(i, |p|);
  }

  lemma FootruleAtMostTwice(p: seq<nat>, q: seq<nat>)
    requires Inverse(p, q)
    ensures Footrule(p) <= 2 * InversionCount(p)
  {
    var n, w := |p|, Inverted(p);
    var both := PlusFunctions(RowTotals(w, n), ColTotals(w, n));
    forall i: nat | i < n
      ensures Displacement(p)(i) <= both(i)
    {
      DisplacementIsInversions(p, q, i);
      CountsNonNegative(p, i, n);
    }
    TotalAtMost(Displacement(p), both, n);
    TotalAdd(RowTotals(w, n), ColTotals(w, n), both, n);
    Exchange(w, n, n);
  }

  lemma {:induction false} CountsNonNegative(p: seq<nat>, i: nat, n: nat)
    ensures Total(RowOf(Inverted(p), i), n) >= 0 && Total(ColOf(Inverted(p), i), n) >= 0
  {
    if n > 0 { CountsNonNegative(p, i, n - 1); }
  }

  // An inversion (i, j) is early when place j does not lie beyond the value at i.
  function Early(p: seq<nat>): Weight {
    (i: nat, j: nat) => if i < j < |p| && p[i] > p[j] && j <= p[i] then 1 else 0
  }

  function Late(p: seq<nat>): Weight {
    (i: nat, j: nat) => if i < j < |p| && p[i] > p[j] && j > p[i] then 1 else 0
  }

  lemma {:induction false} EarlyAtMost(p: seq<nat>, i: nat, n: nat)
    requires i < |p|
    ensures Total(RowOf(Early(p), i), n) <= if p[i] <= i || n <= i then 0 else if n <= p[i] then n - i - 1 else p[i] - i
  {
    if n > 0 { EarlyAtMost(p, i, n - 1); }
  }

  lemma LateAtMost(p: seq<nat>, q: seq<nat>, j: nat)
    requires Inverse(p, q) && j < |p|
    ensures Total(ColOf(Late(p), j), |p|) <= if p[j] <= j then j - p[j] else 0
  {
    var late := ColOf(Late(p), j);
    if p[j] <= j {
      var both := PlusFunctions(late, ValueBelow(p, p[j]));
      TotalAtMost(both, ValueBelow(p, j), |p|);
      TotalAdd(late, ValueBelow(p, p[j]), both, |p|);
      CountBelow(p, q, j);
      CountBelow(p, q, p[j]);
    } else {
      TotalZero(late, |p|);
    }
  }

  lemma InversionsAtMostFootrule(p: seq<nat>, q: seq<nat>)
    requires Inverse(p, q)
    ensures InversionCount(p) <= Footrule(p)
  {
    var n := |p|;
    var early, late := RowTotals(Early(p), n), ColTotals(Late(p), n);
    var rows := RowTotals(Late(p), n);
    forall i: nat | i < n
      ensures RowTotals(Inverted(p), n)(i) == early(i) + rows(i)
    {
      TotalAdd(RowOf(Early(p), i), RowOf(Late(p), i), RowOf(Inverted(p), i), n);
    }
    TotalAdd(early, rows, RowTotals(Inverted(p), n), n);
    Exchange(Late(p), n, n);
    var both := PlusFunctions(early, late);
    forall i: nat | i < n
      ensures both(i) <= Displacement(p)(i)
    {
      EarlyAtMost(p, i, n);
      LateAtMost(p, q, i);
    }
    TotalAdd(early, late, both, n);
    TotalAtMost(both, Displacement(p), n);
  }

  // ------------------------------------------------------------------- symmetry

  lemma FootruleSymmetric(p: seq<nat>, q: seq<nat>)
    requires Inverse(p, q)
    ensures Footrule(p) == Footrule(q)
  {
    Reindex(Displacement(p), p, q);
    TotalEqual(Through(Displacement(p), q), Displacement(q), |p|);
  }

  lemma InversionsSymmetric(p: seq<nat>, q: seq<nat>)
    requires Inverse(p, q)
    ensures InversionCount(p) == InversionCount(q)
  {
    var n, w, w' := |p|, Inverted(p), Inverted(q);
    Reindex(RowTotals(w, n), p, q);
    forall v: nat | v < n
      ensures Through(RowTotals(w, n), q)(v) == ColTotals(w', n)(v)
    {
      Reindex(RowOf(w, q[v]), p, q);
      forall u: nat | u < n
        ensures Through(RowOf(w, q[v]), q)(u) == ColOf(w', v)(u)
      {
        assert p[q[v]] == v && p[q[u]] == u;
      }
      TotalEqual(Through(RowOf(w, q[v]), q), ColOf(w', v), n);
    }
    TotalEqual(Through(RowTotals(w, n), q), ColTotals(w', n), n);
    Exchange(w', n, n);
  }

  // --------------------------------------------------------------------- orders

  predicate NoDuplicates<T(==)>(s: seq<T>) {
    forall i, j | 0 <= i < j < |s| :: s[i] != s[j]
  }

  // Position of the last occurrence, as a dictionary built from left to right keeps it.
  function LastIndex<T(==)>(order: seq<T>, x: T): (k: nat)
    requires x in order
    ensures k < |order| && order[k] == x && forall j | k < j < |order| :: order[j] != x
  {
    if order[|order| - 1] == x then |order| - 1 else LastIndex(order[..|order| - 1], x)
  }

  method IndexMap<T(==)>(order: seq<T>) returns (index: map<T, nat>)
    ensures forall x :: x in index <==> x in order
    ensures forall x | x in order :: index[x] == LastIndex(order, x)
  {
    index := map[];
    for k := 0 to |order|
      invariant forall x :: x in index <==> x in order[..k]
      invariant forall x | x in index :: index[x] < k && order[index[x]] == x && forall j | index[x] < j < k ::
                order[j] != x
    {
      index := index[order[k] := k];
    }
  }

  function Shift<T(==)>(a: seq<T>, b: seq<T>): nat -> int {
    (i: nat) => if i < |a| && a[i] in b then Abs(i - LastIndex(b, a[i])) else 0
  }

  /** Sum of the position changes of the items of one order that occur in the other. */
  function PositionL1<T(==)>(a: seq<T>, b: seq<T>): int { Total(Shift(a, b), |a|) }

  method ComputePositionL1<T(==)>(a: seq<T>, b: seq<T>) returns (l1: int)
    ensures l1 == PositionL1(a, b)
  {
    var index := IndexMap(b);
    l1 := 0;
    for i := 0 to |a|
      invariant l1 == Total(Shift(a, b), i)
    {
      if a[i] in index {
        l1 := l1 + Abs(i - index[a[i]]);
      }
    }
  }

  // The items of a that occur in b, in the order of a.
  function Common<T(==)>(a: seq<T>, b: seq<T>): (common: seq<T>)
    ensures forall x | x in common :: x in b
  {
    if a == [] then [] else Common(a[..|a| - 1], b) + (if a[|a| - 1] in b then [a[|a| - 1]] else [])
  }

  function Positions<T(==)>(a: seq<T>, b: seq<T>): (p: seq<nat>)
    requires forall x | x in a :: x in b
    ensures |p| == |a| && forall i | 0 <= i < |a| :: p[i] < |b| && b[p[i]] == a[i]
  {
    seq(|a|, i requires 0 <= i < |a| => LastIndex(b, a[i]))
  }

  function Inversions<T(==)>(a: seq<T>, b: seq<T>): int {
    InversionCount(Positions(Common(a, b), b))
  }

  /** Kendall's tau over the common items, absent when there are fewer than two. */
  function KendallTau<T(==)>(a: seq<T>, b: seq<T>): Option<real> {
    Tau(Inversions(a, b), |Common(a, b)|)
  }

  function Tau(inversions: int, n: nat): Option<real> {
    if n < 2 then None else (PairsPositive(n); Some(1.0 - 2.0 * inversions as real / (n * (n - 1) / 2) as real))
  }

  lemma PairsPositive(n: nat)
    requires n >= 2
    ensures n * (n - 1) / 2 >= 1
  {
  }

  lemma PairsStep(n: nat, i: nat, total: nat)
    requires i < n && 2 * total == i * (2 * n - i - 1)
    ensures 2 * (total + (n - i - 1)) == (i + 1) * (2 * n - (i + 1) - 1)
  {
  }

  lemma {:induction false} NothingBefore(p: seq<nat>, i: nat, n: nat)
    requires n <= i + 1
    ensures Total(RowOf(Inverted(p), i), n) == 0
  {
    if n > 0 { NothingBefore(p, i, n - 1); }
  }

  method CountInversions(p: seq<nat>) returns (inversions: int, total: nat)
    ensures inversions == InversionCount(p) && 2 * total == |p| * (|p| - 1)
  {
    inversions, total := 0, 0;
    var n := |p|;
    for i := 0 to n
      invariant inversions == Total(RowTotals(Inverted(p), n), i)
      invariant 2 * total == i * (2 * n - i - 1)
    {
      ghost var before, pairs := inversions, total;
      NothingBefore(p, i, i + 1);
      for j := i + 1 to n
        invariant inversions == before + Total(RowOf(Inverted(p), i), j)
        invariant total == pairs + (j - i - 1)
      {
        total := total + 1;
        if p[i] > p[j] {
          inversions := inversions + 1;
        }
      }
      PairsStep(n, i, pairs);
    }
  }

  method ComputeKendallTau<T(==)>(a: seq<T>, b: seq<T>) returns (tau: Option<real>)
    ensures tau == KendallTau(a, b)
  {
    var common := Common(a, b);
    if |common| < 2 {
      return None;
    }
    var index := IndexMap(b);
    var places: seq<nat> := seq(|common|, i requires 0 <= i < |common| => index[common[i]]);
    assert places == Positions(common, b);
    var inversions, total := CountInversions(places);
    PairsPositive(|common|);
    assert total == |common| * (|common| - 1) / 2;
    tau := Some(1.0 - 2.0 * inversions as real / total as real);
  }

  // ------------------------------------------------------- the two metrics compared

  // Two arrangements of the same distinct items.
  ghost predicate Rearranged<T(!new)>(a: seq<T>, b: seq<T>) {
    NoDuplicates(a) && NoDuplicates(b) && forall x :: x in a <==> x in b
  }

  lemma {:induction false} AllCommon<T>(a: seq<T>, b: seq<T>)
    requires forall x | x in a :: x in b
    ensures Common(a, b) == a
  {
    if a != [] {
      AllCommon(a[..|a| - 1], b);
      assert a == a[..|a| - 1] + [a[|a| - 1]];
    }
  }

  lemma DistinctInRange<T>(a: seq<T>, b: seq<T>)
    requires NoDuplicates(a) && forall x | x in a :: x in b
    ensures |a| <= |b|
  {
    var p := Positions(a, b);
    forall i, j | 0 <= i < j < |p|
      ensures p[i] != p[j]
    {
      assert a[i] == b[p[i]] && a[j] == b[p[j]];
    }
    DistinctBelow(p, |b|);
  }

  lemma PositionsInverse<T(!new)>(a: seq<T>, b: seq<T>)
    requires Rearranged(a, b)
    ensures Common(a, b) == a && Common(b, a) == b
    ensures Inverse(Positions(a, b), Positions(b, a))
  {
    AllCommon(a, b);
    AllCommon(b, a);
    DistinctInRange(a, b);
    DistinctInRange(b, a);
    var p, q := Positions(a, b), Positions(b, a);
    forall i: nat | i < |a|
      ensures p[i] < |p| && q[i] < |p| && q[p[i]] == i && p[q[i]] == i
    {
      assert b[p[i]] == a[i] && a[q[p[i]]] == b[p[i]];
      assert a[q[i]] == b[i] && b[p[q[i]]] == a[q[i]];
    }
  }

  lemma ShiftIsDisplacement<T>(a: seq<T>, b: seq<T>, p: seq<nat>)
    requires (forall x | x in a :: x in b) && p == Positions(a, b)
    ensures PositionL1(a, b) == Footrule(p)
  {
    var shift, displacement := Shift(a, b), Displacement(p);
    forall i: nat | i < |a|
      ensures shift(i) == displacement(i)
    {
      assert a[i] in b && p[i] == LastIndex(b, a[i]);
    }
    TotalEqual(shift, displacement, |a|);
  }

  lemma L1IsFootrule<T(!new)>(a: seq<T>, b: seq<T>, p: seq<nat>)
    requires Rearranged(a, b) && p == Positions(a, b)
    ensures PositionL1(a, b) == Footrule(p)
    ensures Inversions(a, b) == InversionCount(p)
  {
    AllCommon(a, b);
    ShiftIsDisplacement(a, b, p);
  }

  /** Inversions never exceed the position distance, which is at most twice the inversions. */
  lemma DiaconisGraham<T(!new)>(a: seq<T>, b: seq<T>)
    requires Rearranged(a, b)
    ensures Inversions(a, b) <= PositionL1(a, b) <= 2 * Inversions(a, b)
  {
    PositionsInverse(a, b);
    L1IsFootrule(a, b, Positions(a, b));
    InversionsAtMostFootrule(Positions(a, b), Positions(b, a));
    FootruleAtMostTwice(Positions(a, b), Positions(b, a));
  }

  /** Neither metric depends on which order is the reference. */
  lemma MetricsSymmetric<T(!new)>(a: seq<T>, b: seq<T>)
    requires Rearranged(a, b)
    ensures PositionL1(a, b) == PositionL1(b, a)
    ensures Inversions(a, b) == Inversions(b, a)
    ensures KendallTau(a, b) == KendallTau(b, a)
  {
    PositionsInverse(a, b);
    var p, q := Positions(a, b), Positions(b, a);
    L1IsFootrule(a, b, p);
    L1IsFootrule(b, a, q);
    FootruleSymmetric(p, q);
    InversionsSymmetric(p, q);
  }

  lemma {:induction false} TotalAtMostPoint(f: nat -> int, n: nat, i: nat)
    requires i < n && forall k: nat | k < n :: f(k) >= 0
    ensures f(i) <= Total(f, n)
  {
    if i + 1 < n { TotalAtMostPoint(f, n - 1, i); } else { TotalAtMost(_ => 0, f, n - 1); TotalZero(_ => 0, n - 1); }
  }

  lemma TauOne(inversions: int, n: nat)
    requires n >= 2
    ensures Tau(inversions, n) == Some(1.0) <==> inversions == 0
  {
    PairsPositive(n);
    ShareIsZero(inversions, n * (n - 1) / 2);
  }

  lemma ShareIsZero(inversions: int, total: nat)
    requires total > 0
    ensures 2.0 * inversions as real / total as real == 0.0 <==> inversions == 0
  {
  }

  lemma {:induction false} StayingPut(p: seq<nat>)
    ensures Footrule(p) == 0 <==> forall i | 0 <= i < |p| :: p[i] == i
  {
    if Footrule(p) == 0 {
      forall i: nat | i < |p|
        ensures p[i] == i
      {
        TotalAtMostPoint(Displacement(p), |p|, i);
      }
    }
    if forall i | 0 <= i < |p| :: p[i] == i {
      TotalZero(Displacement(p), |p|);
    }
  }

  /** The position distance is 0 exactly when tau is 1, which is exactly when the orders agree. */
  lemma AgreementIsDetected<T(!new)>(a: seq<T>, b: seq<T>)
    requires Rearranged(a, b) && |a| >= 2
    ensures PositionL1(a, b) == 0 <==> KendallTau(a, b) == Some(1.0)
    ensures PositionL1(a, b) == 0 <==> a == b
  {
    hide PositionL1, Inversions, Tau, Rearranged;
    CommonIsAll(a, b);
    DiaconisGraham(a, b);
    TauOne(Inversions(a, b), |a|);
    ZeroDistanceMeansEqual(a, b);
  }

  lemma CommonIsAll<T(!new)>(a: seq<T>, b: seq<T>)
    requires Rearranged(a, b)
    ensures Common(a, b) == a
  {
    AllCommon(a, b);
  }

  lemma ZeroDistanceMeansEqual<T(!new)>(a: seq<T>, b: seq<T>)
    requires Rearranged(a, b)
    ensures PositionL1(a, b) == 0 <==> a == b
  {
    PositionsInverse(a, b);
    hide PositionL1, Footrule, Inverse;
    L1IsFootrule(a, b, Positions(a, b));
    StayingPut(Positions(a, b));
    SamePlaces(a, b, Positions(a, b));
  }

  lemma SamePlaces<T(!new)>(a: seq<T>, b: seq<T>, p: seq<nat>)
    requires NoDuplicates(b) && |a| == |b| == |p| && forall i | 0 <= i < |a| :: p[i] < |b| && b[p[i]] == a[i]
    ensures a == b <==> forall i | 0 <= i < |p| :: p[i] == i
  {
    if a == b {
      forall i | 0 <= i < |p|
        ensures p[i] == i
      {
        assert b[p[i]] == b[i];
      }
    }
    if forall i | 0 <= i < |p| :: p[i] == i {
      forall i | 0 <= i < |a|
        ensures a[i] == b[i]
      {
        assert p[i] == i;
      }
    }
  }

  // ------------------------------------------------------- orders of different items

  // The places below n of a whose items occur in b, in order.
  function PlacesUpTo<T(==)>(a: seq<T>, b: seq<T>, n: nat): (places: seq<nat>)
    requires n <= |a|
    ensures forall k | 0 <= k < |places| :: places[k] < n
  {
    if n == 0 then [] else PlacesUpTo(a, b, n - 1) + (if a[n - 1] in b then [n - 1] else [])
  }

  function Places<T(==)>(a: seq<T>, b: seq<T>): (places: seq<nat>)
    ensures forall k | 0 <= k < |places| :: places[k] < |a|
  {
    PlacesUpTo(a, b, |a|)
  }

  lemma {:induction false} PlacesRise<T>(a: seq<T>, b: seq<T>, n: nat)
    requires n <= |a|
    ensures Increasing(PlacesUpTo(a, b, n))
  {
    if n > 0 { PlacesRise(a, b, n - 1); }
  }

  lemma {:induction false} PlacesAreUpTo<T>(a: seq<T>, b: seq<T>, n: nat, i: nat)
    requires n <= |a|
    ensures i in PlacesUpTo(a, b, n) <==> i < n && a[i] in b
  {
    if n > 0 { PlacesAreUpTo(a, b, n - 1, i); }
  }

  lemma PlacesAre<T>(a: seq<T>, b: seq<T>, i: nat)
    ensures i in Places(a, b) <==> i < |a| && a[i] in b
  {
    PlacesAreUpTo(a, b, |a|, i);
  }

  lemma {:induction false} CommonUpTo<T>(a: seq<T>, b: seq<T>, n: nat)
    requires n <= |a|
    ensures |Common(a[..n], b)| == |PlacesUpTo(a, b, n)|
    ensures forall k | 0 <= k < |PlacesUpTo(a, b, n)| :: Common(a[..n], b)[k] == a[PlacesUpTo(a, b, n)[k]]
  {
    if n > 0 {
      CommonUpTo(a, b, n - 1);
      assert a[..n][..n - 1] == a[..n - 1];
    }
  }

  // The common items, by their places.
  lemma CommonAt<T>(a: seq<T>, b: seq<T>)
    ensures |Common(a, b)| == |Places(a, b)|
    ensures forall k | 0 <= k < |Places(a, b)| :: Common(a, b)[k] == a[Places(a, b)[k]]
  {
    CommonUpTo(a, b, |a|);
    assert a[..|a|] == a;
  }

  predicate Increasing(p: seq<nat>) {
    forall i, j | 0 <= i < j < |p| :: p[i] < p[j]
  }

  // Both orders keep their common items on the same places.
  ghost predicate SameCommonPlaces<T(!new)>(a: seq<T>, b: seq<T>) {
    forall i: nat :: (i < |a| && a[i] in b) <==> (i < |b| && b[i] in a)
  }

  lemma {:induction false} SameIncreasing(p: seq<nat>, q: seq<nat>)
    requires Increasing(p) && Increasing(q) && forall x :: x in p <==> x in q
    ensures p == q
  {
    SomeMember(p);
    SomeMember(q);
    if p != [] && q != [] {
      var m, n := |p| - 1, |q| - 1;
      hide Increasing;
      LastIsLargest(p);
      LastIsLargest(q);
      assert p[m] in q && q[n] in p;
      forall x
        ensures x in p[..m] <==> x in q[..n]
      {
        InFront(p, x);
        InFront(q, x);
      }
      SameIncreasing(p[..m], q[..n]);
      assert p == p[..m] + [p[m]] && q == q[..n] + [q[n]];
    }
  }

  lemma SomeMember(p: seq<nat>)
    ensures p == [] || exists x :: x in p
  {
    if p != [] { assert p[0] in p; }
  }

  lemma LastIsLargest(p: seq<nat>)
    requires Increasing(p) && p != []
    ensures forall x | x in p :: x <= p[|p| - 1]
  {
  }

  lemma InFront(p: seq<nat>, x: nat)
    requires Increasing(p) && p != []
    ensures x in p[..|p| - 1] <==> x in p && x != p[|p| - 1]
  {
    assert p == p[..|p| - 1] + [p[|p| - 1]];
  }

  // The common items' places in the other order.
  function OtherPlaces<T(==)>(a: seq<T>, b: seq<T>): (p: seq<nat>)
    ensures |p| == |Common(a, b)|
  {
    Positions(Common(a, b), b)
  }

  lemma OnlyPlace<T>(b: seq<T>, j: nat)
    requires NoDuplicates(b) && j < |b|
    ensures LastIndex(b, b[j]) == j
  {
  }

  lemma ShiftAtPlace<T>(a: seq<T>, b: seq<T>, k: nat)
    requires k < |Places(a, b)| == |OtherPlaces(a, b)|
    ensures Shift(a, b)(Places(a, b)[k]) == Abs(Places(a, b)[k] as int - OtherPlaces(a, b)[k])
  {
    var i := Places(a, b)[k];
    CommonAt(a, b);
    assert OtherPlaces(a, b)[k] == LastIndex(b, Common(a, b)[k]) == LastIndex(b, a[i]);
  }

  lemma ShiftElsewhere<T>(a: seq<T>, b: seq<T>, i: nat)
    requires forall k | 0 <= k < |Places(a, b)| :: Shift(a, b)(Places(a, b)[k]) == 0
    ensures Shift(a, b)(i) == 0
  {
    if i < |a| && a[i] in b {
      var q := Places(a, b);
      PlacesAre(a, b, i);
      var k :| 0 <= k < |q| && q[k] == i;
    }
  }

  /** Nothing has moved exactly when every common item keeps its place. */
  lemma NothingMovedIff<T>(a: seq<T>, b: seq<T>)
    ensures PositionL1(a, b) == 0 <==> OtherPlaces(a, b) == Places(a, b)
  {
    hide OtherPlaces, Places, Shift;
    var p, q := OtherPlaces(a, b), Places(a, b);
    CommonAt(a, b);
    if PositionL1(a, b) == 0 {
      ShiftsNonNegative(a, b);
      forall k: nat | k < |p|
        ensures p[k] == q[k]
      {
        TotalAtMostPoint(Shift(a, b), |a|, q[k]);
        ShiftsNonNegative(a, b);
        ShiftAtPlace(a, b, k);
      }
    }
    if p == q {
      forall k | 0 <= k < |q|
        ensures Shift(a, b)(q[k]) == 0
      {
        ShiftAtPlace(a, b, k);
      }
      forall i: nat | i < |a|
        ensures Shift(a, b)(i) == 0
      {
        ShiftElsewhere(a, b, i);
      }
      TotalZero(Shift(a, b), |a|);
    }
  }

  lemma ShiftsNonNegative<T>(a: seq<T>, b: seq<T>)
    ensures forall i: nat :: Shift(a, b)(i) >= 0
  {
  }

  lemma {:induction false} RowNonNegative(p: seq<nat>, i: nat, n: nat)
    ensures Total(RowOf(Inverted(p), i), n) >= 0
  {
    if n > 0 { RowNonNegative(p, i, n - 1); }
  }

  /** There is no inversion exactly when the places rise. */
  lemma NoInversionIff(p: seq<nat>)
    requires forall i, j | 0 <= i < j < |p| :: p[i] != p[j]
    ensures InversionCount(p) == 0 <==> Increasing(p)
  {
    var n := |p|;
    if InversionCount(p) == 0 {
      forall i: nat, j: nat | i < j < n
        ensures p[i] < p[j]
      {
        forall k: nat | k < n
          ensures RowTotals(Inverted(p), n)(k) >= 0
        {
          RowNonNegative(p, k, n);
        }
        TotalAtMostPoint(RowTotals(Inverted(p), n), n, i);
        TotalAtMostPoint(RowOf(Inverted(p), i), n, j);
      }
    }
    if Increasing(p) {
      forall i: nat | i < n
        ensures RowTotals(Inverted(p), n)(i) == 0
      {
        TotalZero(RowOf(Inverted(p), i), n);
      }
      TotalZero(RowTotals(Inverted(p), n), n);
    }
  }

  lemma OtherPlacesDistinct<T>(a: seq<T>, b: seq<T>)
    requires NoDuplicates(a)
    ensures forall i, j | 0 <= i < j < |OtherPlaces(a, b)| :: OtherPlaces(a, b)[i] != OtherPlaces(a, b)[j]
  {
    var p, q, c := OtherPlaces(a, b), Places(a, b), Common(a, b);
    CommonAt(a, b);
    PlacesRise(a, b, |a|);
    forall i, j | 0 <= i < j < |p|
      ensures p[i] != p[j]
    {
      assert b[p[i]] == c[i] == a[q[i]] && b[p[j]] == c[j] == a[q[j]];
    }
  }

  // The common items' places in b are the places of b whose items occur in a.
  lemma OtherPlacesAre<T>(a: seq<T>, b: seq<T>, j: nat)
    requires NoDuplicates(b)
    ensures j in OtherPlaces(a, b) <==> j < |b| && b[j] in a
  {
    var p, q, c := OtherPlaces(a, b), Places(a, b), Common(a, b);
    CommonAt(a, b);
    if j in p {
      var k :| 0 <= k < |p| && p[k] == j;
      assert b[j] == c[k] == a[q[k]];
    }
    if j < |b| && b[j] in a {
      var i :| 0 <= i < |a| && a[i] == b[j];
      PlacesAre(a, b, i);
      var k :| 0 <= k < |q| && q[k] == i;
      OnlyPlace(b, j);
      assert c[k] == b[j] && p[k] == LastIndex(b, c[k]);
    }
  }

  /** For orders without duplicates the position distance is 0 exactly when there is no inversion and
      the common items occupy the same places in both. */
  lemma ZeroDistanceIff<T(!new)>(a: seq<T>, b: seq<T>)
    requires NoDuplicates(a) && NoDuplicates(b)
    ensures PositionL1(a, b) == 0 <==> Inversions(a, b) == 0 && SameCommonPlaces(a, b)
  {
    hide PositionL1, OtherPlaces, Places, InversionCount, Increasing;
    var p, q := OtherPlaces(a, b), Places(a, b);
    NothingMovedIff(a, b);
    OtherPlacesDistinct(a, b);
    NoInversionIff(p);
    RisingPlaces(a, b);
    InversionsOfPlaces(a, b);
    forall i: nat
      ensures i in p <==> i < |b| && b[i] in a
      ensures i in q <==> i < |a| && a[i] in b
    {
      OtherPlacesAre(a, b, i);
      PlacesAre(a, b, i);
    }
    if Inversions(a, b) == 0 && SameCommonPlaces(a, b) { SameIncreasing(p, q); }
  }

  lemma RisingPlaces<T>(a: seq<T>, b: seq<T>)
    ensures Increasing(Places(a, b))
  {
    PlacesRise(a, b, |a|);
  }

  lemma InversionsOfPlaces<T>(a: seq<T>, b: seq<T>)
    ensures Inversions(a, b) == InversionCount(OtherPlaces(a, b))
  {
  }

  /** On orders of different items a zero distance still makes tau 1; the two tests agree exactly when
      some common items are inverted or all occupy the same places. */
  lemma MetricsAgreeIff<T(!new)>(a: seq<T>, b: seq<T>)
    requires NoDuplicates(a) && NoDuplicates(b) && |Common(a, b)| >= 2
    ensures PositionL1(a, b) == 0 <==> KendallTau(a, b) == Some(1.0) && SameCommonPlaces(a, b)
    ensures (PositionL1(a, b) == 0 <==> KendallTau(a, b) == Some(1.0)) <==>
              Inversions(a, b) != 0 || SameCommonPlaces(a, b)
  {
    hide PositionL1, Inversions, Tau, SameCommonPlaces;
    ZeroDistanceIff(a, b);
    TauOne(Inversions(a, b), |Common(a, b)|);
  }

  /** A shifted sublist keeps tau at 1 but moves. */
  lemma ShiftedSublist(x: int, y: int, z: int)
    requires x != y && y != z && x != z
    ensures KendallTau([x, y], [z, x, y]) == Some(1.0) && PositionL1([x, y], [z, x, y]) == 2
  {
    var a, b := [x, y], [z, x, y];
    AllCommon(a, b);
    assert LastIndex(b, x) == 1 && LastIndex(b, y) == 2;
    var p := Positions(a, b);
    assert p == [1, 2];
    assert Total(Shift(a, b), 1) == 1;
    assert Total(RowOf(Inverted(p), 0), 1) == 0 && Total(RowOf(Inverted(p), 1), 1) == 0;
    assert Total(RowTotals(Inverted(p), 2), 1) == 0;
  }
}
