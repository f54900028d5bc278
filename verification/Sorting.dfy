// Sorting positions by value.
module Sorting {
  // And counting through a sorted order.

  import opened Totals

  // order lists each of the first n positions once, smaller values first; equal values may come
  // in any order.
  predicate ArrangesFirst(values: seq<real>, order: seq<nat>, n: nat)
    requires n <= |values|
  {
    && |order| == n
    && (forall k | 0 <= k < n :: order[k] < n)
    && (forall k, k' | 0 <= k < k' < n :: order[k] != order[k'])
    && (forall k, k' | 0 <= k <= k' < n :: values[order[k]] <= values[order[k']])
  }

  predicate Arranges(values: seq<real>, order: seq<nat>) {
    ArrangesFirst(values, order, |values|)
  }

  // Position in a sorted order at which a value belongs.
  function PlaceFor(values: seq<real>, order: seq<nat>, x: real, k: nat): (place: nat)
    requires k <= |order| && forall i | 0 <= i < |order| :: order[i] < |values|
    requires forall i, j | 0 <= i <= j < k :: values[order[i]] <= values[order[j]]
    ensures place <= k
    ensures forall i | 0 <= i < place :: values[order[i]] <= x
    ensures forall i | place <= i < k :: values[order[i]] > x
  {
    if k == 0 then 0 else if values[order[k - 1]] <= x then k else PlaceFor(values, order, x, k - 1)
  }

  function Insert(rest: seq<nat>, place: nat, x: nat): (order: seq<nat>)
    requires place <= |rest|
    ensures |order| == |rest| + 1
    ensures forall k | 0 <= k < |order| :: order[k] ==
              if k < place then rest[k] else if k == place then x else rest[k - 1]
  {
    rest[..place] + [x] + rest[place..]
  }

  lemma InsertKeepsOrder(values: seq<real>, rest: seq<nat>, n: nat, place: nat, order: seq<nat>)
    requires 0 < n <= |values| && ArrangesFirst(values, rest, n - 1) && place <= n - 1 &&
             order == Insert(rest, place, n - 1)
    requires forall i | 0 <= i < place :: values[rest[i]] <= values[n - 1]
    requires forall i | place <= i < n - 1 :: values[rest[i]] > values[n - 1]
    ensures ArrangesFirst(values, order, n)
  {
    forall k, k' | 0 <= k < k' < n
      ensures order[k] != order[k'] && values[order[k]] <= values[order[k']]
    {
      var j, j' := if k < place then k else k - 1, if k' < place then k' else k' - 1;
      if k != place && k' != place {
        assert order[k] == rest[j] && order[k'] == rest[j'];
      }
    }
  }

  /** Stable insertion sort of positions. */
  function SortedPositions(values: seq<real>, n: nat): (order: seq<nat>)
    requires n <= |values|
    ensures ArrangesFirst(values, order, n)
  {
    if n == 0 then [] else
      var rest := SortedPositions(values, n - 1);
      var place := PlaceFor(values, rest, values[n - 1], n - 1);
      InsertKeepsOrder(values, rest, n, place, Insert(rest, place, n - 1));
      Insert(rest, place, n - 1)
  }

  lemma {:induction false} DistinctCover(order: seq<nat>, n: nat)
    requires |order| == n && (forall k | 0 <= k < n :: order[k] < n) && forall k, k' | 0 <= k < k' < n ::
             order[k] != order[k']
    ensures forall v: nat | v < n :: v in order
  {
    if n > 0 {
      if k: nat :| k < n && order[k] == n - 1 {
        var rest := order[..k] + order[k + 1..];
        DistinctCover(rest, n - 1);
        forall v: nat | v < n
          ensures v in order
        {
          if v < n - 1 { assert v in rest; }
        }
      } else {
        DistinctBelow(order, n - 1);
      }
    }
  }

  function IndexOf(order: seq<nat>, v: nat): (k: nat)
    requires v in order
    ensures k < |order| && order[k] == v
  {
    if order[|order| - 1] == v then |order| - 1 else IndexOf(order[..|order| - 1], v)
  }

  function Places(order: seq<nat>): (p: seq<nat>)
    requires forall k | 0 <= k < |order| :: order[k] < |order|
    requires forall v: nat | v < |order| :: v in order
    requires forall k, k' | 0 <= k < k' < |order| :: order[k] != order[k']
    ensures Inverse(p, order)
  {
    seq(|order|, v requires 0 <= v < |order| => IndexOf(order, v))
  }

  function Under(values: seq<real>, t: real): nat -> int { (i: nat) => if i < |values| && values[i] < t then 1 else 0 }

  function AtMost(values: seq<real>,
                  t: real): nat -> int { (i: nat) => if i < |values| && values[i] <= t then 1 else 0 }

  // Counting positions does not depend on the order they are visited in.
  lemma CountThrough(values: seq<real>, order: seq<nat>, f: nat -> int, k: nat)
    requires Arranges(values, order) && k <= |order|
    requires forall j: nat | j < |order| :: f(order[j]) == if j < k then 1 else 0
    ensures Total(f, |values|) == k
  {
    DistinctCover(order, |order|);
    var p := Places(order);
    Reindex(f, p, order);
    TotalEqual(Through(f, order), IndexBelow(k), |order|);
    CountIndices(k, |order|);
  }

  /** The values at positions k, and from k on: the count below tells where a group starts. */
  lemma CountsAtGroup(values: seq<real>, order: seq<nat>, t: real, start: nat, end: nat)
    requires Arranges(values, order) && start <= end <= |order|
    requires forall k | 0 <= k < start :: values[order[k]] < t
    requires forall k | start <= k < end :: values[order[k]] == t
    requires forall k | end <= k < |order| :: values[order[k]] > t
    ensures Total(Under(values, t), |values|) == start && Total(AtMost(values, t), |values|) == end
  {
    CountThrough(values, order, Under(values, t), start);
    CountThrough(values, order, AtMost(values, t), end);
  }

  function Arranged(values: seq<real>, order: seq<nat>): (s: seq<real>)
    requires Arranges(values, order)
    ensures |s| == |values| && forall k | 0 <= k < |s| :: s[k] == values[order[k]]
  {
    seq(|values|, k requires 0 <= k < |values| => values[order[k]])
  }

  // How many values are at most the k-th smallest.
  lemma CountAtMostKth(values: seq<real>, order: seq<nat>, t: real, k: nat)
    requires Arranges(values, order) && k < |order|
    ensures values[order[k]] <= t <==> Total(AtMost(values, t), |values|) > k
  {
    var end := CountOfPrefix(values, order, t, |order|);
    CountThrough(values, order, AtMost(values, t), end);
  }

  // The values at most t are a prefix of the sorted order.
  function CountOfPrefix(values: seq<real>, order: seq<nat>, t: real, n: nat): (end: nat)
    requires Arranges(values, order) && n <= |order|
    ensures end <= n
    ensures forall k | 0 <= k < n :: values[order[k]] <= t <==> k < end
  {
    if n == 0 then 0 else if values[order[n - 1]] <= t then n else CountOfPrefix(values, order, t, n - 1)
  }

  /** Raising every value raises the k-th smallest. */
  lemma OrderStatisticsMonotone(xs: seq<real>, xorder: seq<nat>, ys: seq<real>, yorder: seq<nat>, k: nat)
    requires Arranges(xs, xorder) && Arranges(ys, yorder) && |xs| == |ys| && k < |xs|
    requires forall i | 0 <= i < |xs| :: xs[i] <= ys[i]
    ensures xs[xorder[k]] <= ys[yorder[k]]
  {
    var t := ys[yorder[k]];
    CountAtMostKth(ys, yorder, t, k);
    TotalAtMost(AtMost(ys, t), AtMost(xs, t), |xs|);
    CountAtMostKth(xs, xorder, t, k);
  }
}
