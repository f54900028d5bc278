// Projection of a routing window.
module EpCompute {
  // Routing rows are split, compute times scaled in proportion.

  import opened IntSums
  import opened EpSplit
  import opened EpSquare
  import opened EpProjection

  // ------------------------------------------------------------------------ rounding

  /** n / d rounded to the nearest integer, halves to the even neighbour. */
  function RoundHalfEven(n: nat, d: nat): (q: nat)
    requires d > 0
    ensures -(d as int) <= 2 * (q * d - n) <= d
  {
    var q, r := n / d, n % d;
    RoundingError(n, d, q, r);
    if 2 * r < d then q else if 2 * r > d then q + 1 else if q % 2 == 0 then q else q + 1
  }

  lemma RoundingError(n: nat, d: nat, q: nat, r: nat)
    requires d > 0 && q == n / d && r == n % d
    ensures n == q * d + r && (q + 1) * d == q * d + d
  {
    assert d * q == q * d;
  }

  lemma RoundExact(q: nat, d: nat)
    requires d > 0
    ensures RoundHalfEven(q * d, d) == q
  {
    assert q * d == d * q;
    DivUnique(q * d, d, q, 0);
  }

  lemma RoundMonotone(n: nat, n': nat, d: nat)
    requires d > 0 && n <= n'
    ensures RoundHalfEven(n, d) <= RoundHalfEven(n', d)
  {
    DivMonotone(n, n', d);
    if n / d == n' / d {
      RoundingError(n, d, n / d, n % d);
      RoundingError(n', d, n' / d, n' % d);
    }
  }

  // ------------------------------------------------------------------ one rank's time

  /** A child's share of its parent's time, in proportion to its rows. */
  function ProjectTime(time: nat, parentTotal: nat, childTotal: nat): nat {
    var projected := if parentTotal == 0 then time else RoundHalfEven(time * childTotal, parentTotal);
    if time > 0 && childTotal > 0 && projected < 1 then 1 else projected
  }

  lemma SharesOrdered(time: nat, a: nat, b: nat)
    requires a <= b
    ensures time * a <= time * b && (time > 0 && a > 0 ==> time * a > 0)
  {
  }

  /** Never more than the parent's time, monotone in the child's rows, positive when it must be. */
  lemma ProjectedTimeBounds(time: nat, parentTotal: nat, childTotal: nat, more: nat)
    requires childTotal <= more <= parentTotal
    ensures ProjectTime(time, parentTotal, childTotal) <= ProjectTime(time, parentTotal, more) <= time
    ensures time > 0 && childTotal > 0 ==> ProjectTime(time, parentTotal, childTotal) > 0
    ensures parentTotal > 0 ==>
              ProjectTime(time, parentTotal, parentTotal) == time && ProjectTime(time, parentTotal, 0) == 0
  {
    if parentTotal > 0 {
      SharesOrdered(time, childTotal, more);
      SharesOrdered(time, more, parentTotal);
      RoundMonotone(time * childTotal, time * more, parentTotal);
      RoundMonotone(time * more, time * parentTotal, parentTotal);
      RoundExact(time, parentTotal);
      RoundExact(0, parentTotal);
    }
  }

  // Scaled back up, a share is off by less than one unit of time.
  lemma ShareError(time: nat, parentTotal: nat, childTotal: nat)
    requires 0 < parentTotal && childTotal <= parentTotal
    ensures -(parentTotal as int) < ProjectTime(time, parentTotal, childTotal) * parentTotal - time * childTotal <
            parentTotal
  {
    SharesOrdered(time, 0, childTotal);
    var rounded := RoundHalfEven(time * childTotal, parentTotal);
    assert rounded == 0 ==> rounded * parentTotal == 0;
    if time > 0 && childTotal > 0 {
      SharesOrdered(time, childTotal, childTotal);
    }
  }

  // -------------------------------------------------------------- children of one rank

  function ChildTimes(time: nat, parentTotal: nat, totals: seq<nat>): seq<int> {
    seq(|totals|, k requires 0 <= k < |totals| => ProjectTime(time, parentTotal, totals[k]))
  }

  lemma ErrorStep(a: int, b: int, p: int, t: int, x: int, y: int)
    ensures (a + b) * p - t * (x + y) == (a * p - t * x) + (b * p - t * y)
  {
  }

  function Errors(time: nat, parentTotal: nat, totals: seq<nat>): (errors: seq<int>)
    ensures |errors| == |totals|
  {
    seq(|totals|, k requires 0 <= k < |totals| =>
        ProjectTime(time, parentTotal, totals[k]) * parentTotal - time * totals[k])
  }

  lemma {:induction false} ErrorsAdd(time: nat, parentTotal: nat, totals: seq<nat>, k: nat)
    requires k <= |totals|
    ensures SumUpTo(Errors(time, parentTotal, totals), k) ==
            SumUpTo(ChildTimes(time, parentTotal, totals), k) * parentTotal - time * SumUpTo(totals, k)
  {
    if k > 0 {
      ErrorsAdd(time, parentTotal, totals, k - 1);
      var v := ChildTimes(time, parentTotal, totals);
      ErrorStep(SumUpTo(v, k - 1), v[k - 1], parentTotal, time, SumUpTo(totals, k - 1), totals[k - 1]);
    }
  }

  lemma {:induction false} SmallErrors(errors: seq<int>, bound: nat, k: nat, slack: nat)
    requires 0 < k <= |errors| && slack == k * bound && forall i | 0 <= i < |errors| ::
             -(bound as int) < errors[i] < bound
    ensures -(slack as int) < SumUpTo(errors, k) < slack
  {
    if k > 1 {
      assert (k - 1) * bound == k * bound - bound;
      SmallErrors(errors, bound, k - 1, slack - bound);
    }
  }

  lemma {:induction false} PartAtMostSum(totals: seq<nat>, i: nat, k: nat)
    requires i < k <= |totals|
    ensures 0 <= totals[i] <= SumUpTo(totals, k)
  {
    if i + 1 < k { PartAtMostSum(totals, i, k - 1); } else { SumNonNegative(totals, k - 1); }
  }

  lemma {:induction false} SumNonNegative(totals: seq<nat>, k: nat)
    requires k <= |totals|
    ensures 0 <= SumUpTo(totals, k)
  {
    if k > 0 { SumNonNegative(totals, k - 1); }
  }

  lemma NegateProduct(x: int, d: int)
    ensures d * (-x) == -(x * d) && d * x == x * d
  {
  }

  lemma CancelBound(x: int, n: nat, d: nat)
    requires d > 0 && -(n * d) < x * d < n * d
    ensures -(n as int) < x < n
  {
    NegateProduct(x, d);
    NegateProduct(n, d);
    if x >= n { MulMonotone(d, n, x); }
    if -x >= n { MulMonotone(d, n, -x); }
  }

  lemma ErrorOfSum(x: int, time: nat, n: nat, d: nat)
    requires d > 0 && -(n * d) < x * d - time * d < n * d
    ensures -(n as int) < x - time < n
  {
    assert (x - time) * d == x * d - time * d;
    CancelBound(x - time, n, d);
  }

  /** With the rows conserved, the children's times add up to the parent's time with an error
      smaller than the number of children. */
  lemma ProjectedSum(time: nat, parentTotal: nat, totals: seq<nat>)
    requires |totals| > 0 && Sum(totals) == parentTotal > 0
    ensures -(|totals| as int) < Sum(ChildTimes(time, parentTotal, totals)) - time < |totals|
  {
    var errors := Errors(time, parentTotal, totals);
    forall i | 0 <= i < |totals|
      ensures -(parentTotal as int) < errors[i] < parentTotal
    {
      PartAtMostSum(totals, i, |totals|);
      ShareError(time, parentTotal, totals[i]);
    }
    MulMonotone(parentTotal, 0, |totals|);
    SmallErrors(errors, parentTotal, |totals|, |totals| * parentTotal);
    ErrorsAdd(time, parentTotal, totals, |totals|);
    ErrorOfSum(Sum(ChildTimes(time, parentTotal, totals)), time, |totals|, parentTotal);
  }

  // ---------------------------------------------------------------------- one field

  predicate NonNegative(m: Grid) {
    forall i, j | 0 <= i < |m| && 0 <= j < |m[i]| :: m[i][j] >= 0
  }

  lemma {:induction false} RowTotalNonNegative(row: seq<int>, w: nat)
    requires w <= |row| && forall j | 0 <= j < |row| :: row[j] >= 0
    ensures RowRange(row, 0, w) >= 0
  {
    if w > 0 { RowTotalNonNegative(row, w - 1); }
  }

  function RowTotal(m: Grid, r: nat): nat
    requires r < |m| && NonNegative(m)
  {
    RowTotalNonNegative(m[r], |m[r]|);
    RowRange(m[r], 0, |m[r]|)
  }

  method TotalRows(row: seq<int>) returns (total: int)
    ensures total == RowRange(row, 0, |row|)
  {
    total := 0;
    for e := 0 to |row|
      invariant total == RowRange(row, 0, e)
    {
      total := total + row[e];
    }
  }

  // Every child's value is its share of its parent's time.
  predicate FieldProjected(times: seq<nat>, parentRaw: Grid, childRaw: Grid, f: nat, values: seq<nat>, upTo: nat)
    requires f > 0 && |times| == |parentRaw| && upTo <= |values| <= |childRaw| && NonNegative(parentRaw) &&
             NonNegative(childRaw)
  {
    forall c: nat | c < upTo ::
        c / f < |parentRaw| && values[c] == ProjectTime(times[c / f], RowTotal(parentRaw, c / f), RowTotal(childRaw, c))
  }

  method ProjectField(times: seq<nat>, parentRaw: Grid, childRaw: Grid, f: nat) returns (values: seq<nat>)
    requires f > 0 && |times| == |parentRaw| && |childRaw| == |parentRaw| * f && NonNegative(parentRaw) &&
             NonNegative(childRaw)
    ensures |values| == |childRaw| && FieldProjected(times, parentRaw, childRaw, f, values, |values|)
  {
    values := [];
    for child := 0 to |childRaw|
      invariant |values| == child && FieldProjected(times, parentRaw, childRaw, f, values, child)
    {
      ParentInRange(child, |parentRaw|, f);
      var parent := child / f;
      var parentTotal := TotalRows(parentRaw[parent]);
      var childTotal := TotalRows(childRaw[child]);
      var time := times[parent];
      assert parentTotal == RowTotal(parentRaw, parent) && childTotal == RowTotal(childRaw, child);
      var projected := if parentTotal <= 0 then time else RoundHalfEven(time * childTotal, parentTotal);
      if time > 0 && childTotal > 0 {
        projected := if projected < 1 then 1 else projected;
      }
      values := values + [projected];
    }
  }

  // -------------------------------------------------------- rows conserved, rank by rank

  lemma {:induction false} OneColumn(m: Grid, r0: nat, h: nat, e: nat)
    requires r0 + h <= |m| && Wide(m, e + 1)
    ensures BlockSum(m, r0, h, e, 1) == ColSum(m, r0, h, e)
  {
    if h > 0 {
      OneColumn(m, r0, h - 1, e);
      assert RowRange(m[r0 + h - 1], e, 1) == RowRange(m[r0 + h - 1], e, 0) + m[r0 + h - 1][e];
    }
  }

  lemma {:induction false} ChildrenTotal(parent: Grid, child: Grid, cols: nat, f: nat, src: nat, w: nat)
    requires Conserves(parent, child, cols, f) && src < |parent| && w <= cols && src * f + f <= |child|
    ensures BlockSum(child, src * f, f, 0, w) == RowRange(parent[src], 0, w)
  {
    if w == 0 {
      EmptyBlock(child, src * f, f, 0);
    } else {
      ChildrenTotal(parent, child, cols, f, src, w - 1);
      JoinBlocks(child, src * f, f, 0, w - 1, 1);
      OneColumn(child, src * f, f, w - 1);
      assert CellKept(parent, child, f, w - 1, src);
    }
  }

  function ChildTotals(child: Grid, base: nat, f: nat): (totals: seq<nat>)
    requires base + f <= |child| && NonNegative(child)
    ensures |totals| == f
  {
    seq<nat>(f, k requires 0 <= k < f => RowTotal(child, base + k))
  }

  lemma {:induction false} TotalsAreBlock(child: Grid, cols: nat, base: nat, f: nat, k: nat)
    requires Rect(child, |child|, cols) && base + f <= |child| && NonNegative(child) && k <= f
    ensures SumUpTo(ChildTotals(child, base, f), k) == BlockSum(child, base, k, 0, cols)
  {
    if k > 0 {
      TotalsAreBlock(child, cols, base, f, k - 1);
      assert ChildTotals(child, base, f)[k - 1] == RowTotal(child, base + (k - 1)) && |child[base + (k - 1)]| == cols;
      assert base + (k - 1) == base + k - 1;
    }
  }

  lemma ChildValues(times: seq<nat>, parent: Grid, child: Grid, f: nat, values: seq<nat>, src: nat, base: nat)
    requires f > 0 && |times| == |parent| && |values| == |child| && NonNegative(parent) && NonNegative(child)
    requires FieldProjected(times, parent, child, f, values, |values|)
    requires src < |parent| && base == src * f && base + f <= |child|
    ensures values[base..base + f] == ChildTimes(times[src], RowTotal(parent, src), ChildTotals(child, base, f))
  {
    var shares := ChildTimes(times[src], RowTotal(parent, src), ChildTotals(child, base, f));
    forall c: nat | base <= c < base + f
      ensures values[c] == shares[c - base]
    {
      ChildIndex(src, f, c - base);
      assert ChildTotals(child, base, f)[c - base] == RowTotal(child, base + (c - base));
    }
    SliceIs(values, base, shares);
  }

  /** With conserved rows, each child's projected time is at most its parent's, and the children's
      times add up to the parent's with an error smaller than the factor; children of a rank
      without rows all inherit its full time. */
  lemma ProjectedTimesFollowRows(times: seq<nat>, parent: Grid, child: Grid, cols: nat, f: nat, values: seq<nat>,
                                 src: nat, base: nat)
    requires Conserves(parent, child, cols, f) && NonNegative(parent) && NonNegative(child) && f > 0
    requires |times| == |parent| && |values| == |child| && FieldProjected(times, parent, child, f, values, |values|)
    requires src < |parent| && base == src * f
    ensures base + f <= |child|
    ensures forall c | base <= c < base + f :: values[c] <= times[src]
    ensures RowTotal(parent, src) > 0 ==> -(f as int) < Sum(values[base..base + f]) - times[src] < f
    ensures RowTotal(parent, src) == 0 ==> forall c | base <= c < base + f :: values[c] == times[src]
  {
    ScaledRange(src, 1, |parent|, f);
    var total, totals := RowTotal(parent, src), ChildTotals(child, base, f);
    ChildrenTotal(parent, child, cols, f, src, cols);
    TotalsAreBlock(child, cols, base, f, f);
    ChildValues(times, parent, child, f, values, src, base);
    forall c | base <= c < base + f
      ensures values[c] <= times[src] && (total == 0 ==> values[c] == times[src])
    {
      PartAtMostSum(totals, c - base, f);
      ProjectedTimeBounds(times[src], total, totals[c - base], totals[c - base]);
      assert values[c] == values[base..base + f][c - base];
    }
    if total > 0 { ProjectedSum(times[src], total, totals); }
  }

  // ------------------------------------------------------------------------ one window

  datatype Routing = Routing(raw: Grid, kept: Grid, dropped: Grid, padding: Grid)

  // The shapes agree and raw rows close over kept and dropped rows.
  predicate Closed(r: Routing, world: nat, cols: nat) {
    && Rect(r.kept, world, cols) && Rect(r.dropped, world, cols) && Rect(r.padding, world, cols)
    && r.raw == AddGrids(r.kept, r.dropped, world, cols)
  }

  method ToGrid(a: array2<int>) returns (m: Grid)
    ensures Rect(m, a.Length0, a.Length1)
    ensures forall i, j | 0 <= i < a.Length0 && 0 <= j < a.Length1 :: m[i][j] == a[i, j]
  {
    m := seq(a.Length0, i requires 0 <= i < a.Length0 reads a =>
           seq(a.Length1, j requires 0 <= j < a.Length1 reads a => a[i, j]));
  }

  method SplitGrid(m: Grid, cols: nat, f: nat, salt: int) returns (out: Grid)
    requires Rect(m, |m|, cols) && f > 0
    ensures out == SplitRows(m, cols, f, SourceRotation(salt, f))
  {
    var a := SplitSourceMatrix(m, cols, f, salt);
    out := ToGrid(a);
    ghost var goal := SplitRows(m, cols, f, SourceRotation(salt, f));
    forall i | 0 <= i < |out|
      ensures out[i] == goal[i]
    {
    }
  }

  /** A projected window is closed again and conserves every kind of row under every rank. */
  method ProjectRouting(r: Routing, cols: nat, f: nat, salt: int) returns (out: Routing)
    requires f > 0 && Closed(r, |r.raw|, cols)
    ensures Closed(out, |r.raw| * f, cols)
    ensures Conserves(r.raw, out.raw, cols, f) && Conserves(r.kept, out.kept, cols, f)
    ensures Conserves(r.dropped, out.dropped, cols, f) && Conserves(r.padding, out.padding, cols, f)
  {
    var world := |r.raw|;
    var kept := SplitGrid(r.kept, cols, f, salt + 1);
    var dropped := SplitGrid(r.dropped, cols, f, salt + 2);
    var padding := SplitGrid(r.padding, cols, f, salt + 3);
    SplitConservesCells(r.kept, cols, f, SourceRotation(salt + 1, f));
    SplitConservesCells(r.dropped, cols, f, SourceRotation(salt + 2, f));
    SplitConservesCells(r.padding, cols, f, SourceRotation(salt + 3, f));
    ConservesSum(r.kept, kept, r.dropped, dropped, world, cols, f);
    out := Routing(AddGrids(kept, dropped, world * f, cols), kept, dropped, padding);
  }

  // Rows that are transferred: kept and padding rows.
  function Realized(r: Routing, world: nat, cols: nat): Grid
    requires Closed(r, world, cols)
  {
    AddGrids(r.kept, r.padding, world, cols)
  }

  /** The projected window's dispatch matrix, summed over rank blocks, is the source window's
      dispatch matrix when both sides map experts contiguously. */
  lemma WindowDispatchAggregates(r: Routing, out: Routing, cols: nat, f: nat, src: nat, dst: nat)
    requires f > 0 && Closed(r, |r.raw|, cols) && Closed(out, |r.raw| * f, cols) && src < |r.raw| && dst < |r.raw|
    requires Conserves(r.kept, out.kept, cols, f) && Conserves(r.padding, out.padding, cols, f)
    requires |r.raw| * f <= cols
    ensures |r.raw| * f > 0 && |r.raw| <= cols
    ensures Aggregated(Realized(out, |r.raw| * f, cols), BalancedExpertMapping(cols, |r.raw| * f).value, |r.raw|, f,
            src, dst)
         == Dispatch(Realized(r, |r.raw|, cols), BalancedExpertMapping(cols, |r.raw|).value, |r.raw|)[src][dst]
  {
    var world := |r.raw|;
    BalancedCommutes(cols, world, f);
    ConservesSum(r.kept, out.kept, r.padding, out.padding, world, cols, f);
  }
}
