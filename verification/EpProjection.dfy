// Projection onto a larger world.
module EpProjection {
  // Expert mapping, and what aggregation sees of a projected routing window.

  import opened Wrappers
  import opened IntSums
  import opened EpSplit
  import opened EpSquare

  // ------------------------------------------------------------------ expert mapping

  /** Contiguous mapping of experts to ranks; refused when some rank would get no expert. */
  function BalancedExpertMapping(experts: nat, world: nat): Option<seq<nat>>
    requires world > 0
  {
    if experts < world then None
    else Some(seq(experts, e requires 0 <= e < experts => HomeRank(e, world, experts)))
  }

  function HomeRank(e: nat, world: nat, experts: nat): nat
    requires experts > 0
  {
    e * world / experts
  }

  // The first expert of a rank: the ceiling of rank * experts / world.
  function FirstExpert(rank: nat, experts: nat, world: nat): nat
    requires world > 0
  {
    (rank * experts + (world - 1)) / world
  }

  lemma QuotientBetween(n: nat, d: nat, q: nat)
    requires d > 0
    ensures n / d == q <==> q * d <= n < (q + 1) * d
  {
    assert (q + 1) * d == q * d + d;
    if q * d <= n < (q + 1) * d {
      assert d * q == q * d;
      DivUnique(n, d, q, n - q * d);
    }
    assert d * (n / d) == (n / d) * d;
  }

  lemma AtLeastCeiling(n: nat, d: nat, e: nat)
    requires d > 0
    ensures n <= e * d <==> (n + (d - 1)) / d <= e
  {
    var c := (n + (d - 1)) / d;
    QuotientBetween(n + (d - 1), d, c);
    if c <= e { MulMonotone(d, c, e); assert (c + 1) * d == c * d + d; assert d * c == c * d && d * e == e * d; }
    if e < c { MulStep(d, e, c); assert d * c == c * d && d * e == e * d; }
  }

  lemma FromFirstExpert(e: nat, rank: nat, experts: nat, world: nat)
    requires world > 0
    ensures rank * experts <= e * world <==> FirstExpert(rank, experts, world) <= e
  {
    AtLeastCeiling(rank * experts, world, e);
  }

  /** The experts of a rank are one contiguous interval. */
  lemma ExpertInterval(e: nat, rank: nat, experts: nat, world: nat)
    requires world > 0 && e < experts
    ensures HomeRank(e, world, experts) == rank <==>
              FirstExpert(rank, experts, world) <= e < FirstExpert(rank + 1, experts, world)
  {
    QuotientBetween(e * world, experts, rank);
    FromFirstExpert(e, rank, experts, world);
    FromFirstExpert(e, rank + 1, experts, world);
    hide FirstExpert;
  }

  lemma AddQuotient(a: nat, b: nat, d: nat)
    requires d > 0
    ensures (a + b) / d == a / d + b / d || (a + b) / d == a / d + b / d + 1
    ensures b % d == 0 ==> (a + b) / d == a / d + b / d
  {
    var q := a / d + b / d;
    assert d * q == d * (a / d) + d * (b / d);
    var r := a % d + b % d;
    if r < d {
      DivUnique(a + b, d, q, r);
    } else {
      assert d * (q + 1) == d * q + d;
      DivUnique(a + b, d, q + 1, r - d);
    }
  }

  /** Interval sizes are the floor of experts / world or one more, equal when world divides
      experts, and the intervals tile all experts; so every rank has an expert. */
  lemma BalancedIntervals(rank: nat, experts: nat, world: nat)
    requires 0 < world <= experts && rank < world
    ensures var size := FirstExpert(rank + 1, experts, world) - FirstExpert(rank, experts, world);
            (size == experts / world || size == experts / world + 1) && size > 0 &&
                (experts % world == 0 ==> size == experts / world)
    ensures FirstExpert(0, experts, world) == 0 && FirstExpert(world, experts, world) == experts
    ensures FirstExpert(rank, experts, world) < FirstExpert(rank + 1, experts, world) <= experts
  {
    assert (rank + 1) * experts == rank * experts + experts;
    AddQuotient(rank * experts + (world - 1), experts, world);
    QuotientBetween(experts, world, experts / world);
    DivUnique(world - 1, world, 0, world - 1);
    assert world * experts == experts * world;
    DivUnique(world * experts + (world - 1), world, experts, world - 1);
    MulMonotone(experts, rank + 1, world);
    assert experts * (rank + 1) == (rank + 1) * experts && experts * world == world * experts;
    DivMonotone((rank + 1) * experts + (world - 1), world * experts + (world - 1), world);
  }

  lemma DivMonotone(a: nat, b: nat, d: nat)
    requires d > 0 && a <= b
    ensures a / d <= b / d
  {
    if b / d < a / d { MulStep(d, b / d, a / d); }
  }

  lemma HomeInRange(e: nat, experts: nat, world: nat)
    requires world > 0 && e < experts
    ensures HomeRank(e, world, experts) < world
  {
    MulStep(world, e, experts);
    ParentInRange(e * world, world, experts);
  }

  /** The mapping never goes down and every rank has an expert. */
  lemma MappingIsMonotoneOnto(experts: nat, world: nat)
    requires 0 < world <= experts
    ensures var m := BalancedExpertMapping(experts, world).value;
            && ValidMap(m, experts, world)
            && (forall i, j | 0 <= i <= j < experts :: m[i] <= m[j])
            && (forall rank: nat | rank < world :: rank in m)
  {
    var m := BalancedExpertMapping(experts, world).value;
    forall e: nat | e < experts
      ensures m[e] < world
    {
      HomeInRange(e, experts, world);
    }
    forall i: nat, j: nat | i <= j < experts
      ensures m[i] <= m[j]
    {
      MulMonotone(world, i, j);
      DivMonotone(i * world, j * world, experts);
    }
    forall rank: nat | rank < world
      ensures rank in m
    {
      var first := FirstExpert(rank, experts, world);
      BalancedIntervals(rank, experts, world);
      ExpertInterval(first, rank, experts, world);
      assert m[first] == rank;
    }
  }

  lemma ScaleQuotient(n: nat, d: nat, f: nat)
    requires d > 0 && f > 0
    ensures n * f / d / f == n / d
  {
    DivDiv(n * f, d, f);
    DivDiv(n * f, f, d);
    assert d * f == f * d && f * n == n * f;
    DivUnique(n * f, f, n, 0);
  }

  /** A rank of the larger world holds only experts of its parent rank. */
  lemma MappingRefines(e: nat, experts: nat, world: nat, f: nat)
    requires world > 0 && f > 0 && e < experts
    ensures HomeRank(e, world * f, experts) / f == HomeRank(e, world, experts)
  {
    assert e * (world * f) == e * world * f;
    ScaleQuotient(e * world, experts, f);
  }

  // ---------------------------------------------------------------- dispatch matrix

  // Rows sent to ranks lo..hi by the first k experts of one source rank.
  function RowsTo(row: seq<int>, map_: seq<nat>, lo: nat, hi: nat, k: nat): int
    requires k <= |row| && k <= |map_|
  {
    if k == 0 then 0 else RowsTo(row, map_, lo, hi, k - 1) + (if lo <= map_[k - 1] < hi then row[k - 1] else 0)
  }

  predicate ValidMap(map_: seq<nat>, experts: nat, world: nat) {
    |map_| == experts && forall e | 0 <= e < experts :: map_[e] < world
  }

  /** Rows each rank sends to each rank: its experts' rows gathered by their home. */
  function Dispatch(rows: Grid, map_: seq<nat>, world: nat): (matrix: Grid)
    requires Rect(rows, |rows|, |map_|)
    ensures Rect(matrix, |rows|, world)
  {
    seq(|rows|, src requires 0 <= src < |rows| => seq(world, dst requires 0 <= dst < world =>
      RowsTo(rows[src], map_, dst, dst + 1, |map_|)))
  }

  // Adds up the rows of one source rank by destination.
  method GatherRow(row: seq<int>, map_: seq<nat>, world: nat) returns (line: seq<int>)
    requires ValidMap(map_, |row|, world)
    ensures |line| == world && forall dst | 0 <= dst < world :: line[dst] == RowsTo(row, map_, dst, dst + 1, |row|)
  {
    line := seq(world, _ => 0);
    for e := 0 to |row|
      invariant |line| == world
      invariant forall dst | 0 <= dst < world :: line[dst] == RowsTo(row, map_, dst, dst + 1, e)
    {
      line := line[map_[e] := line[map_[e]] + row[e]];
    }
  }

  method DispatchRowMatrix(rows: Grid, map_: seq<nat>, world: nat) returns (matrix: Grid)
    requires Rect(rows, world, |map_|) && ValidMap(map_, |map_|, world)
    ensures matrix == Dispatch(rows, map_, world)
  {
    matrix := [];
    for src := 0 to world
      invariant matrix == Dispatch(rows, map_, world)[..src]
    {
      var line := GatherRow(rows[src], map_, world);
      assert line == Dispatch(rows, map_, world)[src];
      matrix := matrix + [line];
    }
  }

  lemma {:induction false} RowsToSplit(row: seq<int>, map_: seq<nat>, lo: nat, mid: nat, hi: nat, k: nat)
    requires k <= |row| && k <= |map_| && lo <= mid <= hi
    ensures RowsTo(row, map_, lo, hi, k) == RowsTo(row, map_, lo, mid, k) + RowsTo(row, map_, mid, hi, k)
  {
    if k > 0 { RowsToSplit(row, map_, lo, mid, hi, k - 1); }
  }

  lemma {:induction false} NothingTo(row: seq<int>, map_: seq<nat>, lo: nat, k: nat)
    requires k <= |row| && k <= |map_|
    ensures RowsTo(row, map_, lo, lo, k) == 0
  {
    if k > 0 { NothingTo(row, map_, lo, k - 1); }
  }

  lemma {:induction false} DispatchRange(rows: Grid, map_: seq<nat>, world: nat, src: nat, c0: nat, w: nat)
    requires Rect(rows, |rows|, |map_|) && src < |rows| && c0 + w <= world
    ensures RowRange(Dispatch(rows, map_, world)[src], c0, w) == RowsTo(rows[src], map_, c0, c0 + w, |map_|)
  {
    if w == 0 {
      NothingTo(rows[src], map_, c0, |map_|);
    } else {
      DispatchRange(rows, map_, world, src, c0, w - 1);
      RowsToSplit(rows[src], map_, c0, c0 + (w - 1), c0 + w, |map_|);
    }
  }

  // The same gathering over h source ranks from r0.
  function AreaTo(rows: Grid, r0: nat, h: nat, map_: seq<nat>, lo: nat, hi: nat, k: nat): int
    requires r0 + h <= |rows| && k <= |map_| && Wide(rows, k)
  {
    if h == 0 then 0 else AreaTo(rows, r0, h - 1, map_, lo, hi, k) + RowsTo(rows[r0 + h - 1], map_, lo, hi, k)
  }

  lemma {:induction false} DispatchArea(rows: Grid, map_: seq<nat>, world: nat, r0: nat, h: nat, c0: nat, w: nat)
    requires Rect(rows, |rows|, |map_|) && r0 + h <= |rows| && c0 + w <= world
    ensures BlockSum(Dispatch(rows, map_, world), r0, h, c0, w) == AreaTo(rows, r0, h, map_, c0, c0 + w, |map_|)
  {
    if h > 0 {
      DispatchArea(rows, map_, world, r0, h - 1, c0, w);
      DispatchRange(rows, map_, world, r0 + h - 1, c0, w);
    }
  }

  lemma {:induction false} AreaStep(rows: Grid, r0: nat, h: nat, map_: seq<nat>, lo: nat, hi: nat, k: nat)
    requires r0 + h <= |rows| && 0 < k <= |map_| && Wide(rows, k)
    ensures AreaTo(rows, r0, h, map_, lo, hi, k) ==
            AreaTo(rows, r0, h, map_, lo, hi, k - 1) +
                (if lo <= map_[k - 1] < hi then ColSum(rows, r0, h, k - 1) else 0)
  {
    if h > 0 { AreaStep(rows, r0, h - 1, map_, lo, hi, k); }
  }

  lemma {:induction false} AreaEmpty(rows: Grid, r0: nat, h: nat, map_: seq<nat>, lo: nat, hi: nat)
    requires r0 + h <= |rows|
    ensures AreaTo(rows, r0, h, map_, lo, hi, 0) == 0
  {
    if h > 0 { AreaEmpty(rows, r0, h - 1, map_, lo, hi); }
  }

  // -------------------------------------------------------------- conserving children

  // Under every source rank the children hold exactly the parent's rows, expert by expert.
  predicate Conserves(parent: Grid, child: Grid, cols: nat, f: nat) {
    && Rect(parent, |parent|, cols) && Rect(child, |parent| * f, cols)
    && forall src: nat, e: nat | src < |parent| && e < cols :: CellKept(parent, child, f, e, src)
  }

  lemma SplitConservesCells(m: Grid, cols: nat, f: nat, rotation: Rotation)
    requires Rect(m, |m|, cols) && f > 0
    ensures Conserves(m, SplitRows(m, cols, f, rotation), cols, f)
  {
    forall src: nat, e: nat | src < |m| && e < cols
      ensures CellKept(m, SplitRows(m, cols, f, rotation), f, e, src)
    {
      WholeCell(m, cols, f, rotation, src, e);
    }
  }

  function AddGrids(a: Grid, b: Grid, rows: nat, cols: nat): (c: Grid)
    requires Rect(a, rows, cols) && Rect(b, rows, cols)
    ensures Rect(c, rows, cols)
  {
    seq(rows, r requires 0 <= r < rows => seq(cols, e requires 0 <= e < cols => a[r][e] + b[r][e]))
  }

  lemma {:induction false} ColSumOfSum(a: Grid, b: Grid, rows: nat, cols: nat, r0: nat, h: nat, e: nat)
    requires Rect(a, rows, cols) && Rect(b, rows, cols) && r0 + h <= rows && e < cols
    ensures ColSum(AddGrids(a, b, rows, cols), r0, h, e) == ColSum(a, r0, h, e) + ColSum(b, r0, h, e)
  {
    if h > 0 { ColSumOfSum(a, b, rows, cols, r0, h - 1, e); }
  }

  lemma ConservesSum(a: Grid, a': Grid, b: Grid, b': Grid, world: nat, cols: nat, f: nat)
    requires |a| == world == |b| && Conserves(a, a', cols, f) && Conserves(b, b', cols, f)
    ensures Conserves(AddGrids(a, b, world, cols), AddGrids(a', b', world * f, cols), cols, f)
  {
    var parent, child := AddGrids(a, b, world, cols), AddGrids(a', b', world * f, cols);
    forall src: nat, e: nat | src < world && e < cols
      ensures CellKept(parent, child, f, e, src)
    {
      assert CellKept(a, a', f, e, src) && CellKept(b, b', f, e, src);
      ColSumOfSum(a', b', world * f, cols, src * f, f, e);
    }
  }

  lemma {:induction false} ChildrenTo(parent: Grid, child: Grid, cols: nat, f: nat, src: nat, map_: seq<nat>, lo: nat,
                                      hi: nat, k: nat)
    requires Conserves(parent, child, cols, f) && src < |parent| && |map_| == cols && k <= cols &&
             src * f + f <= |child|
    ensures AreaTo(child, src * f, f, map_, lo, hi, k) == RowsTo(parent[src], map_, lo, hi, k)
  {
    if k == 0 {
      AreaEmpty(child, src * f, f, map_, lo, hi);
    } else {
      ChildrenTo(parent, child, cols, f, src, map_, lo, hi, k - 1);
      AreaStep(child, src * f, f, map_, lo, hi, k);
      assert CellKept(parent, child, f, k - 1, src);
    }
  }

  // -------------------------------------------------- projection commutes with aggregation

  // The target dispatch matrix summed over the f by f block of ranks (src, dst).
  function Aggregated(child: Grid, target: seq<nat>, world: nat, f: nat, src: nat, dst: nat): int
    requires Rect(child, world * f, |target|) && src < world && dst < world
  {
    ScaledRange(src, 1, world, f);
    ScaledRange(dst, 1, world, f);
    BlockSum(Dispatch(child, target, world * f), src * f, f, dst * f, f)
  }

  function ParentMap(target: seq<nat>, f: nat): seq<nat>
    requires f > 0
  {
    seq(|target|, e requires 0 <= e < |target| => target[e] / f)
  }

  lemma {:induction false} SameHomes(row: seq<int>, target: seq<nat>, f: nat, dst: nat, k: nat)
    requires f > 0 && k <= |row| && k <= |target|
    ensures RowsTo(row, target, dst * f, dst * f + f, k) == RowsTo(row, ParentMap(target, f), dst, dst + 1, k)
  {
    if k > 0 {
      SameHomes(row, target, f, dst, k - 1);
      QuotientBetween(target[k - 1], f, dst);
      assert (dst + 1) * f == dst * f + f;
    }
  }

  /** Aggregating the projected dispatch matrix over rank blocks dispatches the parent's rows
      by the parents of the target ranks. */
  lemma AggregationIsParentDispatch(parent: Grid, child: Grid, target: seq<nat>, f: nat, src: nat, dst: nat)
    requires f > 0 && Conserves(parent, child, |target|, f) && src < |parent| && dst < |parent|
    ensures Aggregated(child, target, |parent|, f, src, dst) ==
            Dispatch(parent, ParentMap(target, f), |parent|)[src][dst]
  {
    ScaledRange(src, 1, |parent|, f);
    ScaledRange(dst, 1, |parent|, f);
    DispatchArea(child, target, |parent| * f, src * f, f, dst * f, f);
    ChildrenTo(parent, child, |target|, f, src, target, dst * f, dst * f + f, |target|);
    SameHomes(parent[src], target, f, dst, |target|);
  }

  // Aggregation after projection gives back the source dispatch matrix, whatever rows are routed.
  ghost predicate Commutes(source: seq<nat>, target: seq<nat>, world: nat, f: nat)
    requires |source| == |target|
  {
    forall parent: Grid, child: Grid, src: nat, dst: nat |
        |parent| == world && Conserves(parent, child, |target|, f) && src < world && dst < world ::
      Aggregated(child, target, world, f, src, dst) == Dispatch(parent, source, world)[src][dst]
  }

  // One row of expert e at the first source rank, nothing else.
  function UnitRows(world: nat, cols: nat, e: nat): Grid {
    seq(world, r requires 0 <= r < world => seq(cols, c requires 0 <= c < cols => if r == 0 && c == e then 1 else 0))
  }

  lemma {:induction false} UnitTo(row: seq<int>, e: nat, map_: seq<nat>, lo: nat, hi: nat, k: nat)
    requires e < |row| && k <= |row| && k <= |map_| && forall c | 0 <= c < |row| :: row[c] == if c == e then 1 else 0
    ensures RowsTo(row, map_, lo, hi, k) == if e < k && lo <= map_[e] < hi then 1 else 0
  {
    if k > 0 { UnitTo(row, e, map_, lo, hi, k - 1); }
  }

  /** The projection commutes with aggregation exactly when every expert's target rank lies
      under its source rank. */
  lemma CommutesIffRefines(source: seq<nat>, target: seq<nat>, world: nat, f: nat)
    requires f > 0 && world > 0 && |source| == |target|
    requires ValidMap(source, |source|, world) && ValidMap(target, |target|, world * f)
    ensures Commutes(source, target, world, f) <==> ParentMap(target, f) == source
  {
    if ParentMap(target, f) == source {
      forall parent: Grid, child: Grid, src: nat, dst: nat |
          |parent| == world && Conserves(parent, child, |target|, f) && src < world && dst < world
        ensures Aggregated(child, target, world, f, src, dst) == Dispatch(parent, source, world)[src][dst]
      {
        AggregationIsParentDispatch(parent, child, target, f, src, dst);
      }
    } else {
      var e: nat :| e < |target| && target[e] / f != source[e];
      MisplacedExpertShows(source, target, world, f, e);
    }
  }

  // One routed row is enough to see a misplaced expert.
  lemma MisplacedExpertShows(source: seq<nat>, target: seq<nat>, world: nat, f: nat, e: nat)
    requires f > 0 && world > 0 && |source| == |target| && e < |target| && target[e] / f != source[e] &&
             source[e] < world
    ensures !Commutes(source, target, world, f)
  {
    var parent, child := MisplacedCell(source, target, world, f, e);
    hide Aggregated, Dispatch, Conserves;
  }

  lemma MisplacedCell(source: seq<nat>, target: seq<nat>, world: nat, f: nat, e: nat)
    returns (parent: Grid, child: Grid)
    requires f > 0 && world > 0 && |source| == |target| && e < |target| && target[e] / f != source[e] &&
             source[e] < world
    ensures |parent| == world && Conserves(parent, child, |target|, f)
    ensures Aggregated(child, target, world, f, 0, source[e]) != Dispatch(parent, source, world)[0][source[e]]
  {
    hide SplitRows, Conserves, Aggregated;
    parent := UnitRows(world, |target|, e);
    var rotation: Rotation := (_, _) => 0;
    child := SplitRows(parent, |target|, f, rotation);
    SplitConservesCells(parent, |target|, f, rotation);
    AggregationIsParentDispatch(parent, child, target, f, 0, source[e]);
    UnitTo(parent[0], e, ParentMap(target, f), source[e], source[e] + 1, |target|);
    UnitTo(parent[0], e, source, source[e], source[e] + 1, |target|);
  }

  /** With the balanced mapping on both sides the projection always commutes with aggregation. */
  lemma BalancedCommutes(experts: nat, world: nat, f: nat)
    requires f > 0 && world > 0 && experts >= world * f
    ensures world * f > 0 && experts >= world
    ensures Commutes(BalancedExpertMapping(experts, world).value, BalancedExpertMapping(experts, world * f).value,
            world, f)
  {
    MulMonotone(world, 1, f);
    var source, target := BalancedExpertMapping(experts, world).value, BalancedExpertMapping(experts, world * f).value;
    forall e: nat | e < experts
      ensures source[e] < world && target[e] < world * f && target[e] / f == source[e]
    {
      MappingRefines(e, experts, world, f);
      HomeInRange(e, experts, world);
      HomeInRange(e, experts, world * f);
    }
    assert ParentMap(target, f) == source;
    CommutesIffRefines(source, target, world, f);
  }
}
