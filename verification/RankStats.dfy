// Ranks and quantiles.
module RankStats {
  // Tie-averaged ranks, and quantiles by interpolation.

  import opened Wrappers
  import opened RealArith
  import opened Totals
  import opened Sorting

  // ------------------------------------------------------------------------- ranks

  // Twice the average rank of a value: values below it, plus values at most it, plus one.
  function TwiceRank(values: seq<real>, t: real): int {
    Total(Under(values, t), |values|) + Total(AtMost(values, t), |values|) + 1
  }

  /** The average of the places that the ties of a value occupy in sorted order, from 1. */
  function AverageRank(values: seq<real>, i: nat): real
    requires i < |values|
  {
    TwiceRank(values, values[i]) as real / 2.0
  }

  function AverageRanks(values: seq<real>): (ranks: seq<real>)
    ensures |ranks| == |values|
  {
    seq(|values|, i requires 0 <= i < |values| => AverageRank(values, i))
  }

  // Whether a run of equal values starts at this place.
  predicate GroupStart(values: seq<real>, order: seq<nat>, k: nat)
    requires Arranges(values, order) && k <= |order|
  {
    k == 0 || k == |order| || values[order[k - 1]] < values[order[k]]
  }

  lemma GroupRank(values: seq<real>, order: seq<nat>, cursor: nat, end: nat, k: nat)
    requires Arranges(values, order) && cursor <= k < end <= |order|
    requires GroupStart(values, order, cursor) && GroupStart(values, order, end)
    requires forall j | cursor <= j < end :: values[order[j]] == values[order[cursor]]
    ensures AverageRank(values, order[k]) == (cursor + end - 1) as real / 2.0 + 1.0
  {
    var t := values[order[cursor]];
    forall j | 0 <= j < cursor
      ensures values[order[j]] < t
    {
      assert values[order[j]] <= values[order[cursor - 1]];
    }
    forall j | end <= j < |order|
      ensures values[order[j]] > t
    {
      assert values[order[end]] <= values[order[j]];
    }
    CountsAtGroup(values, order, t, cursor, end);
  }

  /** The cursor loop computes the average rank of every value, whatever order ties are sorted in. */
  method Rank(values: seq<real>, order: seq<nat>) returns (ranks: seq<real>)
    requires Arranges(values, order)
    ensures ranks == AverageRanks(values)
  {
    ranks := seq(|values|, _ => 0.0);
    var cursor := 0;
    while cursor < |order|
      invariant cursor <= |order| && |ranks| == |values| && GroupStart(values, order, cursor)
      invariant forall k | 0 <= k < cursor :: ranks[order[k]] == AverageRank(values, order[k])
      decreases |order| - cursor
    {
      var end := cursor + 1;
      while end < |order| && values[order[end]] == values[order[cursor]]
        invariant cursor < end <= |order|
        invariant forall j | cursor <= j < end :: values[order[j]] == values[order[cursor]]
      {
        end := end + 1;
      }
      var rank := (cursor + end - 1) as real / 2.0 + 1.0;
      for k := cursor to end
        invariant |ranks| == |values|
        invariant forall j | 0 <= j < k :: ranks[order[j]] == AverageRank(values, order[j])
      {
        GroupRank(values, order, cursor, end, k);
        ranks := ranks[order[k] := rank];
      }
      cursor := end;
    }
    DistinctCover(order, |order|);
    forall i: nat | i < |values|
      ensures ranks[i] == AverageRank(values, i)
    {
      assert i in order;
    }
  }

  /** Sorting first, stably or not, the ranks are the average ranks. */
  method RankValues(values: seq<real>) returns (ranks: seq<real>)
    ensures ranks == AverageRanks(values)
  {
    ranks := Rank(values, SortedPositions(values, |values|));
  }

  /** Ranks follow the order of the values exactly, and lie between 1 and the number of values. */
  lemma RanksFollowOrder(values: seq<real>, i: nat, j: nat)
    requires i < |values| && j < |values|
    ensures AverageRank(values, i) < AverageRank(values, j) <==> values[i] < values[j]
    ensures AverageRank(values, i) == AverageRank(values, j) <==> values[i] == values[j]
    ensures 1.0 <= AverageRank(values, i) <= |values| as real
  {
    StrictlyHigher(values, i, j);
    StrictlyHigher(values, j, i);
    RankRange(values, i);
  }

  lemma StrictlyHigher(values: seq<real>, i: nat, j: nat)
    requires i < |values| && j < |values|
    ensures values[i] < values[j] ==> TwiceRank(values, values[i]) < TwiceRank(values, values[j])
  {
    if values[i] < values[j] {
      var n, low, high := |values|, AtMost(values, values[i]), Under(values, values[j]);
      TotalAtMost(low, high, n);
      OneBelow(values, i, n);
      OneBelow(values, j, n);
    }
  }

  lemma {:induction false} OneBelow(values: seq<real>, i: nat, n: nat)
    requires i < |values| && n <= |values|
    ensures Total(Under(values, values[i]), n) + (if i < n then 1 else 0) <= Total(AtMost(values, values[i]), n)
  {
    if n > 0 { OneBelow(values, i, n - 1); }
  }

  lemma RankRange(values: seq<real>, i: nat)
    requires i < |values|
    ensures 2 <= TwiceRank(values, values[i]) <= 2 * |values|
  {
    var n := |values|;
    OneBelow(values, i, n);
    TotalAtMost(AtMost(values, values[i]), IndexBelow(n), n);
    TotalAtMost(IndexBelow(0), Under(values, values[i]), n);
    CountIndices(n, n);
    CountIndices(0, n);
  }

  /** Only the order of the values matters: any strictly increasing change of scale keeps the ranks. */
  lemma RanksScaleFree(values: seq<real>, scaled: seq<real>)
    requires |values| == |scaled|
    requires forall i, j | 0 <= i < |values| && 0 <= j < |values| :: values[i] < values[j] <==> scaled[i] < scaled[j]
    ensures AverageRanks(values) == AverageRanks(scaled)
  {
    forall i | 0 <= i < |values|
      ensures AverageRank(values, i) == AverageRank(scaled, i)
    {
      TotalEqual(Under(values, values[i]), Under(scaled, scaled[i]), |values|);
      TotalEqual(AtMost(values, values[i]), AtMost(scaled, scaled[i]), |values|);
    }
  }

  // Values that fall where others rise: what lies below one lies above the other.
  lemma OppositeCounts(values: seq<real>, falling: seq<real>, i: nat)
    requires |values| == |falling| && i < |values|
    requires forall i, j | 0 <= i < |values| && 0 <= j < |values| :: values[i] < values[j] <==> falling[j] < falling[i]
    ensures Total(Under(values, values[i]), |values|) + Total(AtMost(falling, falling[i]), |values|) == |values|
  {
    var n := |values|;
    forall j: nat | j < n
      ensures Constant(1)(j) == Under(values, values[i])(j) + AtMost(falling, falling[i])(j)
    {
    }
    TotalAdd(Under(values, values[i]), AtMost(falling, falling[i]), Constant(1), n);
    TotalConstant(1, n);
  }

  /** Turning the order round turns the ranks round, ties included. */
  lemma RanksTurnRound(values: seq<real>, falling: seq<real>, i: nat)
    requires |values| == |falling| && i < |values|
    requires forall i, j | 0 <= i < |values| && 0 <= j < |values| :: values[i] < values[j] <==> falling[j] < falling[i]
    ensures AverageRank(values, i) + AverageRank(falling, i) == (|values| + 1) as real
  {
    OppositeCounts(values, falling, i);
    OppositeCounts(falling, values, i);
  }

  function Less(values: seq<real>): Weight {
    (i: nat, j: nat) => if i < |values| && j < |values| && values[j] < values[i] then 1 else 0
  }

  function LessEqual(values: seq<real>): Weight {
    (i: nat, j: nat) => if i < |values| && j < |values| && values[j] <= values[i] then 1 else 0
  }

  function TwiceRanks(values: seq<real>): nat -> int {
    (i: nat) => if i < |values| then TwiceRank(values, values[i]) else 0
  }

  function Constant(c: int): nat -> int { (_: nat) => c }

  lemma {:induction false} TotalConstant(c: int, n: nat)
    ensures Total(Constant(c), n) == c * n
  {
    if n > 0 {
      TotalConstant(c, n - 1);
      assert c * n == c * (n - 1) + c;
    }
  }

  // Every pair is counted once: as at most, or as strictly less the other way round.
  lemma PairsCovered(values: seq<real>)
    ensures var n := |values|;
            Total(RowTotals(Less(values), n), n) + Total(RowTotals(LessEqual(values), n), n) == n * n
  {
    var n := |values|;
    var rows, cols := RowTotals(LessEqual(values), n), ColTotals(Less(values), n);
    Exchange(Less(values), n, n);
    forall i: nat | i < n
      ensures Constant(n)(i) == rows(i) + cols(i)
    {
      TotalAdd(RowOf(LessEqual(values), i), ColOf(Less(values), i), Constant(1), n);
      TotalConstant(1, n);
    }
    TotalAdd(rows, cols, Constant(n), n);
    TotalConstant(n, n);
  }

  lemma TwiceRanksSum(values: seq<real>)
    ensures Total(TwiceRanks(values), |values|) == |values| * |values| + |values|
  {
    var n := |values|;
    var less, lessEqual := RowTotals(Less(values), n), RowTotals(LessEqual(values), n);
    var both: nat -> int := (i: nat) => less(i) + lessEqual(i);
    forall i: nat | i < n
      ensures TwiceRanks(values)(i) == both(i) + Constant(1)(i)
    {
      TotalEqual(Under(values, values[i]), RowOf(Less(values), i), n);
      TotalEqual(AtMost(values, values[i]), RowOf(LessEqual(values), i), n);
    }
    TotalAdd(both, Constant(1), TwiceRanks(values), n);
    TotalAdd(less, lessEqual, both, n);
    TotalConstant(1, n);
    PairsCovered(values);
  }

  function RealSum(s: seq<real>, k: nat): real
    requires k <= |s|
  {
    if k == 0 then 0.0 else RealSum(s, k - 1) + s[k - 1]
  }

  lemma {:induction false} HalvesAddUp(values: seq<real>, k: nat)
    requires k <= |values|
    ensures RealSum(AverageRanks(values), k) == Total(TwiceRanks(values), k) as real / 2.0
  {
    if k > 0 { HalvesAddUp(values, k - 1); }
  }

  /** Ties share their places, so the ranks always add up to n(n+1)/2. */
  lemma RanksSum(values: seq<real>)
    ensures RealSum(AverageRanks(values), |values|) == (|values| * |values| + |values|) as real / 2.0
  {
    HalvesAddUp(values, |values|);
    TwiceRanksSum(values);
  }

  // ---------------------------------------------------------------------- quantiles

  predicate Nondecreasing(s: seq<real>) {
    forall i, j | 0 <= i <= j < |s| :: s[i] <= s[j]
  }

  function Mix(a: real, b: real, frac: real): real { a * (1.0 - frac) + b * frac }

  // Linear interpolation at a fractional place.
  function Interpolate(ordered: seq<real>, pos: real): real
    requires 0.0 <= pos <= (|ordered| - 1) as real
  {
    var lo := pos.Floor;
    if lo as real == pos then ordered[lo] else Mix(ordered[lo], ordered[lo + 1], pos - lo as real)
  }

  /** The q-quantile of sorted data, absent for no data. */
  function Quantile(ordered: seq<real>, q: real): Option<real>
    requires 0.0 <= q <= 1.0
  {
    if ordered == [] then None
    else if |ordered| == 1 then Some(ordered[0])
    else (PlaceInRange(|ordered| - 1, q); Some(Interpolate(ordered, (|ordered| - 1) as real * q)))
  }

  lemma PlaceInRange(last: nat, q: real)
    requires 0.0 <= q <= 1.0
    ensures 0.0 <= last as real * q <= last as real
  {
    Scale(q, 1.0, last as real);
  }

  lemma PlaceMonotone(last: nat, q: real, q': real, pos: real, pos': real)
    requires q <= q' && pos == last as real * q && pos' == last as real * q'
    ensures pos <= pos'
  {
    Scale(q, q', last as real);
  }

  lemma MixBetween(a: real, b: real, frac: real)
    requires a <= b && 0.0 <= frac <= 1.0
    ensures a <= Mix(a, b, frac) <= b
  {
    assert Mix(a, b, frac) == a + (b - a) * frac;
    NonNegativeProduct(b - a, frac);
    Scale(frac, 1.0, b - a);
  }

  lemma MixMonotone(a: real, b: real, frac: real, frac': real)
    requires a <= b && frac <= frac'
    ensures Mix(a, b, frac) <= Mix(a, b, frac')
  {
    assert Mix(a, b, frac') - Mix(a, b, frac) == (b - a) * (frac' - frac);
    NonNegativeProduct(b - a, frac' - frac);
  }

  lemma MixPointwise(a: real, b: real, c: real, d: real, frac: real)
    requires a <= c && b <= d && 0.0 <= frac <= 1.0
    ensures Mix(a, b, frac) <= Mix(c, d, frac)
  {
    assert Mix(c, d, frac) - Mix(a, b, frac) == (c - a) * (1.0 - frac) + (d - b) * frac;
    NonNegativeProduct(c - a, 1.0 - frac);
    NonNegativeProduct(d - b, frac);
  }

  // Between the values at the places around it.
  lemma InterpolateLocal(ordered: seq<real>, pos: real)
    requires Nondecreasing(ordered) && 0.0 <= pos <= (|ordered| - 1) as real
    ensures ordered[pos.Floor] <= Interpolate(ordered, pos)
    ensures Interpolate(ordered, pos) <= if pos.Floor + 1 < |ordered| then ordered[pos.Floor + 1]
            else ordered[pos.Floor]
  {
    var lo := pos.Floor;
    if lo as real != pos { MixBetween(ordered[lo], ordered[lo + 1], pos - lo as real); }
  }

  lemma InterpolateMonotone(ordered: seq<real>, pos: real, pos': real)
    requires Nondecreasing(ordered) && 0.0 <= pos <= pos' <= (|ordered| - 1) as real
    ensures Interpolate(ordered, pos) <= Interpolate(ordered, pos')
  {
    var lo, lo' := pos.Floor, pos'.Floor;
    InterpolateLocal(ordered, pos);
    InterpolateLocal(ordered, pos');
    if lo == lo' && lo as real != pos {
      MixMonotone(ordered[lo], ordered[lo + 1], pos - lo as real, pos' - lo as real);
    }
  }

  lemma QuantileAt(ordered: seq<real>, q: real, pos: real)
    requires |ordered| > 1 && 0.0 <= q <= 1.0 && pos == (|ordered| - 1) as real * q
    ensures 0.0 <= pos <= (|ordered| - 1) as real && Quantile(ordered, q) == Some(Interpolate(ordered, pos))
  {
    PlaceInRange(|ordered| - 1, q);
  }

  lemma InterpolateBounds(ordered: seq<real>, pos: real)
    requires Nondecreasing(ordered) && 0.0 <= pos <= (|ordered| - 1) as real
    ensures ordered[0] <= Interpolate(ordered, pos) <= ordered[|ordered| - 1]
  {
    InterpolateLocal(ordered, pos);
  }

  /** Quantiles rise with q and stay between the smallest and the largest value. */
  lemma QuantileMonotone(ordered: seq<real>, q: real, q': real)
    requires Nondecreasing(ordered) && ordered != [] && 0.0 <= q <= q' <= 1.0
    ensures Quantile(ordered, q).Some? && Quantile(ordered, q').Some?
    ensures ordered[0] <= Quantile(ordered, q).value <= Quantile(ordered, q').value <= ordered[|ordered| - 1]
  {
    if |ordered| > 1 {
      var last := |ordered| - 1;
      var pos, pos' := last as real * q, last as real * q';
      QuantileAt(ordered, q, pos);
      QuantileAt(ordered, q', pos');
      PlaceMonotone(last, q, q', pos, pos');
      InterpolateMonotone(ordered, pos, pos');
      InterpolateBounds(ordered, pos);
      InterpolateBounds(ordered, pos');
    }
  }

  /** The extreme quantiles are the smallest and the largest value. */
  lemma QuantileExtremes(ordered: seq<real>)
    requires ordered != []
    ensures Quantile(ordered, 0.0) == Some(ordered[0]) && Quantile(ordered, 1.0) == Some(ordered[|ordered| - 1])
  {
    if |ordered| > 1 {
      QuantileAt(ordered, 0.0, 0.0);
      QuantileAt(ordered, 1.0, (|ordered| - 1) as real);
    }
  }

  lemma InterpolatePointwise(xs: seq<real>, ys: seq<real>, pos: real)
    requires |xs| == |ys| && 0.0 <= pos <= (|xs| - 1) as real && forall k | 0 <= k < |xs| :: xs[k] <= ys[k]
    ensures Interpolate(xs, pos) <= Interpolate(ys, pos)
  {
    var lo := pos.Floor;
    if lo as real != pos { MixPointwise(xs[lo], xs[lo + 1], ys[lo], ys[lo + 1], pos - lo as real); }
  }

  lemma QuantileOrdered(a: seq<real>, b: seq<real>, q: real)
    requires |a| == |b| > 0 && 0.0 <= q <= 1.0 && forall k | 0 <= k < |a| :: a[k] <= b[k]
    ensures Quantile(a, q).Some? && Quantile(b, q).Some? && Quantile(a, q).value <= Quantile(b, q).value
  {
    if |a| > 1 {
      var pos := (|a| - 1) as real * q;
      QuantileAt(a, q, pos);
      QuantileAt(b, q, pos);
      InterpolatePointwise(a, b, pos);
    }
  }

  /** Raising every sample raises every quantile. */
  lemma QuantilePointwise(xs: seq<real>, xorder: seq<nat>, ys: seq<real>, yorder: seq<nat>, q: real)
    requires Arranges(xs, xorder) && Arranges(ys, yorder) && |xs| == |ys| > 0 && 0.0 <= q <= 1.0
    requires forall i | 0 <= i < |xs| :: xs[i] <= ys[i]
    ensures Quantile(Arranged(xs, xorder), q).Some? && Quantile(Arranged(ys, yorder), q).Some?
    ensures Quantile(Arranged(xs, xorder), q).value <= Quantile(Arranged(ys, yorder), q).value
  {
    var a, b := Arranged(xs, xorder), Arranged(ys, yorder);
    forall k: nat | k < |xs|
      ensures a[k] <= b[k]
    {
      OrderStatisticsMonotone(xs, xorder, ys, yorder, k);
    }
    QuantileOrdered(a, b, q);
  }

  // The library's median: the middle value, or the mean of the two middle values.
  function Median(ordered: seq<real>): real
    requires ordered != []
  {
    var n := |ordered|;
    if n % 2 == 1 then ordered[n / 2] else (ordered[n / 2 - 1] + ordered[n / 2]) / 2.0
  }

  lemma MiddlePlace(last: nat, half: nat)
    requires last == 2 * half || last == 2 * half + 1
    ensures (last as real * 0.5).Floor == half
    ensures last as real * 0.5 == half as real + (if last == 2 * half then 0.0 else 0.5)
  {
  }

  /** The half quantile is the median. */
  lemma QuantileHalfIsMedian(ordered: seq<real>)
    requires ordered != []
    ensures Quantile(ordered, 0.5) == Some(Median(ordered))
  {
    if |ordered| > 1 {
      var last := |ordered| - 1;
      PlaceInRange(last, 0.5);
      MiddlePlace(last, last / 2);
      var a, b := ordered[last / 2], ordered[(last + 1) / 2];
      assert Mix(a, b, 0.5) == (a + b) / 2.0;
    }
  }
}
