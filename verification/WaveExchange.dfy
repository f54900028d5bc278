// The exchange split into waves.
module WaveExchange {
  // Offset bookkeeping of planned flows, the coverage check, and what every rank holds
  // once all flows are delivered.

  import opened Transfers
  import opened Exchange

  datatype PlannedFlow = PlannedFlow(src: nat, dst: nat, rows: nat)

  // A plan is the flows of all waves in order; a planned flow always carries rows.
  ghost predicate ValidPlan(plan: seq<PlannedFlow>, n: nat) {
    forall k | 0 <= k < |plan| :: plan[k].src < n && plan[k].dst < n && plan[k].rows > 0
  }

  // ------------------------------------------------------------- plan from waves

  function CellFlows(m: Matrix, s: nat, cols: nat): seq<PlannedFlow>
    requires s < |m| && cols <= |m[s]|
  {
    if cols == 0 then []
    else CellFlows(m, s, cols - 1) + (if m[s][cols - 1] > 0 then [PlannedFlow(s, cols - 1, m[s][cols - 1])] else [])
  }

  function WaveFlows(m: Matrix, rows: nat): seq<PlannedFlow>
    requires rows <= |m|
  {
    if rows == 0 then [] else WaveFlows(m, rows - 1) + CellFlows(m, rows - 1, |m[rows - 1]|)
  }

  function PlanUpTo(waves: seq<Matrix>, k: nat): seq<PlannedFlow>
    requires k <= |waves|
  {
    if k == 0 then [] else PlanUpTo(waves, k - 1) + WaveFlows(waves[k - 1], |waves[k - 1]|)
  }

  function PlanOf(waves: seq<Matrix>): seq<PlannedFlow> {
    PlanUpTo(waves, |waves|)
  }

  /** Rows the first k flows move from s to d. */
  function PairRows(plan: seq<PlannedFlow>, s: nat, d: nat, k: nat): nat
    requires k <= |plan|
  {
    if k == 0 then 0
    else PairRows(plan, s, d, k - 1) + (if plan[k - 1].src == s && plan[k - 1].dst == d then plan[k - 1].rows else 0)
  }

  /** Rows the first k flows take from s, whatever their destination. */
  function SourceProgress(plan: seq<PlannedFlow>, s: nat, k: nat): nat
    requires k <= |plan|
  {
    if k == 0 then 0 else SourceProgress(plan, s, k - 1) + (if plan[k - 1].src == s then plan[k - 1].rows else 0)
  }

  /** The row counts a plan adds up to. */
  function Aggregate(plan: seq<PlannedFlow>, n: nat): (m: Matrix)
    ensures Square(m, n)
    ensures forall s, d | 0 <= s < n && 0 <= d < n :: m[s][d] == PairRows(plan, s, d, |plan|)
  {
    seq(n, s requires 0 <= s < n => seq(n, d requires 0 <= d < n => PairRows(plan, s, d, |plan|)))
  }

  lemma {:induction false} PairRowsConcat(a: seq<PlannedFlow>, b: seq<PlannedFlow>, s: nat, d: nat, k: nat)
    requires k <= |b|
    ensures PairRows(a + b, s, d, |a| + k) == PairRows(a, s, d, |a|) + PairRows(b, s, d, k)
  {
    if k == 0 {
      PairRowsPrefix(a, b, s, d, |a|);
    } else {
      PairRowsConcat(a, b, s, d, k - 1);
    }
  }

  lemma {:induction false} PairRowsPrefix(a: seq<PlannedFlow>, b: seq<PlannedFlow>, s: nat, d: nat, k: nat)
    requires k <= |a|
    ensures PairRows(a + b, s, d, k) == PairRows(a, s, d, k)
  {
    if k > 0 { PairRowsPrefix(a, b, s, d, k - 1); }
  }

  lemma {:induction false} CellFlowsRows(m: Matrix, r: nat, cols: nat, s: nat, d: nat)
    requires Square(m, |m|) && r < |m| && cols <= |m|
    ensures PairRows(CellFlows(m, r, cols), s, d, |CellFlows(m, r, cols)|) == if s == r && d < cols then m[r][d] else 0
  {
    if cols > 0 {
      CellFlowsRows(m, r, cols - 1, s, d);
      var last := if m[r][cols - 1] > 0 then [PlannedFlow(r, cols - 1, m[r][cols - 1])] else [];
      PairRowsConcat(CellFlows(m, r, cols - 1), last, s, d, |last|);
      assert CellFlows(m, r, cols) == CellFlows(m, r, cols - 1) + last;
      hide CellFlows;
      assert PairRows(last, s, d, |last|) == if s == r && d == cols - 1 then m[r][d] else 0;
    }
  }

  lemma {:induction false} WaveFlowsRows(m: Matrix, rows: nat, s: nat, d: nat)
    requires Square(m, |m|) && rows <= |m|
    ensures PairRows(WaveFlows(m, rows), s, d, |WaveFlows(m, rows)|) == if s < rows && d < |m| then m[s][d] else 0
  {
    if rows > 0 {
      WaveFlowsRows(m, rows - 1, s, d);
      CellFlowsRows(m, rows - 1, |m|, s, d);
      var row := CellFlows(m, rows - 1, |m|);
      PairRowsConcat(WaveFlows(m, rows - 1), row, s, d, |row|);
    }
  }

  /** Entry-wise sum of the first k wave matrices. */
  function WaveSum(waves: seq<Matrix>, n: nat, s: nat, d: nat, k: nat): nat
    requires s < n && d < n && k <= |waves| && forall w | 0 <= w < |waves| :: Square(waves[w], n)
  {
    if k == 0 then 0
    else
      assert Square(waves[k - 1], n);
      WaveSum(waves, n, s, d, k - 1) + waves[k - 1][s][d]
  }

  lemma {:induction false} PrefixMovesWaveSum(waves: seq<Matrix>, n: nat, s: nat, d: nat, k: nat)
    requires s < n && d < n && k <= |waves| && forall w | 0 <= w < |waves| :: Square(waves[w], n)
    ensures PairRows(PlanUpTo(waves, k), s, d, |PlanUpTo(waves, k)|) == WaveSum(waves, n, s, d, k)
  {
    if k > 0 {
      var last := waves[k - 1];
      assert Square(last, n);
      PrefixMovesWaveSum(waves, n, s, d, k - 1);
      WaveFlowsRows(last, n, s, d);
      PairRowsConcat(PlanUpTo(waves, k - 1), WaveFlows(last, n), s, d, |WaveFlows(last, n)|);
    }
  }

  /** A plan built from wave matrices moves exactly their sum. */
  lemma PlanMovesWaveSum(waves: seq<Matrix>, n: nat, s: nat, d: nat)
    requires s < n && d < n && forall w | 0 <= w < |waves| :: Square(waves[w], n)
    ensures Aggregate(PlanOf(waves), n)[s][d] == WaveSum(waves, n, s, d, |waves|)
  {
    PrefixMovesWaveSum(waves, n, s, d, |waves|);
  }

  // ------------------------------------------------------------- offsets

  /** One pass over the plan gives every flow its offset in the source buffer. */
  method FlowSourceOffsets(plan: seq<PlannedFlow>, n: nat) returns (offsets: seq<nat>)
    requires ValidPlan(plan, n)
    ensures |offsets| == |plan|
    ensures forall k {:trigger offsets[k]} | 0 <= k < |plan| :: offsets[k] == WaveOffset(plan, k)
  {
    var table := new nat[|plan|];
    var progress := new nat[n](_ => 0);
    for k := 0 to |plan|
      invariant forall s | 0 <= s < n :: progress[s] == SourceProgress(plan, s, k)
      invariant forall j {:trigger table[j]} | 0 <= j < k :: table[j] == WaveOffset(plan, j)
    {
      table[k] := progress[plan[k].src];
      progress[plan[k].src] := progress[plan[k].src] + plan[k].rows;
    }
    offsets := table[..];
  }

  // Where flow k starts inside its peer's segment at the receiver.
  function RecvOffset(plan: seq<PlannedFlow>, k: nat): nat
    requires k < |plan|
  {
    PairRows(plan, plan[k].src, plan[k].dst, k)
  }

  /** Receive offsets within the segment of each peer, for the flows addressed to `local`. */
  method RecvOffsets(plan: seq<PlannedFlow>, n: nat, local: nat) returns (offsets: seq<nat>)
    requires ValidPlan(plan, n)
    ensures |offsets| == |plan|
    ensures forall k {:trigger offsets[k]} | 0 <= k < |plan| && plan[k].dst == local ::
            offsets[k] == RecvOffset(plan, k)
  {
    var table := new nat[|plan|];
    var received := new nat[n](_ => 0);
    for k := 0 to |plan|
      invariant forall s | 0 <= s < n :: received[s] == PairRows(plan, s, local, k)
      invariant forall j {:trigger table[j]} | 0 <= j < k && plan[j].dst == local :: table[j] == RecvOffset(plan, j)
    {
      ReceivedStep(plan, n, local, k);
      if plan[k].dst == local {
        table[k] := received[plan[k].src];
        received[plan[k].src] := received[plan[k].src] + plan[k].rows;
      }
    }
    offsets := table[..];
  }

  lemma ReceivedStep(plan: seq<PlannedFlow>, n: nat, local: nat, k: nat)
    requires ValidPlan(plan, n) && k < |plan|
    ensures forall s | 0 <= s < n ::
              PairRows(plan, s, local, k + 1) ==
                  PairRows(plan, s, local, k) + (if plan[k].src == s && plan[k].dst == local then plan[k].rows else 0)
    ensures plan[k].dst == local ==> RecvOffset(plan, k) == PairRows(plan, plan[k].src, local, k)
  {
  }

  // The first k rows of a segment are covered once, the others not at all.
  ghost predicate CoveredTo(coverage: array<nat>, k: nat)
    reads coverage
  {
    forall i | 0 <= i < coverage.Length :: coverage[i] == if i < k then 1 else 0
  }

  // Counts one more cover for the rows of a slice, unless it leaves the segment.
  method Cover(coverage: array<nat>, lo: nat, rows: nat) returns (fits: bool)
    requires CoveredTo(coverage, lo)
    modifies coverage
    ensures fits <==> lo + rows <= coverage.Length
    ensures fits ==> CoveredTo(coverage, lo + rows)
  {
    fits := lo + rows <= coverage.Length;
    if fits {
      for i := lo to lo + rows
        invariant CoveredTo(coverage, i)
      {
        coverage[i] := coverage[i] + 1;
      }
    }
  }

  method AllOnes(coverage: array<nat>, ghost k: nat) returns (ok: bool)
    requires CoveredTo(coverage, k) && k <= coverage.Length
    ensures ok <==> k == coverage.Length
  {
    ok := true;
    for i := 0 to coverage.Length
      invariant ok <==> i <= k
    {
      if coverage[i] != 1 { ok := false; }
    }
  }

  /** The coverage check of one peer's receive segment accepts exactly the declared row count. */
  method CheckCoverage(plan: seq<PlannedFlow>, n: nat, src: nat, local: nat, expected: nat) returns (ok: bool)
    requires ValidPlan(plan, n)
    ensures ok <==> PairRows(plan, src, local, |plan|) == expected
  {
    var offsets := RecvOffsets(plan, n, local);
    var coverage := new nat[expected](_ => 0);
    for k := 0 to |plan|
      invariant PairRows(plan, src, local, k) <= expected && CoveredTo(coverage, PairRows(plan, src, local, k))
    {
      if plan[k].src == src && plan[k].dst == local {
        PairRowsMonotone(plan, src, local, k + 1, |plan|);
        var fits := Cover(coverage, offsets[k], plan[k].rows);
        if !fits { return false; }
      }
    }
    ok := AllOnes(coverage, PairRows(plan, src, local, |plan|));
  }

  lemma PairRowsMonotone(plan: seq<PlannedFlow>, s: nat, d: nat, j: nat, k: nat)
    requires j <= k <= |plan|
    ensures PairRows(plan, s, d, j) <= PairRows(plan, s, d, k)
  {
    if j < k { PairRowsMonotone(plan, s, d, j, k - 1); }
  }

  // Where the executor reads flow k: after everything its source has sent so far.
  function WaveOffset(plan: seq<PlannedFlow>, k: nat): nat
    requires k < |plan|
  {
    SourceProgress(plan, plan[k].src, k)
  }

  // Where the one-shot layout keeps those rows: in the segment of their destination.
  function PeerOffset(plan: seq<PlannedFlow>, n: nat, k: nat): nat
    requires ValidPlan(plan, n) && k < |plan|
  {
    RowPrefix(Aggregate(plan, n), plan[k].src, plan[k].dst) + RecvOffset(plan, k)
  }

  function WaveOffsets(plan: seq<PlannedFlow>): seq<nat> {
    seq(|plan|, k requires 0 <= k < |plan| => WaveOffset(plan, k))
  }

  function PeerOffsets(plan: seq<PlannedFlow>, n: nat): seq<nat>
    requires ValidPlan(plan, n)
  {
    seq(|plan|, k requires 0 <= k < |plan| => PeerOffset(plan, n, k))
  }

  // Where flow k lands in its receiver's buffer.
  function TargetOffset(plan: seq<PlannedFlow>, n: nat, k: nat): nat
    requires ValidPlan(plan, n) && k < |plan|
  {
    ColPrefix(Aggregate(plan, n), plan[k].dst, plan[k].src) + RecvOffset(plan, k)
  }

  /** Rows the first k flows take from s to destinations below e. */
  function Below(plan: seq<PlannedFlow>, s: nat, e: nat, k: nat): nat
    requires k <= |plan|
  {
    if k == 0 then 0
    else Below(plan, s, e, k - 1) + (if plan[k - 1].src == s && plan[k - 1].dst < e then plan[k - 1].rows else 0)
  }

  lemma BelowStep(plan: seq<PlannedFlow>, s: nat, e: nat, k: nat)
    requires k <= |plan|
    ensures Below(plan, s, 0, k) == 0
    ensures Below(plan, s, e + 1, k) == Below(plan, s, e, k) + PairRows(plan, s, e, k)
  {
    if k > 0 { BelowStep(plan, s, e, k - 1); }
  }

  lemma RowPrefixIsBelow(plan: seq<PlannedFlow>, n: nat, s: nat, e: nat)
    requires s < n && e <= n
    ensures RowPrefix(Aggregate(plan, n), s, e) == Below(plan, s, e, |plan|)
  {
    if e > 0 {
      RowPrefixIsBelow(plan, n, s, e - 1);
      BelowStep(plan, s, e - 1, |plan|);
    } else {
      BelowStep(plan, s, 0, |plan|);
    }
  }

  lemma BelowAllIsProgress(plan: seq<PlannedFlow>, n: nat, s: nat, k: nat)
    requires ValidPlan(plan, n) && k <= |plan|
    ensures Below(plan, s, n, k) == SourceProgress(plan, s, k)
  {
    if k > 0 { BelowAllIsProgress(plan, n, s, k - 1); }
  }

  lemma ProgressMonotone(plan: seq<PlannedFlow>, s: nat, j: nat, k: nat)
    requires j <= k <= |plan|
    ensures SourceProgress(plan, s, j) <= SourceProgress(plan, s, k)
  {
    if j < k { ProgressMonotone(plan, s, j, k - 1); }
  }

  /** Source slices tile every sender's buffer in plan order, whichever peers they go to. */
  lemma WaveSliceFits<T>(plan: seq<PlannedFlow>, n: nat, buffers: seq<seq<T>>, k: nat)
    requires ValidPlan(plan, n) && Fits(Aggregate(plan, n), buffers) && k < |plan|
    ensures WaveOffset(plan, k) + plan[k].rows == SourceProgress(plan, plan[k].src, k + 1) <= |buffers[plan[k].src]|
    ensures SourceProgress(plan, plan[k].src, |plan|) == |buffers[plan[k].src]|
  {
    ProgressMonotone(plan, plan[k].src, k + 1, |plan|);
    RowPrefixIsBelow(plan, n, plan[k].src, n);
    BelowAllIsProgress(plan, n, plan[k].src, |plan|);
  }

  lemma PeerSliceFits<T>(plan: seq<PlannedFlow>, n: nat, buffers: seq<seq<T>>, k: nat)
    requires ValidPlan(plan, n) && Fits(Aggregate(plan, n), buffers) && k < |plan|
    ensures PeerOffset(plan, n, k) + plan[k].rows <= RowPrefix(Aggregate(plan, n), plan[k].src, plan[k].dst + 1) <=
            |buffers[plan[k].src]|
  {
    PairRowsMonotone(plan, plan[k].src, plan[k].dst, k + 1, |plan|);
    RowPrefixMonotone(Aggregate(plan, n), plan[k].src, plan[k].dst + 1, n);
  }

  // ------------------------------------------------------------- executor output

  ghost predicate OffsetsFit<T>(plan: seq<PlannedFlow>, n: nat, buffers: seq<seq<T>>, offsets: seq<nat>) {
    && ValidPlan(plan, n) && |offsets| == |plan| && |buffers| == n
    && forall k | 0 <= k < |plan| :: offsets[k] + plan[k].rows <= |buffers[plan[k].src]|
  }

  /** What rank l holds in the segment of peer s after the first k flows. */
  function FromPeer<T>(plan: seq<PlannedFlow>, n: nat, buffers: seq<seq<T>>, offsets: seq<nat>, s: nat, l: nat,
                       k: nat): (rows: seq<T>)
    requires OffsetsFit(plan, n, buffers, offsets) && s < n && k <= |plan|
    ensures |rows| == PairRows(plan, s, l, k)
  {
    if k == 0 then []
    else FromPeer(plan, n, buffers, offsets, s, l, k - 1) +
         (if plan[k - 1].src == s && plan[k - 1].dst == l
            then buffers[s][offsets[k - 1]..offsets[k - 1] + plan[k - 1].rows] else [])
  }

  /** What rank l holds from its first s peers once all flows are delivered. */
  function Delivered<T>(plan: seq<PlannedFlow>, n: nat, buffers: seq<seq<T>>, offsets: seq<nat>, l: nat,
                        s: nat): (rows: seq<T>)
    requires OffsetsFit(plan, n, buffers, offsets) && l < n && s <= n
    ensures |rows| == ColPrefix(Aggregate(plan, n), l, s)
  {
    if s == 0 then []
    else Delivered(plan, n, buffers, offsets, l, s - 1) + FromPeer(plan, n, buffers, offsets, s - 1, l, |plan|)
  }

  lemma {:induction false} FromPeerAt<T>(plan: seq<PlannedFlow>, n: nat, buffers: seq<seq<T>>, offsets: seq<nat>,
                                         k: nat, r: nat, upTo: nat)
    requires OffsetsFit(plan, n, buffers, offsets) && k < upTo <= |plan| && r < plan[k].rows
    ensures var rows := FromPeer(plan, n, buffers, offsets, plan[k].src, plan[k].dst, upTo);
            RecvOffset(plan, k) + r < |rows| && rows[RecvOffset(plan, k) + r] == buffers[plan[k].src][offsets[k] + r]
  {
    PairRowsMonotone(plan, plan[k].src, plan[k].dst, k + 1, upTo);
    if k + 1 < upTo {
      PairRowsMonotone(plan, plan[k].src, plan[k].dst, k + 1, upTo - 1);
      FromPeerAt(plan, n, buffers, offsets, k, r, upTo - 1);
    }
  }

  lemma {:induction false} DeliveredFront<T>(plan: seq<PlannedFlow>, n: nat, buffers: seq<seq<T>>, offsets: seq<nat>,
                                             l: nat, s: nat, upTo: nat, p: nat)
    requires OffsetsFit(plan, n, buffers, offsets) && l < n && s <= upTo <= n && p < ColPrefix(Aggregate(plan, n), l, s)
    ensures ColPrefix(Aggregate(plan, n), l, s) <= ColPrefix(Aggregate(plan, n), l, upTo)
    ensures Delivered(plan, n, buffers, offsets, l, upTo)[p] == Delivered(plan, n, buffers, offsets, l, s)[p]
  {
    hide Aggregate, FromPeer, OffsetsFit;
    ColPrefixMonotone(Aggregate(plan, n), l, s, upTo);
    if s < upTo {
      DeliveredFront(plan, n, buffers, offsets, l, s, upTo - 1, p);
    }
  }

  // The segment of peer s follows those of the peers before.
  lemma SegmentAt<T>(plan: seq<PlannedFlow>, n: nat, buffers: seq<seq<T>>, offsets: seq<nat>, l: nat, s: nat, q: nat)
    requires OffsetsFit(plan, n, buffers, offsets) && l < n && s < n
    requires q < |FromPeer(plan, n, buffers, offsets, s, l, |plan|)|
    ensures var before := ColPrefix(Aggregate(plan, n), l, s);
            before + q < ColPrefix(Aggregate(plan, n), l, s + 1) &&
            Delivered(plan, n, buffers, offsets, l, s + 1)[before + q] ==
              FromPeer(plan, n, buffers, offsets, s, l, |plan|)[q]
  {
    hide FromPeer, OffsetsFit, Aggregate;
    var front := Delivered(plan, n, buffers, offsets, l, s);
    assert Delivered(plan, n, buffers, offsets, l, s + 1) == front + FromPeer(plan, n, buffers, offsets, s, l, |plan|);
  }

  /** Row r of flow k sits at its target offset. */
  lemma DeliveredAt<T>(plan: seq<PlannedFlow>, n: nat, buffers: seq<seq<T>>, offsets: seq<nat>, k: nat, r: nat)
    requires OffsetsFit(plan, n, buffers, offsets) && k < |plan| && r < plan[k].rows
    ensures var rows := Delivered(plan, n, buffers, offsets, plan[k].dst, n);
            TargetOffset(plan, n, k) + r < |rows| &&
                rows[TargetOffset(plan, n, k) + r] == buffers[plan[k].src][offsets[k] + r]
  {
    hide Delivered, FromPeer, Aggregate, PairRows, ColPrefix;
    var s, l := plan[k].src, plan[k].dst;
    FromPeerAt(plan, n, buffers, offsets, k, r, |plan|);
    SegmentAt(plan, n, buffers, offsets, l, s, RecvOffset(plan, k) + r);
    DeliveredFront(plan, n, buffers, offsets, l, s + 1, n, TargetOffset(plan, n, k) + r);
  }
}
