// Waves against one shot.
module WaveEquivalence {
  // When the wave-by-wave exchange delivers what the one-shot exchange would.

  import opened Transfers
  import opened Exchange
  import opened WaveExchange

  method CopyRows<T>(target: array<T>, offset: nat, rows: seq<T>)
    requires offset + |rows| <= target.Length
    modifies target
    ensures forall p | 0 <= p < target.Length ::
              target[p] == if offset <= p < offset + |rows| then rows[p - offset] else old(target[p])
  {
    for r := 0 to |rows|
      invariant forall p | 0 <= p < target.Length :: target[p] ==
                  if offset <= p < offset + r then rows[p - offset] else old(target[p])
    {
      target[offset + r] := rows[r];
    }
  }

  // The rows of flow k have reached their place.
  ghost predicate Arrived<T>(plan: seq<PlannedFlow>, n: nat, output: array<T>, goal: seq<T>, k: nat)
    requires ValidPlan(plan, n)
    reads output
  {
    && output.Length == |goal| && k < |plan| && TargetOffset(plan, n, k) + plan[k].rows <= |goal|
    && forall p | TargetOffset(plan, n, k) <= p < TargetOffset(plan, n, k) + plan[k].rows :: output[p] == goal[p]
  }

  lemma DeliveredSlice<T>(plan: seq<PlannedFlow>, n: nat, buffers: seq<seq<T>>, offsets: seq<nat>, k: nat)
    requires OffsetsFit(plan, n, buffers, offsets) && k < |plan|
    ensures var goal, target := Delivered(plan, n, buffers, offsets, plan[k].dst, n), TargetOffset(plan, n, k);
            && target + plan[k].rows <= |goal|
            && forall p | target <= p < target + plan[k].rows ::
                goal[p] == buffers[plan[k].src][offsets[k] + (p - target)]
  {
    DeliveredAt(plan, n, buffers, offsets, k, plan[k].rows - 1);
    var goal, target := Delivered(plan, n, buffers, offsets, plan[k].dst, n), TargetOffset(plan, n, k);
    forall p | target <= p < target + plan[k].rows
      ensures goal[p] == buffers[plan[k].src][offsets[k] + (p - target)]
    {
      DeliveredAt(plan, n, buffers, offsets, k, p - target);
    }
  }

  // Delivers one flow; rows already in place stay right.
  method DeliverFlow<T>(plan: seq<PlannedFlow>, n: nat, buffers: seq<seq<T>>, offsets: seq<nat>, output: array<T>,
                        k: nat)
    requires OffsetsFit(plan, n, buffers, offsets) && k < |plan|
    requires output.Length == |Delivered(plan, n, buffers, offsets, plan[k].dst, n)|
    modifies output
    ensures Arrived(plan, n, output, Delivered(plan, n, buffers, offsets, plan[k].dst, n), k)
    ensures forall p | 0 <= p < output.Length &&
            old(output[p]) == Delivered(plan, n, buffers, offsets, plan[k].dst, n)[p] ::
              output[p] == Delivered(plan, n, buffers, offsets, plan[k].dst, n)[p]
  {
    DeliveredSlice(plan, n, buffers, offsets, k);
    CopyRows(output, TargetOffset(plan, n, k), buffers[plan[k].src][offsets[k]..offsets[k] + plan[k].rows]);
  }

  /** Copies every flow addressed to one rank into its receive buffer, in whatever order they complete. */
  method ExecuteRank<T(0)>(plan: seq<PlannedFlow>, n: nat, buffers: seq<seq<T>>, offsets: seq<nat>, local: nat,
                       order: seq<nat>)
    returns (output: array<T>)
    requires OffsetsFit(plan, n, buffers, offsets) && local < n
    requires forall k: nat :: k in order <==> k < |plan| && plan[k].dst == local
    ensures fresh(output) && output[..] == Delivered(plan, n, buffers, offsets, local, n)
  {
    hide Delivered, TargetOffset, Aggregate, ColPrefix;
    ghost var goal := Delivered(plan, n, buffers, offsets, local, n);
    output := new T[ColPrefix(Aggregate(plan, n), local, n)];
    for i := 0 to |order|
      invariant forall j | 0 <= j < i :: Arrived(plan, n, output, goal, order[j])
    {
      assert order[i] in order;
      DeliverFlow(plan, n, buffers, offsets, output, order[i]);
    }
    forall p | 0 <= p < output.Length
      ensures output[p] == goal[p]
    {
      var k, r := RowSource(plan, n, local, p);
      assert k in order;
      var j :| 0 <= j < |order| && order[j] == k;
      assert Arrived(plan, n, output, goal, order[j]);
    }
  }

  /** Every row of a receive buffer belongs to some flow: the target slices leave no gap. */
  lemma RowSource(plan: seq<PlannedFlow>, n: nat, l: nat, p: nat) returns (k: nat, r: nat)
    requires ValidPlan(plan, n) && l < n && p < ColPrefix(Aggregate(plan, n), l, n)
    ensures k < |plan| && plan[k].dst == l && r < plan[k].rows && TargetOffset(plan, n, k) + r == p
  {
    var s := PeerOfRow(plan, n, l, n, p);
    k := FlowOfRow(plan, s, l, p - ColPrefix(Aggregate(plan, n), l, s), |plan|);
    r := p - TargetOffset(plan, n, k);
  }

  lemma PeerOfRow(plan: seq<PlannedFlow>, n: nat, l: nat, upTo: nat, p: nat) returns (s: nat)
    requires l < n && upTo <= n && p < ColPrefix(Aggregate(plan, n), l, upTo)
    ensures s < upTo && ColPrefix(Aggregate(plan, n), l, s) <= p < ColPrefix(Aggregate(plan, n), l, s + 1)
  {
    if ColPrefix(Aggregate(plan, n), l, upTo - 1) <= p {
      s := upTo - 1;
    } else {
      s := PeerOfRow(plan, n, l, upTo - 1, p);
    }
  }

  lemma FlowOfRow(plan: seq<PlannedFlow>, s: nat, l: nat, q: nat, upTo: nat) returns (k: nat)
    requires upTo <= |plan| && q < PairRows(plan, s, l, upTo)
    ensures k < upTo && plan[k].src == s && plan[k].dst == l &&
            RecvOffset(plan, k) <= q < RecvOffset(plan, k) + plan[k].rows
  {
    if PairRows(plan, s, l, upTo - 1) <= q {
      k := upTo - 1;
    } else {
      k := FlowOfRow(plan, s, l, q, upTo - 1);
    }
  }

  /** The target slices of different flows to one rank do not overlap. */
  lemma TargetsDisjoint(plan: seq<PlannedFlow>, n: nat, j: nat, k: nat)
    requires ValidPlan(plan, n) && j < |plan| && k < |plan| && j != k && plan[j].dst == plan[k].dst
    ensures TargetOffset(plan, n, j) + plan[j].rows <= TargetOffset(plan, n, k) ||
            TargetOffset(plan, n, k) + plan[k].rows <= TargetOffset(plan, n, j)
  {
    var m, l := Aggregate(plan, n), plan[j].dst;
    if plan[j].src == plan[k].src {
      if j < k {
        PairRowsMonotone(plan, plan[j].src, l, j + 1, k);
      } else {
        PairRowsMonotone(plan, plan[j].src, l, k + 1, j);
      }
    } else {
      PairRowsMonotone(plan, plan[j].src, l, j + 1, |plan|);
      PairRowsMonotone(plan, plan[k].src, l, k + 1, |plan|);
      if plan[j].src < plan[k].src {
        ColPrefixMonotone(m, l, plan[j].src + 1, plan[k].src);
      } else {
        ColPrefixMonotone(m, l, plan[k].src + 1, plan[j].src);
      }
    }
  }

  // ------------------------------------------------------ reading by destination

  lemma PeerOffsetsFit<T>(plan: seq<PlannedFlow>, n: nat, buffers: seq<seq<T>>)
    requires ValidPlan(plan, n) && Fits(Aggregate(plan, n), buffers)
    ensures OffsetsFit(plan, n, buffers, PeerOffsets(plan, n))
  {
    forall k | 0 <= k < |plan|
      ensures PeerOffsets(plan, n)[k] + plan[k].rows <= |buffers[plan[k].src]|
    {
      PeerSliceFits(plan, n, buffers, k);
    }
  }

  lemma WaveOffsetsFit<T>(plan: seq<PlannedFlow>, n: nat, buffers: seq<seq<T>>)
    requires ValidPlan(plan, n) && Fits(Aggregate(plan, n), buffers)
    ensures OffsetsFit(plan, n, buffers, WaveOffsets(plan))
  {
    forall k | 0 <= k < |plan|
      ensures WaveOffsets(plan)[k] + plan[k].rows <= |buffers[plan[k].src]|
    {
      WaveSliceFits(plan, n, buffers, k);
    }
  }

  lemma JoinSlices<T>(a: seq<T>, lo: nat, mid: nat, hi: nat)
    requires lo <= mid <= hi <= |a|
    ensures a[lo..mid] + a[mid..hi] == a[lo..hi]
  {
  }

  // Flow j, if it goes from s to l, is read right after the earlier ones.
  ghost predicate ReadInTurn(plan: seq<PlannedFlow>, offsets: seq<nat>, s: nat, l: nat, base: nat, j: nat)
    requires |offsets| == |plan| && j < |plan|
  {
    plan[j].src == s && plan[j].dst == l ==> offsets[j] == base + PairRows(plan, s, l, j)
  }

  lemma {:induction false} ContiguousReads<T>(plan: seq<PlannedFlow>, n: nat, buffers: seq<seq<T>>, offsets: seq<nat>,
                                              s: nat, l: nat, base: nat, k: nat)
    requires OffsetsFit(plan, n, buffers, offsets) && s < n && k <= |plan|
    requires base + PairRows(plan, s, l, k) <= |buffers[s]|
    requires forall j | 0 <= j < |plan| :: ReadInTurn(plan, offsets, s, l, base, j)
    ensures FromPeer(plan, n, buffers, offsets, s, l, k) == buffers[s][base..base + PairRows(plan, s, l, k)]
  {
    if k > 0 {
      PairRowsMonotone(plan, s, l, k - 1, k);
      ContiguousReads(plan, n, buffers, offsets, s, l, base, k - 1);
      var before := FromPeer(plan, n, buffers, offsets, s, l, k - 1);
      if plan[k - 1].src == s && plan[k - 1].dst == l {
        assert ReadInTurn(plan, offsets, s, l, base, k - 1);
        JoinSlices(buffers[s], base, base + PairRows(plan, s, l, k - 1), base + PairRows(plan, s, l, k));
      } else {
        assert before + [] == before;
      }
    }
  }

  lemma PeerReadsSegment<T>(plan: seq<PlannedFlow>, n: nat, m: Matrix, buffers: seq<seq<T>>, offsets: seq<nat>,
                            s: nat, l: nat)
    requires OffsetsFit(plan, n, buffers, offsets) && Fits(m, buffers) && s < n && l < n
    requires m[s][l] == PairRows(plan, s, l, |plan|)
    requires forall j | 0 <= j < |plan| :: ReadInTurn(plan, offsets, s, l, RowPrefix(m, s, l), j)
    ensures FromPeer(plan, n, buffers, offsets, s, l, |plan|) == Segment(m, buffers, s, l)
  {
    RowPrefixMonotone(m, s, l + 1, n);
    ContiguousReads(plan, n, buffers, offsets, s, l, RowPrefix(m, s, l), |plan|);
  }

  lemma PeerOffsetsInTurn(plan: seq<PlannedFlow>, n: nat, s: nat, l: nat)
    requires ValidPlan(plan, n) && s < n && l < n
    ensures forall j | 0 <= j < |plan| ::
            ReadInTurn(plan, PeerOffsets(plan, n), s, l, RowPrefix(Aggregate(plan, n), s, l), j)
  {
    forall j | 0 <= j < |plan|
      ensures ReadInTurn(plan, PeerOffsets(plan, n), s, l, RowPrefix(Aggregate(plan, n), s, l), j)
    {
      assert PeerOffsets(plan, n)[j] == PeerOffset(plan, n, j);
    }
  }

  lemma {:induction false} SameSegmentsSameRows<T>(plan: seq<PlannedFlow>, n: nat, buffers: seq<seq<T>>,
        offsets: seq<nat>, l: nat, s: nat)
    requires OffsetsFit(plan, n, buffers, offsets) && Fits(Aggregate(plan, n), buffers) && l < n && s <= n
    requires forall p | 0 <= p < n ::
             FromPeer(plan, n, buffers, offsets, p, l, |plan|) == Segment(Aggregate(plan, n), buffers, p, l)
    ensures Delivered(plan, n, buffers, offsets, l, s) == ReceivedFrom(Aggregate(plan, n), buffers, l, s)
  {
    hide FromPeer, Segment, Aggregate;
    if s > 0 {
      SameSegmentsSameRows(plan, n, buffers, offsets, l, s - 1);
      assert FromPeer(plan, n, buffers, offsets, s - 1, l, |plan|) == Segment(Aggregate(plan, n), buffers, s - 1, l);
    }
  }

  /** Splitting the exchange into waves changes nothing when each flow is read from the
      segment of its destination. */
  lemma WavesEqualOneShot<T>(plan: seq<PlannedFlow>, n: nat, buffers: seq<seq<T>>, l: nat)
    requires ValidPlan(plan, n) && Fits(Aggregate(plan, n), buffers) && l < n
    ensures OffsetsFit(plan, n, buffers, PeerOffsets(plan, n))
    ensures Delivered(plan, n, buffers, PeerOffsets(plan, n), l, n) == Dispatch(Aggregate(plan, n), buffers)[l]
  {
    PeerOffsetsFit(plan, n, buffers);
    forall s | 0 <= s < n
      ensures FromPeer(plan, n, buffers, PeerOffsets(plan, n), s, l, |plan|) ==
              Segment(Aggregate(plan, n), buffers, s, l)
    {
      PeerOffsetsInTurn(plan, n, s, l);
      PeerReadsSegment(plan, n, Aggregate(plan, n), buffers, PeerOffsets(plan, n), s, l);
    }
    SameSegmentsSameRows(plan, n, buffers, PeerOffsets(plan, n), l, n);
  }

  // --------------------------------------------------------- reading in plan order

  // Source s serves its destinations in rank order.
  ghost predicate SortedFrom(plan: seq<PlannedFlow>, s: nat) {
    forall j, k | 0 <= j < k < |plan| && plan[j].src == s && plan[k].src == s :: plan[j].dst <= plan[k].dst
  }

  // Every source does.
  ghost predicate SortedByPeer(plan: seq<PlannedFlow>) {
    forall j, k | 0 <= j < k < |plan| && plan[j].src == plan[k].src :: plan[j].dst <= plan[k].dst
  }

  lemma {:induction false} LaterFlowsNotBelow(plan: seq<PlannedFlow>, k: nat, upTo: nat)
    requires k <= upTo <= |plan| && k < |plan| && SortedFrom(plan, plan[k].src)
    ensures Below(plan, plan[k].src, plan[k].dst, upTo) == Below(plan, plan[k].src, plan[k].dst, k)
  {
    if k < upTo { LaterFlowsNotBelow(plan, k, upTo - 1); }
  }

  lemma {:induction false} EarlierFlowsNotAbove(plan: seq<PlannedFlow>, k: nat, upTo: nat)
    requires upTo <= k < |plan| && SortedFrom(plan, plan[k].src)
    ensures SourceProgress(plan, plan[k].src, upTo) ==
            Below(plan, plan[k].src, plan[k].dst, upTo) + PairRows(plan, plan[k].src, plan[k].dst, upTo)
  {
    if upTo > 0 { EarlierFlowsNotAbove(plan, k, upTo - 1); }
  }

  lemma SortedOffsetsAgree(plan: seq<PlannedFlow>, n: nat, k: nat)
    requires ValidPlan(plan, n) && k < |plan| && SortedFrom(plan, plan[k].src)
    ensures WaveOffset(plan, k) == PeerOffset(plan, n, k)
  {
    RowPrefixIsBelow(plan, n, plan[k].src, plan[k].dst);
    LaterFlowsNotBelow(plan, k, |plan|);
    EarlierFlowsNotAbove(plan, k, k);
  }

  /** The two readings of a source's buffer agree on all its flows exactly when it serves its
      destinations in rank order. */
  lemma OffsetsAgreeFrom(plan: seq<PlannedFlow>, n: nat, s: nat)
    requires ValidPlan(plan, n)
    ensures (forall k: nat | k < |plan| && plan[k].src == s :: WaveOffset(plan, k) == PeerOffset(plan, n, k)) <==>
              SortedFrom(plan, s)
  {
    if SortedFrom(plan, s) {
      forall k: nat | k < |plan| && plan[k].src == s
        ensures WaveOffset(plan, k) == PeerOffset(plan, n, k)
      {
        SortedOffsetsAgree(plan, n, k);
      }
    }
    if forall k: nat | k < |plan| && plan[k].src == s :: WaveOffset(plan, k) == PeerOffset(plan, n, k) {
      forall j: nat, k: nat | j < k < |plan| && plan[j].src == s && plan[k].src == s
        ensures plan[j].dst <= plan[k].dst
      {
        if plan[k].dst < plan[j].dst { OutOfOrderDisagrees(plan, n, j, k); }
      }
    }
  }

  /** The two readings agree on every flow exactly when each source serves its destinations in rank order. */
  lemma OffsetsAgreeIffSorted(plan: seq<PlannedFlow>, n: nat)
    requires ValidPlan(plan, n)
    ensures WaveOffsets(plan) == PeerOffsets(plan, n) <==> SortedByPeer(plan)
  {
    if SortedByPeer(plan) {
      forall k: nat | k < |plan|
        ensures WaveOffset(plan, k) == PeerOffset(plan, n, k)
      {
        SortedOffsetsAgree(plan, n, k);
      }
    }
    if WaveOffsets(plan) == PeerOffsets(plan, n) {
      forall j: nat, k: nat | j < k < |plan| && plan[j].src == plan[k].src
        ensures plan[j].dst <= plan[k].dst
      {
        forall x: nat | x < |plan|
          ensures WaveOffset(plan, x) == PeerOffset(plan, n, x)
        {
          assert WaveOffsets(plan)[x] == PeerOffsets(plan, n)[x];
        }
        OffsetsAgreeFrom(plan, n, plan[j].src);
      }
    }
  }

  lemma OutOfOrderDisagrees(plan: seq<PlannedFlow>, n: nat, j: nat, k: nat)
    requires ValidPlan(plan, n) && j < k < |plan| && plan[j].src == plan[k].src && plan[k].dst < plan[j].dst
    ensures WaveOffset(plan, j) < WaveOffset(plan, k) && PeerOffset(plan, n, k) < PeerOffset(plan, n, j)
  {
    ProgressMonotone(plan, plan[j].src, j + 1, k);
    PairRowsMonotone(plan, plan[k].src, plan[k].dst, k + 1, |plan|);
    RowPrefixMonotone(Aggregate(plan, n), plan[j].src, plan[k].dst + 1, plan[j].dst);
  }

  // Row i of rank s carries value(s, i).
  function Valued<T>(plan: seq<PlannedFlow>, n: nat, value: (nat, nat) -> T): (buffers: seq<seq<T>>)
    ensures Fits(Aggregate(plan, n), buffers)
    ensures forall s, i | 0 <= s < n && 0 <= i < |buffers[s]| :: buffers[s][i] == value(s, i)
  {
    seq(n, s requires 0 <= s < n => seq(RowPrefix(Aggregate(plan, n), s, n), i requires 0 <= i => value(s, i)))
  }

  // The comparison the gate makes on every rank.
  ghost predicate GatePasses<T>(plan: seq<PlannedFlow>, n: nat, value: (nat, nat) -> T)
    requires ValidPlan(plan, n)
  {
    && OffsetsFit(plan, n, Valued(plan, n, value), WaveOffsets(plan))
    && forall l | 0 <= l < n ::
         Delivered(plan, n, Valued(plan, n, value), WaveOffsets(plan), l, n) ==
             Dispatch(Aggregate(plan, n), Valued(plan, n, value))[l]
  }

  // Row r of flow k has the same value in both readings.
  ghost predicate RowAgrees<T>(plan: seq<PlannedFlow>, n: nat, value: (nat, nat) -> T, k: nat, r: nat)
    requires ValidPlan(plan, n) && k < |plan|
  {
    value(plan[k].src, WaveOffset(plan, k) + r) == value(plan[k].src, PeerOffset(plan, n, k) + r)
  }

  lemma DeliveredRow<T>(plan: seq<PlannedFlow>, n: nat, value: (nat, nat) -> T, offsets: seq<nat>, k: nat, r: nat)
    requires OffsetsFit(plan, n, Valued(plan, n, value), offsets) && k < |plan| && r < plan[k].rows
    ensures TargetOffset(plan, n, k) + r < |Delivered(plan, n, Valued(plan, n, value), offsets, plan[k].dst, n)|
    ensures Delivered(plan, n, Valued(plan, n, value), offsets, plan[k].dst, n)[TargetOffset(plan, n, k) + r] ==
            value(plan[k].src, offsets[k] + r)
  {
    hide Delivered;
    DeliveredAt(plan, n, Valued(plan, n, value), offsets, k, r);
  }

  // Both readings of all flows to rank l agree.
  ghost predicate RowsAgreeAt<T>(plan: seq<PlannedFlow>, n: nat, value: (nat, nat) -> T, l: nat)
    requires ValidPlan(plan, n)
  {
    forall k: nat, r: nat | k < |plan| && plan[k].dst == l && r < plan[k].rows :: RowAgrees(plan, n, value, k, r)
  }

  ghost predicate RowsAgree<T>(plan: seq<PlannedFlow>, n: nat, value: (nat, nat) -> T)
    requires ValidPlan(plan, n)
  {
    forall k: nat, r: nat | k < |plan| && r < plan[k].rows :: RowAgrees(plan, n, value, k, r)
  }

  lemma AgreeMeansSameRow<T>(plan: seq<PlannedFlow>, n: nat, value: (nat, nat) -> T, k: nat, r: nat)
    requires ValidPlan(plan, n) && k < |plan| && r < plan[k].rows
    requires OffsetsFit(plan, n, Valued(plan, n, value), WaveOffsets(plan)) &&
             OffsetsFit(plan, n, Valued(plan, n, value), PeerOffsets(plan, n))
    ensures var a := Delivered(plan, n, Valued(plan, n, value), WaveOffsets(plan), plan[k].dst, n);
            var b := Delivered(plan, n, Valued(plan, n, value), PeerOffsets(plan, n), plan[k].dst, n);
            var p := TargetOffset(plan, n, k) + r;
            p < |a| && p < |b| && (RowAgrees(plan, n, value, k, r) <==> a[p] == b[p])
  {
    hide Delivered, Valued, WaveOffset, PeerOffset, TargetOffset, OffsetsFit;
    DeliveredRow(plan, n, value, WaveOffsets(plan), k, r);
    DeliveredRow(plan, n, value, PeerOffsets(plan, n), k, r);
  }

  // Equal deliveries agree row by row, and the other way round.
  lemma SameDeliveriesAgree<T>(plan: seq<PlannedFlow>, n: nat, value: (nat, nat) -> T, l: nat)
    requires ValidPlan(plan, n) && l < n
    requires OffsetsFit(plan, n, Valued(plan, n, value), WaveOffsets(plan)) &&
             OffsetsFit(plan, n, Valued(plan, n, value), PeerOffsets(plan, n))
    requires Delivered(plan, n, Valued(plan, n, value), WaveOffsets(plan), l, n) ==
             Delivered(plan, n, Valued(plan, n, value), PeerOffsets(plan, n), l, n)
    ensures RowsAgreeAt(plan, n, value, l)
  {
    hide Delivered, Valued, RowAgrees, TargetOffset, OffsetsFit, ValidPlan, WaveOffsets, PeerOffsets;
    forall k: nat, r: nat | k < |plan| && plan[k].dst == l && r < plan[k].rows
      ensures RowAgrees(plan, n, value, k, r)
    {
      AgreeMeansSameRow(plan, n, value, k, r);
    }
  }

  lemma AgreeingDeliveriesSame<T>(plan: seq<PlannedFlow>, n: nat, value: (nat, nat) -> T, l: nat)
    requires ValidPlan(plan, n) && l < n && RowsAgreeAt(plan, n, value, l)
    requires OffsetsFit(plan, n, Valued(plan, n, value), WaveOffsets(plan)) &&
             OffsetsFit(plan, n, Valued(plan, n, value), PeerOffsets(plan, n))
    ensures Delivered(plan, n, Valued(plan, n, value), WaveOffsets(plan), l, n) ==
            Delivered(plan, n, Valued(plan, n, value), PeerOffsets(plan, n), l, n)
  {
    hide Delivered, Valued, RowAgrees, TargetOffset, OffsetsFit, ValidPlan, WaveOffsets, PeerOffsets;
    var a := Delivered(plan, n, Valued(plan, n, value), WaveOffsets(plan), l, n);
    var b := Delivered(plan, n, Valued(plan, n, value), PeerOffsets(plan, n), l, n);
    forall p: nat | p < |a|
      ensures a[p] == b[p]
    {
      var k, r := RowSource(plan, n, l, p);
      assert RowAgrees(plan, n, value, k, r);
      AgreeMeansSameRow(plan, n, value, k, r);
    }
  }

  lemma SameAsExpectedIff<T>(plan: seq<PlannedFlow>, n: nat, value: (nat, nat) -> T, l: nat)
    requires ValidPlan(plan, n) && l < n
    requires OffsetsFit(plan, n, Valued(plan, n, value), WaveOffsets(plan)) &&
             OffsetsFit(plan, n, Valued(plan, n, value), PeerOffsets(plan, n))
    ensures Delivered(plan, n, Valued(plan, n, value), WaveOffsets(plan), l, n) ==
            Dispatch(Aggregate(plan, n), Valued(plan, n, value))[l] <==>
            RowsAgreeAt(plan, n, value, l)
  {
    hide Delivered, Valued, RowsAgreeAt, WaveOffsets, PeerOffsets;
    WavesEqualOneShot(plan, n, Valued(plan, n, value), l);
    if RowsAgreeAt(plan, n, value, l) {
      AgreeingDeliveriesSame(plan, n, value, l);
    } else if Delivered(plan, n, Valued(plan, n, value), WaveOffsets(plan), l, n) ==
        Dispatch(Aggregate(plan, n), Valued(plan, n, value))[l] {
      SameDeliveriesAgree(plan, n, value, l);
    }
  }

  lemma AgreeEverywhere<T>(plan: seq<PlannedFlow>, n: nat, value: (nat, nat) -> T)
    requires ValidPlan(plan, n)
    ensures RowsAgree(plan, n, value) <==> forall l | 0 <= l < n :: RowsAgreeAt(plan, n, value, l)
  {
    hide RowAgrees;
    if forall l | 0 <= l < n :: RowsAgreeAt(plan, n, value, l) {
      forall k: nat, r: nat | k < |plan| && r < plan[k].rows
        ensures RowAgrees(plan, n, value, k, r)
      {
        assert RowsAgreeAt(plan, n, value, plan[k].dst);
      }
    }
  }

  /** The executors read a source buffer in plan order, the expected tensors by destination: whatever
      the rows carry, the gate passes exactly when the two readings give every row the same value. */
  lemma GatePassesIffRowsAgree<T>(plan: seq<PlannedFlow>, n: nat, value: (nat, nat) -> T)
    requires ValidPlan(plan, n)
    ensures OffsetsFit(plan, n, Valued(plan, n, value), WaveOffsets(plan)) &&
            OffsetsFit(plan, n, Valued(plan, n, value), PeerOffsets(plan, n))
    ensures GatePasses(plan, n, value) <==> RowsAgree(plan, n, value)
  {
    hide Delivered, Valued, RowsAgree, RowsAgreeAt, WaveOffsets, PeerOffsets;
    WaveOffsetsFit(plan, n, Valued(plan, n, value));
    PeerOffsetsFit(plan, n, Valued(plan, n, value));
    AgreeEverywhere(plan, n, value);
    forall l | 0 <= l < n
      ensures Delivered(plan, n, Valued(plan, n, value), WaveOffsets(plan), l, n) ==
              Dispatch(Aggregate(plan, n), Valued(plan, n, value))[l] <==>
              RowsAgreeAt(plan, n, value, l)
    {
      SameAsExpectedIff(plan, n, value, l);
    }
  }

  // Rank s tells its rows apart.
  ghost predicate RowsDistinct<T>(plan: seq<PlannedFlow>, n: nat, value: (nat, nat) -> T, s: nat) {
    s < n && forall i: nat, j: nat | i < RowPrefix(Aggregate(plan, n), s, n) &&
        j < RowPrefix(Aggregate(plan, n), s, n) && value(s, i) == value(s, j) :: i == j
  }

  /** A rank that tells its rows apart fails the gate unless it serves its destinations in rank order. */
  lemma DistinctRowsMustBeSorted<T>(plan: seq<PlannedFlow>, n: nat, value: (nat, nat) -> T, s: nat)
    requires ValidPlan(plan, n) && GatePasses(plan, n, value) && RowsDistinct(plan, n, value, s)
    ensures SortedFrom(plan, s)
  {
    hide GatePasses, Valued, WaveOffset, PeerOffset, SortedFrom;
    GatePassesIffRowsAgree(plan, n, value);
    forall k: nat | k < |plan| && plan[k].src == s
      ensures WaveOffset(plan, k) == PeerOffset(plan, n, k)
    {
      assert RowAgrees(plan, n, value, k, 0);
      OffsetsInside(plan, n, value, k);
    }
    OffsetsAgreeFrom(plan, n, s);
  }

  lemma OffsetsInside<T>(plan: seq<PlannedFlow>, n: nat, value: (nat, nat) -> T, k: nat)
    requires ValidPlan(plan, n) && k < |plan|
    requires OffsetsFit(plan, n, Valued(plan, n, value), WaveOffsets(plan)) &&
             OffsetsFit(plan, n, Valued(plan, n, value), PeerOffsets(plan, n))
    ensures WaveOffset(plan, k) + plan[k].rows <= RowPrefix(Aggregate(plan, n), plan[k].src, n)
    ensures PeerOffset(plan, n, k) + plan[k].rows <= RowPrefix(Aggregate(plan, n), plan[k].src, n)
  {
    assert WaveOffsets(plan)[k] == WaveOffset(plan, k) && PeerOffsets(plan, n)[k] == PeerOffset(plan, n, k);
  }

  lemma SortedRowsAgree<T>(plan: seq<PlannedFlow>, n: nat, value: (nat, nat) -> T)
    requires ValidPlan(plan, n) && SortedByPeer(plan)
    ensures RowsAgree(plan, n, value)
  {
    hide WaveOffset, PeerOffset;
    forall k: nat, r: nat | k < |plan| && r < plan[k].rows
      ensures RowAgrees(plan, n, value, k, r)
    {
      SortedOffsetsAgree(plan, n, k);
    }
  }

  lemma SortedFromAll(plan: seq<PlannedFlow>, n: nat)
    requires ValidPlan(plan, n)
    ensures SortedByPeer(plan) <==> forall s | 0 <= s < n :: SortedFrom(plan, s)
  {
    if forall s | 0 <= s < n :: SortedFrom(plan, s) {
      forall j: nat, k: nat | j < k < |plan| && plan[j].src == plan[k].src
        ensures plan[j].dst <= plan[k].dst
      {
        assert SortedFrom(plan, plan[j].src);
      }
    }
  }

  /** Plans in rank order pass whatever the rows carry; when every rank tells its rows apart, no others do. */
  lemma GatePassesIffSorted<T>(plan: seq<PlannedFlow>, n: nat, value: (nat, nat) -> T)
    requires ValidPlan(plan, n)
    ensures SortedByPeer(plan) ==> GatePasses(plan, n, value)
    ensures (forall s | 0 <= s < n :: RowsDistinct(plan, n, value, s)) ==>
              (GatePasses(plan, n, value) <==> SortedByPeer(plan))
  {
    hide GatePasses, RowsDistinct, RowsAgree, SortedByPeer, SortedFrom, Valued;
    GatePassesIffRowsAgree(plan, n, value);
    SortedFromAll(plan, n);
    if SortedByPeer(plan) { SortedRowsAgree(plan, n, value); }
    if GatePasses(plan, n, value) && forall s | 0 <= s < n :: RowsDistinct(plan, n, value, s) {
      forall s | 0 <= s < n
        ensures SortedFrom(plan, s)
      {
        DistinctRowsMustBeSorted(plan, n, value, s);
      }
    }
  }
}
