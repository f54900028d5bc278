// Plans of the execution gate.
module GatePlans {
  // Which of them the gate's comparison holds for.

  import opened Transfers
  import opened Exchange
  import opened WaveExchange
  import opened WaveEquivalence

  lemma {:induction false} CellFlowsMembers(m: Matrix, s: nat, cols: nat, f: PlannedFlow)
    requires Square(m, |m|) && s < |m| && cols <= |m|
    ensures f in CellFlows(m, s, cols) <==> f.src == s && f.dst < cols && f.rows == m[s][f.dst] > 0
  {
    if cols > 0 { CellFlowsMembers(m, s, cols - 1, f); }
  }

  lemma {:induction false} CellFlowsSorted(m: Matrix, s: nat, cols: nat)
    requires Square(m, |m|) && s < |m| && cols <= |m|
    ensures SortedByPeer(CellFlows(m, s, cols))
  {
    if cols > 0 {
      CellFlowsSorted(m, s, cols - 1);
      var before := CellFlows(m, s, cols - 1);
      var last := if m[s][cols - 1] > 0 then [PlannedFlow(s, cols - 1, m[s][cols - 1])] else [];
      forall f, g | f in before && g in last && f.src == g.src
        ensures f.dst <= g.dst
      {
        CellFlowsMembers(m, s, cols - 1, f);
      }
      SortedConcat(before, last);
    }
  }

  lemma {:induction false} WaveFlowsMembers(m: Matrix, rows: nat, f: PlannedFlow)
    requires Square(m, |m|) && rows <= |m|
    ensures f in WaveFlows(m, rows) <==> f.src < rows && f.dst < |m| && f.rows == m[f.src][f.dst] > 0
  {
    if rows > 0 {
      WaveFlowsMembers(m, rows - 1, f);
      CellFlowsMembers(m, rows - 1, |m|, f);
    }
  }

  lemma EmptyIsSorted()
    ensures SortedByPeer([])
  {
  }

  lemma {:induction false} WaveFlowsSorted(m: Matrix, rows: nat)
    requires Square(m, |m|) && rows <= |m|
    ensures SortedByPeer(WaveFlows(m, rows))
  {
    hide SortedByPeer, CellFlows, Apart;
    if rows == 0 {
      EmptyIsSorted();
    } else {
      WaveFlowsSorted(m, rows - 1);
      CellFlowsSorted(m, rows - 1, |m|);
      EarlierRows(m, rows - 1);
      ApartStaysSorted(WaveFlows(m, rows - 1), CellFlows(m, rows - 1, |m|));
    }
  }

  // No sender has flows in both.
  ghost predicate Apart(a: seq<PlannedFlow>, b: seq<PlannedFlow>) {
    forall f, g | f in a && g in b :: f.src != g.src
  }

  lemma ApartStaysSorted(a: seq<PlannedFlow>, b: seq<PlannedFlow>)
    requires SortedByPeer(a) && SortedByPeer(b) && Apart(a, b)
    ensures SortedByPeer(a + b)
  {
    hide SortedByPeer;
    SortedConcat(a, b);
  }

  lemma EarlierRows(m: Matrix, s: nat)
    requires Square(m, |m|) && s < |m|
    ensures Apart(WaveFlows(m, s), CellFlows(m, s, |m|))
  {
    forall f, g | f in WaveFlows(m, s) && g in CellFlows(m, s, |m|)
      ensures f.src != g.src
    {
      WaveFlowsMembers(m, s, f);
      CellFlowsMembers(m, s, |m|, g);
    }
  }

  /** Two waves keep rank order exactly when no source goes back to a lower destination. */
  lemma SortedConcat(a: seq<PlannedFlow>, b: seq<PlannedFlow>)
    requires SortedByPeer(a) && SortedByPeer(b)
    ensures SortedByPeer(a + b) <==> forall f, g | f in a && g in b && f.src == g.src :: f.dst <= g.dst
  {
    if SortedByPeer(a + b) {
      forall f, g | f in a && g in b && f.src == g.src
        ensures f.dst <= g.dst
      {
        var j :| 0 <= j < |a| && a[j] == f;
        var k :| 0 <= k < |b| && b[k] == g;
        assert (a + b)[j] == f && (a + b)[|a| + k] == g;
      }
    }
    if forall f, g | f in a && g in b && f.src == g.src :: f.dst <= g.dst {
      forall j, k | 0 <= j < k < |a + b| && (a + b)[j].src == (a + b)[k].src
        ensures (a + b)[j].dst <= (a + b)[k].dst
      {
        if j < |a| <= k { assert a[j] in a && b[k - |a|] in b; }
      }
    }
  }

  function RemotePart(m: Matrix): (r: Matrix)
    requires Square(m, |m|)
    ensures Square(r, |m|) && forall s, d | 0 <= s < |m| && 0 <= d < |m| :: r[s][d] == if s == d then 0 else m[s][d]
  {
    seq(|m|, s requires 0 <= s < |m| => seq(|m|, d requires 0 <= d < |m| => if s == d then 0 else m[s][d]))
  }

  function LocalPart(m: Matrix): (r: Matrix)
    requires Square(m, |m|)
    ensures Square(r, |m|) && forall s, d | 0 <= s < |m| && 0 <= d < |m| :: r[s][d] == if s == d then m[s][d] else 0
  {
    seq(|m|, s requires 0 <= s < |m| => seq(|m|, d requires 0 <= d < |m| => if s == d then m[s][d] else 0))
  }

  lemma TwoWavePlan(waves: seq<Matrix>)
    requires |waves| == 2
    ensures PlanOf(waves) == WaveFlows(waves[0], |waves[0]|) + WaveFlows(waves[1], |waves[1]|)
  {
    assert PlanUpTo(waves, 1) == PlanUpTo(waves, 0) + WaveFlows(waves[0], |waves[0]|);
  }

  // A source that sends to d in the first wave sends to no rank below d in the second.
  ghost predicate NeverGoesBack(first: Matrix, second: Matrix, n: nat)
    requires Square(first, n) && Square(second, n)
  {
    forall s, d, e | 0 <= s < n && 0 <= e < d < n :: first[s][d] == 0 || second[s][e] == 0
  }

  lemma GoingBackUnsorts(first: Matrix, second: Matrix, n: nat, s: nat, d: nat, e: nat)
    requires Square(first, n) && Square(second, n) && s < n && e < d < n && first[s][d] > 0 && second[s][e] > 0
    ensures PlannedFlow(s, d, first[s][d]) in WaveFlows(first, n) &&
            PlannedFlow(s, e, second[s][e]) in WaveFlows(second, n)
  {
    WaveFlowsMembers(first, n, PlannedFlow(s, d, first[s][d]));
    WaveFlowsMembers(second, n, PlannedFlow(s, e, second[s][e]));
  }

  /** A plan of two waves is in rank order exactly when no source goes back to a lower rank. */
  lemma TwoWavesSortedIff(first: Matrix, second: Matrix, n: nat)
    requires Square(first, n) && Square(second, n)
    ensures SortedByPeer(PlanOf([first, second])) <==> NeverGoesBack(first, second, n)
  {
    var a, b := WaveFlows(first, n), WaveFlows(second, n);
    TwoWavePlan([first, second]);
    WaveFlowsSorted(first, n);
    WaveFlowsSorted(second, n);
    SortedConcat(a, b);
    if SortedByPeer(a + b) {
      forall s, d, e | 0 <= s < n && 0 <= e < d < n
        ensures first[s][d] == 0 || second[s][e] == 0
      {
        if first[s][d] > 0 && second[s][e] > 0 { GoingBackUnsorts(first, second, n, s, d, e); }
      }
    }
    if NeverGoesBack(first, second, n) {
      forall f, g | f in a && g in b && f.src == g.src
        ensures f.dst <= g.dst
      {
        WaveFlowsMembers(first, n, f);
        WaveFlowsMembers(second, n, g);
      }
    }
  }

  /** The window plan sends remote rows in a first wave and local rows in a second: the gate's
      comparison holds exactly when no rank with local rows sends to a higher rank. */
  lemma RemoteThenLocalIffNoHigherPeer(m: Matrix)
    requires Square(m, |m|)
    ensures SortedByPeer(PlanOf([RemotePart(m), LocalPart(m)])) <==>
            forall s, d | 0 <= s < d < |m| :: m[s][s] == 0 || m[s][d] == 0
  {
    TwoWavesSortedIff(RemotePart(m), LocalPart(m), |m|);
    if NeverGoesBack(RemotePart(m), LocalPart(m), |m|) {
      forall s, d | 0 <= s < d < |m|
        ensures m[s][s] == 0 || m[s][d] == 0
      {
        assert RemotePart(m)[s][d] == 0 || LocalPart(m)[s][s] == 0;
      }
    }
  }

  /** Wave matrices yield well-formed plans. */
  lemma {:induction false} PlanIsValid(waves: seq<Matrix>, n: nat, k: nat)
    requires k <= |waves| && forall w | 0 <= w < |waves| :: Square(waves[w], n)
    ensures ValidPlan(PlanUpTo(waves, k), n)
  {
    if k > 0 {
      PlanIsValid(waves, n, k - 1);
      var last := WaveFlows(waves[k - 1], |waves[k - 1]|);
      assert Square(waves[k - 1], n);
      forall j | 0 <= j < |last|
        ensures last[j].src < n && last[j].dst < n && last[j].rows > 0
      {
        assert last[j] in last;
        WaveFlowsMembers(waves[k - 1], n, last[j]);
      }
    }
  }

  // The plan of the remote-then-local window.
  function WindowPlan(m: Matrix): (plan: seq<PlannedFlow>)
    requires Square(m, |m|)
    ensures ValidPlan(plan, |m|)
  {
    PlanIsValid([RemotePart(m), LocalPart(m)], |m|, 2);
    PlanOf([RemotePart(m), LocalPart(m)])
  }

  ghost predicate WindowGatePasses<T>(m: Matrix, value: (nat, nat) -> T)
    requires Square(m, |m|)
  {
    GatePasses(WindowPlan(m), |m|, value)
  }

  ghost predicate KeepsAndSendsUp(m: Matrix, s: nat)
    requires Square(m, |m|)
  {
    exists d :: s < d < |m| && m[s][s] > 0 && m[s][d] > 0
  }

  /** Whatever the rows carry, the window plan's gate passes if no rank keeps rows and also sends to a
      higher rank; if every rank tells its rows apart, it passes only then. */
  lemma WindowGatePassesIff<T>(m: Matrix, value: (nat, nat) -> T)
    requires Square(m, |m|)
    ensures (forall s: nat | s < |m| :: !KeepsAndSendsUp(m, s)) ==> WindowGatePasses(m, value)
    ensures (forall s | 0 <= s < |m| :: RowsDistinct(WindowPlan(m), |m|, value, s)) ==>
              (WindowGatePasses(m, value) <==> forall s: nat | s < |m| :: !KeepsAndSendsUp(m, s))
  {
    hide GatePasses, RowsDistinct;
    GatePassesIffSorted(WindowPlan(m), |m|, value);
    RemoteThenLocalIffNoHigherPeer(m);
    NoneGoesUp(m);
  }

  lemma NoneGoesUp(m: Matrix)
    requires Square(m, |m|)
    ensures (forall s: nat | s < |m| :: !KeepsAndSendsUp(m, s)) <==>
              forall s, d | 0 <= s < d < |m| :: m[s][s] == 0 || m[s][d] == 0
  {
    if forall s: nat | s < |m| :: !KeepsAndSendsUp(m, s) {
      forall s: nat, d: nat | s < d < |m|
        ensures m[s][s] == 0 || m[s][d] == 0
      {
        assert !KeepsAndSendsUp(m, s);
      }
    }
  }

  /** A single rank that keeps rows, sends to a higher rank and tells its rows apart is enough to fail. */
  lemma KeepingAndSendingUpFails<T>(m: Matrix, value: (nat, nat) -> T, s: nat, d: nat)
    requires Square(m, |m|) && s < d < |m| && m[s][s] > 0 && m[s][d] > 0 && RowsDistinct(WindowPlan(m), |m|, value, s)
    ensures !WindowGatePasses(m, value)
  {
    hide GatePasses, RowsDistinct;
    SendingUpUnsorts(m, s, d);
    if WindowGatePasses(m, value) { DistinctRowsMustBeSorted(WindowPlan(m), |m|, value, s); }
  }

  lemma SendingUpUnsorts(m: Matrix, s: nat, d: nat)
    requires Square(m, |m|) && s < d < |m| && m[s][s] > 0 && m[s][d] > 0
    ensures !SortedFrom(WindowPlan(m), s)
  {
    var plan, first, second := WindowPlan(m), RemotePart(m), LocalPart(m);
    GoingBackUnsorts(first, second, |m|, s, d, s);
    TwoWavePlan([first, second]);
    var a, b := WaveFlows(first, |m|), WaveFlows(second, |m|);
    var j :| 0 <= j < |a| && a[j] == PlannedFlow(s, d, m[s][d]);
    var k :| 0 <= k < |b| && b[k] == PlannedFlow(s, s, m[s][s]);
    assert plan[j] == a[j] && plan[|a| + k] == b[k];
  }

  // ------------------------------------------------------------------- half precision

  // Spacing of half-precision values around x.
  function HalfStep(x: nat): (step: nat)
    ensures step > 0
  {
    if x < 2048 then 1
    else if x < 4096 then 2 else if x < 8192 then 4 else if x < 16384 then 8 else if x < 32768 then 16 else 32
  }

  /** x rounded to half precision, ties to even; 65536 stands for infinity. */
  function Half(x: nat): nat {
    var step := HalfStep(x);
    var low := x / step;
    var rounded := if 2 * (x % step) < step || (2 * (x % step) == step && low % 2 == 0) then low * step
        else (low + 1) * step;
    if rounded >= 65536 then 65536 else rounded
  }

  // The gate numbers the rows of global rank g from 10000 * g on.
  function RowValue(ranks: seq<nat>): (nat, nat) -> nat {
    (s: nat, i: nat) => if s < |ranks| then Half(10000 * ranks[s] + i) else 0
  }

  lemma SmallRowsExact(x: nat)
    requires x < 2048
    ensures Half(x) == x
  {
  }

  /** Rank 0 tells its rows apart as long as it has at most 2048. */
  lemma RankZeroDistinct(plan: seq<PlannedFlow>, n: nat, ranks: seq<nat>)
    requires n == |ranks| > 0 && ranks[0] == 0 && RowPrefix(Aggregate(plan, n), 0, n) <= 2048
    ensures RowsDistinct(plan, n, RowValue(ranks), 0)
  {
    forall i: nat, j: nat | i < 2048 && j < 2048 && RowValue(ranks)(0, i) == RowValue(ranks)(0, j)
      ensures i == j
    {
      SmallRowsExact(i);
      SmallRowsExact(j);
    }
  }

  lemma WindowMoves(m: Matrix, s: nat, cols: nat)
    requires Square(m, |m|) && s < |m| && cols <= |m|
    ensures RowPrefix(Aggregate(WindowPlan(m), |m|), s, cols) == RowPrefix(m, s, cols)
  {
    if cols > 0 {
      WindowMoves(m, s, cols - 1);
      var waves := [RemotePart(m), LocalPart(m)];
      PlanMovesWaveSum(waves, |m|, s, cols - 1);
      assert WaveSum(waves, |m|, s, cols - 1, 1) == waves[0][s][cols - 1];
    }
  }

  lemma PrefixStep(m: Matrix, s: nat, d: nat)
    requires s < |m| && d < |m[s]|
    ensures RowPrefix(m, s, 0) == 0 && RowPrefix(m, s, d + 1) == RowPrefix(m, s, d) + m[s][d]
  {
  }

  /** The formal gate's own four-rank matrix fails at rank 0, which keeps one row, sends two to rank 1
      and has rows small enough to be exact. */
  lemma FormalGateFails(m: Matrix, ranks: seq<nat>)
    requires m == [[1, 2, 0, 0], [0, 1, 3, 0], [0, 0, 1, 1], [4, 0, 0, 1]] && ranks == [0, 1, 2, 3]
    ensures Square(m, |m|) && !WindowGatePasses(m, RowValue(ranks))
  {
    assert Square(m, |m|) && m[0][0] == 1 && m[0][1] == 2 && m[0][2] == 0 && m[0][3] == 0;
    WindowMoves(m, 0, 4);
    PrefixStep(m, 0, 0);
    PrefixStep(m, 0, 1);
    PrefixStep(m, 0, 2);
    PrefixStep(m, 0, 3);
    RankZeroDistinct(WindowPlan(m), 4, ranks);
    KeepingAndSendingUpFails(m, RowValue(ranks), 0, 1);
  }

  lemma CoarseRows(i: nat)
    requires i < 8
    ensures Half(20000 + i) == 20000 && Half(30000 + i) == 30000
  {
    assert (20000 + i) / 16 == 1250 && (20000 + i) % 16 == i;
    assert (30000 + i) / 16 == 1875 && (30000 + i) % 16 == i;
  }

  /** On ranks 2 and 3 the same kind of plan passes: rank 2 keeps one row and sends three to rank 3,
      but in half precision all its rows are 20000. */
  lemma CoarseGatePasses(m: Matrix, ranks: seq<nat>)
    requires m == [[1, 3], [2, 1]] && ranks == [2, 3]
    ensures Square(m, |m|) && KeepsAndSendsUp(m, 0) && WindowGatePasses(m, RowValue(ranks))
  {
    assert Square(m, |m|) && m[0][0] == 1 && m[0][1] == 3 && m[1][0] == 2 && m[1][1] == 1;
    WindowMoves(m, 0, 2);
    WindowMoves(m, 1, 2);
    PrefixStep(m, 0, 0);
    PrefixStep(m, 0, 1);
    PrefixStep(m, 1, 0);
    PrefixStep(m, 1, 1);
    FewCoarseRowsAgree(WindowPlan(m), ranks);
  }

  lemma FewCoarseRowsAgree(plan: seq<PlannedFlow>, ranks: seq<nat>)
    requires ValidPlan(plan, 2) && ranks == [2, 3]
    requires RowPrefix(Aggregate(plan, 2), 0, 2) <= 8 && RowPrefix(Aggregate(plan, 2), 1, 2) <= 8
    ensures GatePasses(plan, 2, RowValue(ranks))
  {
    hide GatePasses, Valued, Half, WaveOffset, PeerOffset, Aggregate, RowPrefix;
    var value := RowValue(ranks);
    GatePassesIffRowsAgree(plan, 2, value);
    forall k: nat, r: nat | k < |plan| && r < plan[k].rows
      ensures RowAgrees(plan, 2, value, k, r)
    {
      OffsetsInside(plan, 2, value, k);
      CoarseRows(WaveOffset(plan, k) + r);
      CoarseRows(PeerOffset(plan, 2, k) + r);
    }
  }

  /** A single wave passes whatever the rows carry. */
  lemma SingleWavePasses<T>(m: Matrix, value: (nat, nat) -> T)
    requires Square(m, |m|)
    ensures ValidPlan(PlanOf([m]), |m|) && GatePasses(PlanOf([m]), |m|, value)
  {
    PlanIsValid([m], |m|, 1);
    SingleWaveSorted(m);
    GatePassesIffSorted(PlanOf([m]), |m|, value);
  }

  lemma SingleWaveSorted(m: Matrix)
    requires Square(m, |m|)
    ensures SortedByPeer(PlanOf([m]))
  {
    WaveFlowsSorted(m, |m|);
    assert PlanUpTo([m], 1) == PlanUpTo([m], 0) + WaveFlows(m, |m|);
  }
}
