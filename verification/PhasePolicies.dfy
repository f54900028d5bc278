// Phase policies.
module PhasePolicies {
  // The two phase-barrier policies the exact suite compares with the barrier oracle.

  import opened Wrappers
  import opened Totals
  import opened Transfers
  import opened ExactOracle
  import opened OracleOptimum
  import opened Replay
  import opened PhaseSerial
  import EM = ExactMatching
  import F = FluidDecomposition
  import FP = FluidPatterns

  // ------------------------------------------------------------------- one phase

  predicate OnMatrix(m: Matrix, phase: nat, f: Flow)
    requires Square(m, |m|)
  {
    f.phase == phase && f.src < |m| && f.dst < |m| && f.src != f.dst && m[f.src][f.dst] > 0
  }

  predicate IsCell(m: Matrix, phase: nat, x: Share)
    requires Square(m, |m|)
  {
    OnMatrix(m, phase, x.flow) && x.bytes == m[x.flow.src][x.flow.dst]
  }

  // Waves that serve one phase's remote traffic exactly.
  ghost predicate PhasePlan(m: Matrix, phase: nat, waves: seq<LogicalWave>)
    requires Square(m, |m|)
  {
    && (forall k | 0 <= k < |waves| :: WaveOk(waves[k]))
    && (forall k, x | 0 <= k < |waves| && x in waves[k].shares :: OnMatrix(m, phase, x.flow))
    && forall f | OnMatrix(m, phase, f) :: PlanTotal(waves, f, |waves|) == m[f.src][f.dst]
  }

  lemma {:induction false} TotalPrefix(s: seq<Share>, x: Share, f: Flow, k: nat)
    requires k <= |s|
    ensures ShareTotal(s + [x], f, k) == ShareTotal(s, f, k)
  {
    if k > 0 { TotalPrefix(s, x, f, k - 1); }
  }

  lemma TotalSnoc(s: seq<Share>, x: Share, f: Flow)
    ensures ShareTotal(s + [x], f, |s + [x]|) == ShareTotal(s, f, |s|) + (if x.flow == f then x.bytes else 0)
  {
    TotalPrefix(s, x, f, |s|);
  }

  lemma {:induction false} TotalAbsent(s: seq<Share>, f: Flow, k: nat)
    requires k <= |s| && forall i | 0 <= i < k :: s[i].flow != f
    ensures ShareTotal(s, f, k) == 0
  {
    if k > 0 { TotalAbsent(s, f, k - 1); }
  }

  lemma {:induction false} TotalOnce(s: seq<Share>, i: nat, k: nat)
    requires i < k <= |s| && forall a, b | 0 <= a < b < |s| :: s[a].flow != s[b].flow
    ensures ShareTotal(s, s[i].flow, k) == s[i].bytes
  {
    if i == k - 1 { TotalAbsent(s, s[i].flow, k - 1); } else { TotalOnce(s, i, k - 1); }
  }

  // ------------------------------------------------------------------- first-come packing

  method FlowsFromMatrix(m: Matrix, phase: nat) returns (shares: seq<Share>)
    requires Square(m, |m|)
    ensures forall x :: x in shares <==> IsCell(m, phase, x)
    ensures forall a, b | 0 <= a < b < |shares| :: shares[a].flow != shares[b].flow
  {
    shares := [];
    for src := 0 to |m|
      invariant forall x :: x in shares <==> IsCell(m, phase, x) && x.flow.src < src
      invariant forall a, b | 0 <= a < b < |shares| :: shares[a].flow != shares[b].flow
    {
      for dst := 0 to |m|
        invariant forall x :: x in shares <==>
                    IsCell(m, phase, x) && (x.flow.src < src || (x.flow.src == src && x.flow.dst < dst))
        invariant forall a, b | 0 <= a < b < |shares| :: shares[a].flow != shares[b].flow
      {
        if src != dst && m[src][dst] > 0 {
          forall a | 0 <= a < |shares|
            ensures shares[a].flow != Flow(phase, src, dst)
          {
            assert shares[a] in shares;
          }
          shares := shares + [Share(Flow(phase, src, dst), m[src][dst])];
        }
      }
    }
  }

  ghost predicate SameTotals(a: seq<Share>, b: seq<Share>, whole: seq<Share>, k: nat)
    requires k <= |whole|
  {
    forall f :: ShareTotal(a, f, |a|) + ShareTotal(b, f, |b|) == ShareTotal(whole, f, k)
  }

  lemma TakeChosen(a: seq<Share>, b: seq<Share>, whole: seq<Share>, k: nat)
    requires k < |whole| && SameTotals(a, b, whole, k)
    ensures SameTotals(a + [whole[k]], b, whole, k + 1) && SameTotals(a, b + [whole[k]], whole, k + 1)
  {
    forall f
      ensures ShareTotal(a + [whole[k]], f, |a + [whole[k]]|) + ShareTotal(b, f, |b|) == ShareTotal(whole, f, k + 1)
      ensures ShareTotal(a, f, |a|) + ShareTotal(b + [whole[k]], f, |b + [whole[k]]|) == ShareTotal(whole, f, k + 1)
    {
      TotalSnoc(a, whole[k], f);
      TotalSnoc(b, whole[k], f);
    }
  }

  // No two shares on one port.
  ghost predicate PortsApart(s: seq<Share>) {
    forall k, j | 0 <= k < j < |s| :: s[k].flow.src != s[j].flow.src && s[k].flow.dst != s[j].flow.dst
  }

  /** Takes shares in order and puts back those whose ports are taken. */
  method ChooseWave(pending: seq<Share>) returns (chosen: seq<Share>, remaining: seq<Share>)
    requires pending != []
    ensures chosen != [] && PortsApart(chosen) && |chosen| + |remaining| == |pending|
    ensures SameTotals(chosen, remaining, pending, |pending|)
    ensures forall x | x in chosen || x in remaining :: x in pending
  {
    var usedOut: set<nat>, usedIn: set<nat> := {}, {};
    chosen, remaining := [], [];
    for i := 0 to |pending|
      invariant |chosen| + |remaining| == i && (i > 0 ==> chosen != [])
      invariant chosen == [] ==> usedOut == {} && usedIn == {}
      invariant PortsApart(chosen) && SameTotals(chosen, remaining, pending, i)
      invariant forall k | 0 <= k < |chosen| :: chosen[k].flow.src in usedOut && chosen[k].flow.dst in usedIn
      invariant forall x | x in chosen || x in remaining :: x in pending
    {
      TakeChosen(chosen, remaining, pending, i);
      if pending[i].flow.src in usedOut || pending[i].flow.dst in usedIn {
        remaining := remaining + [pending[i]];
      } else {
        chosen := chosen + [pending[i]];
        usedOut := usedOut + {pending[i].flow.src};
        usedIn := usedIn + {pending[i].flow.dst};
      }
    }
  }

  method LargestShare(chosen: seq<Share>) returns (duration: nat)
    requires chosen != []
    ensures forall k | 0 <= k < |chosen| :: chosen[k].bytes <= duration
    ensures exists k :: 0 <= k < |chosen| && chosen[k].bytes == duration
  {
    duration := chosen[0].bytes;
    for i := 1 to |chosen|
      invariant forall k | 0 <= k < i :: chosen[k].bytes <= duration
      invariant exists k :: 0 <= k < |chosen| && chosen[k].bytes == duration
    {
      duration := Max(duration, chosen[i].bytes);
    }
  }

  // What the waves move and what is still pending make up the given shares.
  ghost predicate Packed(shares: seq<Share>, waves: seq<LogicalWave>, pending: seq<Share>) {
    forall f :: PlanTotal(waves, f, |waves|) + ShareTotal(pending, f, |pending|) == ShareTotal(shares, f, |shares|)
  }

  lemma {:induction false} PlanPrefix(a: seq<LogicalWave>, b: seq<LogicalWave>, f: Flow, k: nat)
    requires k <= |a|
    ensures PlanTotal(a + b, f, k) == PlanTotal(a, f, k)
  {
    if k > 0 { PlanPrefix(a, b, f, k - 1); }
  }

  lemma PackStep(shares: seq<Share>, waves: seq<LogicalWave>, pending: seq<Share>, w: LogicalWave,
                 remaining: seq<Share>)
    requires Packed(shares, waves, pending) && SameTotals(w.shares, remaining, pending, |pending|)
    ensures Packed(shares, waves + [w], remaining)
  {
    forall f
      ensures PlanTotal(waves + [w], f, |waves + [w]|) + ShareTotal(remaining, f, |remaining|) ==
              ShareTotal(shares, f, |shares|)
    {
      PlanPrefix(waves, [w], f, |waves|);
      assert ShareTotal(w.shares, f, |w.shares|) + ShareTotal(remaining, f, |remaining|) ==
             ShareTotal(pending, f, |pending|);
    }
  }

  method PackLogicalWaves(shares: seq<Share>) returns (waves: seq<LogicalWave>)
    requires forall x | x in shares :: x.bytes > 0
    ensures forall k | 0 <= k < |waves| :: WaveOk(waves[k])
    ensures forall k, x | 0 <= k < |waves| && x in waves[k].shares :: x in shares
    ensures forall f :: PlanTotal(waves, f, |waves|) == ShareTotal(shares, f, |shares|)
  {
    waves := [];
    var pending := shares;
    assert Packed(shares, waves, pending);
    while pending != []
      invariant forall k | 0 <= k < |waves| :: WaveOk(waves[k])
      invariant forall k, x | 0 <= k < |waves| && x in waves[k].shares :: x in shares
      invariant forall x | x in pending :: x in shares
      invariant Packed(shares, waves, pending)
      decreases |pending|
    {
      var chosen, remaining := ChooseWave(pending);
      var duration := LargestShare(chosen);
      var w := LogicalWave(chosen, duration);
      forall k | 0 <= k < |chosen|
        ensures chosen[k].bytes > 0
      {
        assert chosen[k] in chosen;
      }
      PackStep(shares, waves, pending, w, remaining);
      waves := waves + [w];
      pending := remaining;
    }
    forall f
      ensures PlanTotal(waves, f, |waves|) == ShareTotal(shares, f, |shares|)
    {
      assert ShareTotal(pending, f, |pending|) == 0;
    }
  }

  method FirstComePhase(m: Matrix, phase: nat) returns (waves: seq<LogicalWave>)
    requires Square(m, |m|)
    ensures PhasePlan(m, phase, waves)
  {
    var shares := FlowsFromMatrix(m, phase);
    waves := PackLogicalWaves(shares);
    forall k, x | 0 <= k < |waves| && x in waves[k].shares
      ensures OnMatrix(m, phase, x.flow)
    {
      assert x in shares;
    }
    forall f | OnMatrix(m, phase, f)
      ensures PlanTotal(waves, f, |waves|) == m[f.src][f.dst]
    {
      assert Share(f, m[f.src][f.dst]) in shares;
      var i :| 0 <= i < |shares| && shares[i] == Share(f, m[f.src][f.dst]);
      TotalOnce(shares, i, |shares|);
    }
  }

  // ------------------------------------------------------------------- the phases in turn

  lemma {:induction false} PlanAbsent(waves: seq<LogicalWave>, f: Flow, k: nat)
    requires k <= |waves| && forall a, x | 0 <= a < |waves| && x in waves[a].shares :: x.flow != f
    ensures PlanTotal(waves, f, k) == 0
  {
    if k > 0 {
      PlanAbsent(waves, f, k - 1);
      var s := waves[k - 1].shares;
      forall i | 0 <= i < |s|
        ensures s[i].flow != f
      {
        assert s[i] in s;
      }
      TotalAbsent(s, f, |s|);
    }
  }

  lemma {:induction false} PlanConcat(a: seq<LogicalWave>, b: seq<LogicalWave>, f: Flow, k: nat)
    requires k <= |b|
    ensures PlanTotal(a + b, f, |a| + k) == PlanTotal(a, f, |a|) + PlanTotal(b, f, k)
  {
    if k == 0 { PlanPrefix(a, b, f, |a|); } else { PlanConcat(a, b, f, k - 1); }
  }

  lemma {:induction false} StartPrefix(a: seq<LogicalWave>, b: seq<LogicalWave>, k: nat)
    requires k <= |a|
    ensures StartOf(a + b, k) == StartOf(a, k)
  {
    if k > 0 { StartPrefix(a, b, k - 1); }
  }

  lemma {:induction false} StartConcat(a: seq<LogicalWave>, b: seq<LogicalWave>, k: nat)
    requires k <= |b|
    ensures StartOf(a + b, |a| + k) == StartOf(a, |a|) + StartOf(b, k)
  {
    if k == 0 { StartPrefix(a, b, |a|); } else { StartConcat(a, b, k - 1); }
  }

  ghost predicate PhasePlans(inst: Instance, phases: nat, w0: seq<LogicalWave>, w1: seq<LogicalWave>,
                             w2: seq<LogicalWave>)
    requires inst.Valid()
  {
    && PhasePlan(inst.p0, 0, w0) && PhasePlan(inst.p1, 1, w1)
    && 2 <= phases <= 3 && (if phases == 3 then PhasePlan(inst.p2, 2, w2) else w2 == [])
  }

  lemma OtherPhaseAbsent(m: Matrix, phase: nat, waves: seq<LogicalWave>, f: Flow)
    requires Square(m, |m|) && PhasePlan(m, phase, waves) && f.phase != phase
    ensures PlanTotal(waves, f, |waves|) == 0
  {
    forall a, x | 0 <= a < |waves| && x in waves[a].shares
      ensures x.flow != f
    {
      assert OnMatrix(m, phase, x.flow);
    }
    PlanAbsent(waves, f, |waves|);
  }

  lemma TotalOverPhases(inst: Instance, phases: nat, w0: seq<LogicalWave>, w1: seq<LogicalWave>, w2: seq<LogicalWave>,
                        f: Flow)
    requires inst.Valid() && PhasePlans(inst, phases, w0, w1, w2) && IsTarget(inst, phases, f)
    ensures PlanTotal(w0 + w1 + w2, f, |w0 + w1 + w2|) == Volume(inst, f)
  {
    hide PlanTotal;
    PlanConcat(w0 + w1, w2, f, |w2|);
    PlanConcat(w0, w1, f, |w1|);
    if f.phase != 0 { OtherPhaseAbsent(inst.p0, 0, w0, f); } else { assert OnMatrix(inst.p0, 0, f); }
    if f.phase != 1 { OtherPhaseAbsent(inst.p1, 1, w1, f); } else { assert OnMatrix(inst.p1, 1, f); }
    if phases == 3 {
      if f.phase != 2 { OtherPhaseAbsent(inst.p2, 2, w2, f); } else { assert OnMatrix(inst.p2, 2, f); }
    } else {
      PlanAbsent(w2, f, |w2|);
    }
  }

  // Which phase a wave of the joined plan belongs to.
  function PhaseAt(w0: seq<LogicalWave>, w1: seq<LogicalWave>, k: nat): nat {
    if k < |w0| then 0 else if k < |w0| + |w1| then 1 else 2
  }

  lemma WaveOfPhase(inst: Instance, phases: nat, w0: seq<LogicalWave>, w1: seq<LogicalWave>, w2: seq<LogicalWave>,
                    k: nat)
    requires inst.Valid() && PhasePlans(inst, phases, w0, w1, w2) && k < |w0 + w1 + w2|
    ensures WaveOk((w0 + w1 + w2)[k]) && OfPhase((w0 + w1 + w2)[k], PhaseAt(w0, w1, k))
    ensures forall x | x in (w0 + w1 + w2)[k].shares :: IsTarget(inst, phases, x.flow)
  {
    hide PlanTotal, WaveOk;
    var w := (w0 + w1 + w2)[k];
    if k < |w0| {
      assert w == w0[k];
    } else if k < |w0| + |w1| {
      assert w == w1[k - |w0|];
    } else {
      assert w == w2[k - |w0| - |w1|];
    }
  }

  /** Phase plans one after the other make up a plan for the instance. */
  lemma PhasesJoin(inst: Instance, phases: nat, w0: seq<LogicalWave>, w1: seq<LogicalWave>, w2: seq<LogicalWave>)
    requires inst.Valid() && PhasePlans(inst, phases, w0, w1, w2)
    ensures PlanOk(inst, phases, w0 + w1 + w2)
    ensures StartOf(w0 + w1 + w2, |w0 + w1 + w2|) == StartOf(w0, |w0|) + StartOf(w1, |w1|) + StartOf(w2, |w2|)
  {
    hide PhasePlans, WaveOk, PlanTotal;
    var waves := w0 + w1 + w2;
    forall k: nat | k < |waves|
      ensures WaveOk(waves[k]) && OfPhase(waves[k], PhaseAt(w0, w1, k))
      ensures forall x | x in waves[k].shares :: IsTarget(inst, phases, x.flow)
    {
      WaveOfPhase(inst, phases, w0, w1, w2, k);
    }
    forall f | IsTarget(inst, phases, f)
      ensures PlanTotal(waves, f, |waves|) == Volume(inst, f)
    {
      TotalOverPhases(inst, phases, w0, w1, w2, f);
    }
    StartConcat(w0 + w1, w2, |w2|);
    StartConcat(w0, w1, |w1|);
  }

  // ------------------------------------------------------------------- the policies

  /** The first-come policy's schedule passes the audit under both release rules, and never beats
      the barrier oracle. */
  method PhaseBarrierFifo(inst: Instance, phases: nat) returns (schedule: seq<Entry>, makespan: nat)
    requires inst.Valid() && 2 <= phases <= 3
    ensures AuditValid(inst, phases, Local, 0, schedule) && AuditValid(inst, phases, Joint, 0, schedule)
    ensures makespan == Completion(schedule, Everything)
    ensures phases == 3 ==> Optimum(inst, Local, 0) <= makespan
  {
    hide PlanOk, AuditValid, PhasePlan;
    var w0 := FirstComePhase(inst.p0, 0);
    var w1 := FirstComePhase(inst.p1, 1);
    var w2 := [];
    if phases == 3 {
      w2 := FirstComePhase(inst.p2, 2);
    }
    PhasesJoin(inst, phases, w0, w1, w2);
    schedule, makespan := BuildSerialSchedule(w0 + w1 + w2);
    SerialPassesAudit(inst, phases, w0 + w1 + w2);
    if phases == 3 { SerialNeverBeatsBarrier(inst, w0 + w1 + w2); }
  }

  // Every positive entry counts the same.
  function Support(r: Matrix): Weight
    requires Square(r, |r|)
  {
    (i: nat, j: nat) => if i < |r| && j < |r| && r[i][j] > 0 then 1 else 0
  }

  // The shares of a fluid wave from the first k senders.
  function SharesOf(w: F.Wave, phase: nat, k: nat): (shares: seq<Share>)
    requires k <= |w.matching|
  {
    if k == 0 then []
    else SharesOf(w, phase, k - 1) +
         (if w.matching[k - 1].Some? then [Share(Flow(phase, k - 1, w.matching[k - 1].value), w.quantum)] else [])
  }

  function LogicalOf(waves: seq<F.Wave>, phase: nat): (logical: seq<LogicalWave>)
    ensures |logical| == |waves|
  {
    seq(|waves|, k requires 0 <= k < |waves| =>
        LogicalWave(SharesOf(waves[k], phase, |waves[k].matching|), waves[k].quantum))
  }

  lemma {:induction false} SharesOfOk(w: F.Wave, phase: nat, k: nat)
    requires k <= |w.matching| && EM.Distinct(w.matching) && w.quantum > 0
    ensures forall a | 0 <= a < |SharesOf(w, phase, k)| ::
            IsShareOf(w, phase, SharesOf(w, phase, k)[a]) && SharesOf(w, phase, k)[a].flow.src < k
    ensures PortsApart(SharesOf(w, phase, k))
    ensures (exists i :: 0 <= i < k && w.matching[i].Some?) ==> SharesOf(w, phase, k) != []
  {
    if k > 0 {
      SharesOfOk(w, phase, k - 1);
    }
  }

  predicate IsShareOf(w: F.Wave, phase: nat, x: Share) {
    x.flow.phase == phase && x.bytes == w.quantum && x.flow.src < |w.matching| &&
        w.matching[x.flow.src] == Some(x.flow.dst)
  }

  lemma {:induction false} SharesTotal(w: F.Wave, phase: nat, f: Flow, k: nat)
    requires k <= |w.matching| && f.phase == phase && f.src < |w.matching|
    ensures ShareTotal(SharesOf(w, phase, k), f, |SharesOf(w, phase, k)|) ==
              if f.src < k then F.ServedAt(w, f.src, f.dst) else 0
  {
    if k > 0 {
      SharesTotal(w, phase, f, k - 1);
      if w.matching[k - 1].Some? {
        TotalSnoc(SharesOf(w, phase, k - 1), Share(Flow(phase, k - 1, w.matching[k - 1].value), w.quantum), f);
      } else {
        assert SharesOf(w, phase, k - 1) + [] == SharesOf(w, phase, k - 1);
      }
    }
  }

  lemma {:induction false} LogicalTotal(waves: seq<F.Wave>, phase: nat, f: Flow, k: nat)
    requires k <= |waves| && f.phase == phase && forall a | 0 <= a < |waves| :: f.src < |waves[a].matching|
    ensures PlanTotal(LogicalOf(waves, phase), f, k) == F.ServedUpTo(waves, f.src, f.dst, k)
  {
    if k > 0 {
      LogicalTotal(waves, phase, f, k - 1);
      SharesTotal(waves[k - 1], phase, f, |waves[k - 1].matching|);
    }
  }

  lemma {:induction false} LogicalStart(waves: seq<F.Wave>, phase: nat, k: nat)
    requires k <= |waves|
    ensures StartOf(LogicalOf(waves, phase), k) == F.Emitted(waves, k)
  {
    if k > 0 { LogicalStart(waves, phase, k - 1); }
  }

  lemma WaveOnMatrix(matrix: Matrix, r: Matrix, w: F.Wave, phase: nat)
    requires Square(matrix, |matrix|) && FP.Maximal(r, w) && F.ZeroDiagonal(r) && |r| == |matrix|
    requires forall i: nat, j: nat | FP.Edge(r, i, j) :: FP.Edge(matrix, i, j)
    ensures WaveOk(LogicalWave(SharesOf(w, phase, |w.matching|), w.quantum))
    ensures forall x | x in SharesOf(w, phase, |w.matching|) :: OnMatrix(matrix, phase, x.flow)
  {
    SharesOfOk(w, phase, |w.matching|);
    var shares := SharesOf(w, phase, |w.matching|);
    forall x | x in shares
      ensures OnMatrix(matrix, phase, x.flow)
    {
      var a :| 0 <= a < |shares| && shares[a] == x;
      assert IsShareOf(w, phase, x) && r[x.flow.src][x.flow.dst] >= w.quantum > 0;
      assert FP.Edge(r, x.flow.src, x.flow.dst);
    }
  }

  lemma {:induction false} StaysWithin(matrix: Matrix, states: seq<Matrix>, waves: seq<F.Wave>, k: nat)
    requires FP.Decomposes(matrix, states, waves) && FP.AllMaximal(states, waves) && k < |states|
    ensures Square(states[k], |matrix|) && F.ZeroDiagonal(states[k]) && FP.Within(states[k], matrix)
  {
    hide FP.Maximal, F.Serves, F.Drained;
    if k == 0 {
      FP.CanonicalWithin(matrix, matrix);
    } else {
      StaysWithin(matrix, states, waves, k - 1);
      assert F.Step(states[k - 1], waves[k - 1], states[k]);
      FP.ServeWithin(states[k - 1], waves[k - 1], matrix);
    }
  }

  lemma FluidServesPhase(matrix: Matrix, phase: nat, states: seq<Matrix>, waves: seq<F.Wave>, f: Flow)
    requires FP.Decomposes(matrix, states, waves) && OnMatrix(matrix, phase, f)
    ensures PlanTotal(LogicalOf(waves, phase), f, |waves|) == matrix[f.src][f.dst]
  {
    forall a | 0 <= a < |waves|
      ensures f.src < |waves[a].matching|
    {
      assert F.Step(states[a], waves[a], states[a + 1]);
    }
    LogicalTotal(waves, phase, f, |waves|);
    F.CoverageHolds(states, waves, f.src, f.dst, |waves|);
  }

  lemma FluidWaveOk(matrix: Matrix, phase: nat, states: seq<Matrix>, waves: seq<F.Wave>, k: nat)
    requires FP.Decomposes(matrix, states, waves) && FP.AllMaximal(states, waves) && k < |waves|
    ensures WaveOk(LogicalOf(waves, phase)[k])
    ensures forall x | x in LogicalOf(waves, phase)[k].shares :: OnMatrix(matrix, phase, x.flow)
  {
    hide FP.Maximal, WaveOk, OnMatrix, F.Run, F.Drained;
    StaysWithin(matrix, states, waves, k);
    WaveOnMatrix(matrix, states[k], waves[k], phase);
  }

  /** A decomposition into maximal matchings, played as waves, serves the phase. */
  lemma FluidIsPhasePlan(matrix: Matrix, phase: nat, states: seq<Matrix>, waves: seq<F.Wave>)
    requires Square(matrix, |matrix|) && FP.Decomposes(matrix, states, waves) && FP.AllMaximal(states, waves)
    ensures PhasePlan(matrix, phase, LogicalOf(waves, phase))
    ensures StartOf(LogicalOf(waves, phase), |waves|) == F.Emitted(waves, |waves|)
  {
    hide FP.Decomposes, FP.AllMaximal, WaveOk, PlanTotal, LogicalOf;
    var logical := LogicalOf(waves, phase);
    forall k: nat | k < |waves|
      ensures WaveOk(logical[k]) && forall x | x in logical[k].shares :: OnMatrix(matrix, phase, x.flow)
    {
      FluidWaveOk(matrix, phase, states, waves, k);
    }
    forall f | OnMatrix(matrix, phase, f)
      ensures PlanTotal(logical, f, |logical|) == matrix[f.src][f.dst]
    {
      FluidServesPhase(matrix, phase, states, waves, f);
    }
    LogicalStart(waves, phase, |waves|);
  }

  // ------------------------------------------------------------------- support matchings

  lemma SupportIsMaximal(r: Matrix, w: F.Wave)
    requires Square(r, |r|) && F.ZeroDiagonal(r) && EM.MaximumWeight(Support(r), |r|, |r|, w.matching)
    requires F.Serves(r, w) && w.quantum > 0 && exists i :: 0 <= i < |r| && w.matching[i].Some?
    ensures FP.Maximal(r, w)
  {
    forall i: nat, j: nat | FP.Edge(r, i, j)
      ensures F.Busy(w, Send(i)) || F.Busy(w, Recv(j))
    {
      if w.matching[i].None? && forall k | 0 <= k < |w.matching| :: w.matching[k] != Some(j) {
        var more := FP.AddPair(Support(r), w.matching, |r|, |r|, i, j);
        assert false;
      }
    }
  }

  lemma SupportAdmissible(r: Matrix, m: EM.Matching)
    requires Square(r, |r|) && |m| == |r| && EM.Admissible(Support(r), m, 0, |r|, {})
    ensures EM.Admissible(F.Residual(r), m, 0, |r|, {})
  {
    forall k | 0 <= k < |m| && m[k].Some?
      ensures F.Residual(r)(0 + k, m[k].value) > 0
    {
      assert Support(r)(0 + k, m[k].value) > 0;
    }
  }

  /** One wave: a largest matching of the positive entries, served until its smallest is used up. */
  method PeelSupport(residual: Matrix, ghost i: nat, ghost j: nat) returns (w: F.Wave, next: Matrix)
    requires Square(residual, |residual|) && F.ZeroDiagonal(residual) && i < |residual| && j < |residual| &&
             residual[i][j] > 0
    ensures F.Step(residual, w, next) && FP.Maximal(residual, w)
    ensures |next| == |residual| && F.PositiveEntries(next, |next|) < F.PositiveEntries(residual, |residual|)
  {
    hide EM.MaximumWeight, EM.Admissible, F.PositiveEntries, FP.Maximal, F.Serves, F.Serve, EM.Search;
    var n := |residual|;
    var matching := EM.Search(Support(residual), 0, n, n, {});
    EM.SearchIsMaximum(Support(residual), n, n);
    EM.MaximumNotEmpty(Support(residual), n, n, matching, i, j);
    EM.SearchAdmissible(Support(residual), 0, n, n, {});
    SupportAdmissible(residual, matching);
    var quantum := F.SmallestServed(residual, matching);
    w := F.Wave(matching, quantum);
    AdmissibleServes(residual, w);
    SupportIsMaximal(residual, w);
    next := F.Serve(residual, w);
    SmallestIsUsedUp(residual, w);
  }

  lemma SmallestIsUsedUp(r: Matrix, w: F.Wave)
    requires F.Serves(r, w) && w.quantum > 0 && exists k ::
             0 <= k < |r| && w.matching[k].Some? && w.quantum == r[k][w.matching[k].value]
    ensures F.PositiveEntries(F.Serve(r, w), |r|) < F.PositiveEntries(r, |r|)
  {
    hide F.PositiveEntries;
    var k :| 0 <= k < |r| && w.matching[k].Some? && w.quantum == r[k][w.matching[k].value];
    F.PositiveEntriesDrop(r, F.Serve(r, w), |r|, k, w.matching[k].value);
  }

  lemma AdmissibleServes(r: Matrix, w: F.Wave)
    requires Square(r, |r|) && |w.matching| == |r| && EM.Admissible(F.Residual(r), w.matching, 0, |r|, {})
    requires forall i | 0 <= i < |r| && w.matching[i].Some? ::
             w.matching[i].value < |r| && w.quantum <= r[i][w.matching[i].value]
    ensures F.Serves(r, w)
  {
  }

  method SupportMatchings(matrix: Matrix) returns (waves: seq<F.Wave>, ghost states: seq<Matrix>)
    requires Square(matrix, |matrix|)
    ensures FP.Decomposes(matrix, states, waves) && FP.AllMaximal(states, waves)
    ensures forall port: Port | port.rank < |matrix| :: F.BusyTime(waves, port, |waves|) == LoadAt(matrix, port)
  {
    var residual := F.Canonical(matrix);
    F.CanonicalZeroDiagonal(matrix);
    NothingYet(residual);
    hide F.Drained, F.Canonical, F.PositiveEntries, FP.Maximal, F.Serves, F.Heaviest, F.Fits, FP.AllMaximal;
    waves, states := [], [residual];
    var left: bool, i: nat, j: nat := F.SomeEntry(residual);
    while left
      invariant F.Run(states, waves) && states[0] == F.Canonical(matrix) && residual == states[|waves|] &&
                |residual| == |matrix|
      invariant FP.AllMaximal(states, waves)
      invariant left ==> i < |residual| && j < |residual| && residual[i][j] > 0
      invariant !left ==> F.Drained(residual)
      decreases F.PositiveEntries(residual, |residual|)
    {
      var w, next := PeelSupport(residual, i, j);
      F.ExtendRun(states, waves, w, next);
      MaximalSnoc(states, waves, w, next);
      waves, states := waves + [w], states + [next];
      residual := next;
      left, i, j := F.SomeEntry(residual);
    }
    PortsBusyForTheirLoads(matrix, states, waves);
  }

  lemma PortsBusyForTheirLoads(matrix: Matrix, states: seq<Matrix>, waves: seq<F.Wave>)
    requires Square(matrix, |matrix|) && F.Run(states, waves) && states[0] == F.Canonical(matrix) &&
             F.Drained(states[|waves|])
    ensures forall port: Port | port.rank < |matrix| :: F.BusyTime(waves, port, |waves|) == LoadAt(matrix, port)
  {
    hide F.Run, F.Drained, F.Canonical, F.BusyTime, LoadAt;
    forall port: Port | port.rank < |matrix|
      ensures F.BusyTime(waves, port, |waves|) == LoadAt(matrix, port)
    {
      F.BusyForItsLoad(matrix, states, waves, port);
    }
  }

  lemma NothingYet(r: Matrix)
    ensures FP.AllMaximal([r], [])
  {
  }

  lemma MaximalSnoc(states: seq<Matrix>, waves: seq<F.Wave>, w: F.Wave, next: Matrix)
    requires FP.AllMaximal(states, waves) && FP.Maximal(states[|waves|], w)
    ensures FP.AllMaximal(states + [next], waves + [w])
  {
    hide FP.Maximal;
  }

  method BirkhoffPhase(m: Matrix, phase: nat) returns (waves: seq<LogicalWave>)
    requires Square(m, |m|)
    ensures PhasePlan(m, phase, waves)
    ensures !FP.HasFourPath(m) ==> StartOf(waves, |waves|) == PortLoad(m)
    ensures StartOf(waves, |waves|) == 0 || StartOf(waves, |waves|) < 2 * PortLoad(m)
  {
    hide FP.Decomposes, FP.AllMaximal, FP.HasFourPath, PhasePlan, PortLoad;
    var fluid; ghost var states;
    fluid, states := SupportMatchings(m);
    waves := LogicalOf(fluid, phase);
    FluidIsPhasePlan(m, phase, states, fluid);
    if !FP.HasFourPath(m) { FP.ShortPathsOptimal(m, m, states, fluid); }
    if fluid != [] { FP.WithinTwice(m, states, fluid); }
  }

  // The loads of the scheduled phases one after the other.
  function LoadSum(inst: Instance, phases: nat): nat
    requires inst.Valid()
  {
    PortLoad(inst.p0) + PortLoad(inst.p1) + (if phases == 3 then PortLoad(inst.p2) else 0)
  }

  /** The matrix-decomposition policy's schedule passes the audit under both release rules and never
      beats the barrier oracle. It takes less than twice the phases' loads together, and on phases
      without a path of four flows exactly their loads, which with return traffic is the oracle's cost. */
  method BirkhoffPhaseLocal(inst: Instance, phases: nat) returns (schedule: seq<Entry>, makespan: nat)
    requires inst.Valid() && 2 <= phases <= 3
    ensures AuditValid(inst, phases, Local, 0, schedule) && AuditValid(inst, phases, Joint, 0, schedule)
    ensures makespan == Completion(schedule, Everything)
    ensures phases == 3 ==> Optimum(inst, Local, 0) <= makespan
    ensures makespan == 0 || makespan < 2 * LoadSum(inst, phases)
    ensures phases == 3 && PortLoad(inst.p1) > 0 ==> makespan < 2 * Optimum(inst, Local, 0)
    ensures phases == 3 && !FP.HasFourPath(inst.p0) && !FP.HasFourPath(inst.p1) && !FP.HasFourPath(inst.p2) ==>
              makespan == PortLoad(inst.p0) + PortLoad(inst.p1) + PortLoad(inst.p2)
              && (PortLoad(inst.p1) > 0 ==> makespan == Optimum(inst, Local, 0))
  {
    hide PlanOk, AuditValid, PhasePlan, FP.HasFourPath, PortLoad, Completion;
    var w0 := BirkhoffPhase(inst.p0, 0);
    var w1 := BirkhoffPhase(inst.p1, 1);
    var w2 := [];
    if phases == 3 {
      w2 := BirkhoffPhase(inst.p2, 2);
    }
    PhasesJoin(inst, phases, w0, w1, w2);
    schedule, makespan := BuildSerialSchedule(w0 + w1 + w2);
    SerialPassesAudit(inst, phases, w0 + w1 + w2);
    if phases == 3 {
      SerialNeverBeatsBarrier(inst, w0 + w1 + w2);
      BarrierOptimum(inst, 0);
    }
  }
}
