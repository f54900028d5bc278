# MoE traffic scheduling: a verified model

The repository schedules the token exchanges of mixture-of-experts layers. A layer has a dispatch
phase (P0), a return phase (P1) and the next layer's dispatch (P2), each a matrix of rows or bytes
between ranks. Every rank owns one send port and one receive port that work at the same time. The
project models the parts of the repository that decide when transfers happen, where rows land and
what the evaluation concludes, and proves properties of them for all inputs.

- Exact oracle: `Transfers`, `EdgeColouring`, `ExactOracle`, `OracleOptimum`, `OracleTightness`. Unit
  transfers on ports, released by a barrier per phase or per rank; existence and closed form of the
  optimum and the price of the barrier. The heart is the edge colouring of bipartite multigraphs.
- Audit and phase-barrier policies: `Replay`, `ReplayAudit`, `PhaseSerial`, `PhasePolicies`. The audit
  loop by loop, what an audited schedule is worth against the oracle, and two policies that wave by wave
  obey the phase barrier.
- Joint scheduler: `ReadySetScheduler`, `CandidateScore`, `Promptness`, `TrafficBound`, `SchedulerRun`.
  The wave loop as a method over its dictionaries and scores, invariants of every reachable state,
  termination, when it serves all demand, its audit, and how far its makespan can be from the oracle.
- Data movement: `Exchange`, `WaveExchange`, `WaveEquivalence`, `GatePlans`. Prefix-offset layouts,
  dispatch and combine, waves against the one-shot exchange, and the gate that compares them.
- Cross-EP projection: `IntSums`, `EpSplit`, `EpSquare`, `EpProjection`, `EpCompute`. Balanced
  splits, blocks, expert mapping, proportional times.
- Statistics: `Totals`, `Sorting`, `OrderMetrics`, `RowShuffle`, `RealArith`, `RankStats`,
  `Correlation`.
- Parity, merging and verdicts: `TransferParity`, `MatrixMerge`, `KeyedDedup`, `Chunking`,
  `Eligibility`.
- Fluid reference: `ExactMatching`, `FluidDecomposition`, `FluidPatterns`, `FluidMisses`. Peeling heaviest
  matchings off a matrix, and the traffic on which that is optimal.

`Wrappers` holds the option type. `dafny verify dfyconfig.toml` checks the whole project.

## Where the code and its description part

- Barrier closed form: without return traffic the barrier model does not separate P0 from P2, so
  the optimum is the combined load of both, not the sum of two loads (`OracleOptimum.BarrierOptimum`).
- Formal gate: the executors read a sender's buffer in plan order, the expected rows are laid out
  by destination, and the helper that would reconcile the two (`_source_input_offset`) has no caller.
  On rows that can be told apart the gate's remote-then-local window therefore succeeds only when no
  rank both keeps rows and sends to a higher rank (`GatePlans.WindowGatePassesIff`). The rows are half
  precision: its own four-rank matrix fails at rank 0 (`GatePlans.FormalGateFails`), while the
  two-rank matrix on ranks 2 and 3 passes because all rows of a rank round to one value
  (`GatePlans.CoarseGatePasses`).
- Joint scheduler: the article promises a loop until all residuals are zero or the wave limit is
  reached. The exact matching backend never takes a candidate that does not score above zero, so a run
  without one stops early and still reports completion (`SchedulerRun.ZeroWeightsStall`,
  `SchedulerRun.NothingFavouredStalls`); which demand it serves is exact
  (`SchedulerRun.ScheduleInstance`, `SchedulerRun.ScheduleWithoutPenalties`).
- Replay audit: it does not check that an interval is long enough for the volume it serves
  (`Replay.AuditIgnoresRate`).
- Projection: kept dispatch traffic aggregates back to the source matrix only if the source
  fixture's expert map refines to the target's, which the script does not check
  (`EpProjection.CommutesIffRefines`).
- Fluid reference: called optimal, but peeling heaviest matchings can overshoot the optimal horizon
  (`FluidDecomposition.StarNotOptimal`), on exactly the traffic patterns that hold a path of four
  entries (`FluidMisses.OptimalIffShortPaths`, `FluidMisses.FourPathForcesMiss`), and the idle time it
  reports is always zero (`FluidDecomposition.CertificateHoldsIff`).
- Parity: the expected counter is never aggregated, so two truth tasks on one edge can never match
  (`TransferParity.ParityExactly`, `TransferParity.SplitTruthNeverMatches`).
- Deduplication: a real key that equals a generated one loses a row, and exactly then
  (`KeyedDedup.LatestRowsCorrectIff`, `KeyedDedup.GeneratedKeyLosesRow`).
- Order metrics: on orders that share only some items a tau of 1 does not mean a distance of 0
  (`OrderMetrics.ShiftedSublist`, `OrderMetrics.MetricsAgreeIff`).

## Model

| member | source | states |
|---|---|---|
| Transfers.PortLoadIsMax | repo/online/experiments/offline/run_flow_schedule_study.py:297-304 | the heaviest off-diagonal row or column sum bounds every send and receive port and, unless zero, is reached by one |
| EdgeColouring.Koenig | repo/online/experiments/offline/run_prediction_oracle_baseline_closure.py:607-609 | the transfers of a full-duplex bipartite multigraph can always be placed in as many slots as the busiest port has transfers, no two on one port in the same slot (edge colouring, any multigraph) |
| EdgeColouring.SwapIsProper | repo/online/experiments/offline/run_prediction_oracle_baseline_closure.py:607-609 | exchanging two slots along an alternating chain keeps every port free of clashes |
| EdgeColouring.FreeAtBothEnds | repo/online/experiments/offline/run_prediction_oracle_baseline_closure.py:607-609 | the exchange frees one slot at both ports of a further transfer |
| ExactOracle.BuildExactTasks | repo/online/experiments/offline/run_prediction_oracle_baseline_closure.py:571-587 | the appended entries are exactly the unit transfers of the matrix in row order |
| ExactOracle.MatrixTasksAreUnits | repo/online/experiments/offline/run_prediction_oracle_baseline_closure.py:571-587 | every off-diagonal unit appears as exactly one task, nothing else does |
| ExactOracle.MatrixDegree | repo/online/experiments/offline/run_prediction_oracle_baseline_closure.py:571-587 | unit transfers load each port exactly as the matrix does |
| ExactOracle.PortCapacity | repo/online/experiments/offline/run_prediction_oracle_baseline_closure.py:607-609 | k non-overlapping unit transfers on one port end no earlier than k after the first may start |
| ExactOracle.PhaseLowerBound | repo/online/experiments/offline/run_prediction_oracle_baseline_closure.py:607-638 | a phase whose releases wait until a time cannot end before that time plus its port load |
| OracleOptimum.BarrierScheduleExists | repo/online/experiments/offline/run_prediction_oracle_baseline_closure.py:602-641 | a phase-barrier schedule within the solver horizon always exists, at the closed-form cost |
| OracleOptimum.OptimumExists | repo/online/experiments/offline/run_prediction_oracle_baseline_closure.py:590-641 | the minimum makespan exists for every instance, release rule and delay |
| OracleOptimum.HorizonIsHarmless | repo/online/experiments/offline/run_prediction_oracle_baseline_closure.py:603-609 | the variable bounds of the model exclude no better schedule |
| OracleOptimum.LocalIsJoint | repo/online/experiments/offline/run_prediction_oracle_baseline_closure.py:610-638 | every schedule that obeys the phase barrier obeys the per-rank releases |
| OracleOptimum.BarrierOptimum | repo/online/experiments/offline/run_prediction_oracle_baseline_closure.py:590-641 | closed form of the barrier oracle for every instance and delay: load(P0) + delay + load(P1) + load(P2) with return traffic, the load of P0 and P2 combined without |
| OracleOptimum.PriceOfBarrier | repo/online/experiments/offline/run_prediction_oracle_baseline_closure.py:787-789 | joint <= local <= 3 * joint at every delay; equal when there is no return traffic |
| OracleOptimum.ReportedGain | repo/online/experiments/offline/run_prediction_oracle_baseline_closure.py:183-186 | the reported gain is absent exactly without tasks and otherwise lies in [0, 2/3] |
| OracleOptimum.ReturnTrafficBound | repo/online/experiments/offline/run_prediction_oracle_baseline_closure.py:696-696 | when P1 is the transpose of P0 the joint oracle needs at least load(P0) + delay + 1 |
| OracleOptimum.PriceWithReturnTraffic | repo/online/experiments/offline/run_prediction_oracle_baseline_closure.py:690-735 | for the generated instances (P1 the transpose of P0) local + delay + 2 <= 3 * joint, so the factor three is never reached |
| OracleOptimum.FactorThreeIsTight | repo/online/experiments/offline/run_prediction_oracle_baseline_closure.py:787-789 | with disjoint ranks per phase the factor three is reached at every size |
| OracleTightness.ReturnPriceIsTight | repo/online/experiments/offline/run_prediction_oracle_baseline_closure.py:690-735 | the bound for transposed P1 is reached at every fan-out and every delay |
| Replay.AuditedNeverBeatsOracle | repo/online/experiments/offline/run_prediction_oracle_baseline_closure.py:787-797 | no audited schedule whose entries never exceed one unit per time step beats the oracle of its release rule |
| Replay.AuditIgnoresRate | repo/online/src/rs/scheduling/multiphase/replay.py:40-101 | the audit accepts k units in any d < k steps and so lets a schedule beat the oracle: the rate bound has to be assumed |
| PhaseSerial.SerialPassesAudit | repo/online/src/rs/scheduling/phase_local/common.py:593-640 | a plan of single-phase waves in phase order, each as long as its largest share, passes the audit under the phase barrier and so under the per-rank releases, within the rate bound, and ends with its last wave, at no compute delay |
| PhaseSerial.SerialPassesAuditIff | repo/online/src/rs/scheduling/phase_local/common.py:593-640 | such a plan passes the audit under the phase barrier at a compute delay d exactly when d is 0 or it carries no return traffic: the builder never waits for the delay |
| PhaseSerial.SerialNeverBeatsBarrier | repo/online/experiments/offline/run_prediction_oracle_baseline_closure.py:789-793 | no phase-serial plan beats the barrier oracle |
| PhasePolicies.PackLogicalWaves | repo/online/src/rs/scheduling/phase_local/common.py:485-505 | first-come packing ends, uses every port once per wave and moves exactly what it was given |
| PhasePolicies.PhaseBarrierFifo | repo/online/src/rs/scheduling/phase_local/fifo.py:39-82 | the first-come policy passes the audit under both release rules and never beats the barrier oracle, for every instance |
| PhasePolicies.SupportMatchings | repo/online/src/rs/scheduling/phase_local/birkhoff_phase_local.py:31-89 | peeling largest matchings of the positive entries drains the phase, keeps every port busy for exactly its load, and never leaves a flow with both ports idle |
| PhasePolicies.BirkhoffPhaseLocal | repo/online/src/rs/scheduling/phase_local/birkhoff_phase_local.py:91-118 | the matrix-decomposition policy passes the audit under both release rules and never beats the barrier oracle; on any phases its makespan stays under twice the sum of the loads, with return traffic under twice the barrier oracle; without a path of four flows it reaches the sum, with return traffic the oracle itself |
| ReplayAudit.SortedClear | repo/online/src/rs/scheduling/multiphase/replay.py:83-92 | sorting the intervals of a port does not change whether they are pairwise clear |
| ReplayAudit.NeighboursDecide | repo/online/src/rs/scheduling/multiphase/replay.py:83-92 | in sorted order the neighbour comparison alone decides whether any two intervals of a port overlap |
| ReplayAudit.BarriersFollowVolumes | repo/online/src/rs/scheduling/multiphase/replay.py:93-99 | when every flow was served its volume, every inbound barrier total was delivered exactly, so the barrier check never adds a verdict of its own |
| ReplayAudit.CheckReleases | repo/online/src/rs/scheduling/multiphase/replay.py:61-82 | comparing starts with the two completion tables decides the per-rank release rule |
| ReplayAudit.CheckPorts | repo/online/src/rs/scheduling/multiphase/replay.py:83-92 | the port loops accept exactly when no two transfers share a port at the same time |
| ReplayAudit.AuditSchedule | repo/online/src/rs/scheduling/multiphase/replay.py:28-102 | the audit loop by loop: it reports a schedule valid exactly when the declared rules and volumes hold and a reported makespan is the replayed one, for every schedule |
| ReadySetScheduler.CollectRealFlows | repo/online/src/rs/scheduling/multiphase/dependency_model.py:10-38 | one flow for every positive off-diagonal entry of each phase, each exactly once |
| ReadySetScheduler.ServeKeepsReleases | article/README.md:278-279 | a transfer never moves a release that is already set |
| ReadySetScheduler.ServePreserves | repo/online/src/rs/scheduling/multiphase/scheduler_state.py:146-176 | starting a ready flow on idle ports keeps conservation, port exclusivity and release rules of the whole run |
| ReadySetScheduler.NeverDeadlocks | repo/online/src/rs/scheduling/multiphase/scheduler_state.py:107-124 | while demand remains some flow is ready or some release lies ahead, for every reachable state |
| ReadySetScheduler.TablesStep | repo/online/src/rs/scheduling/multiphase/scheduler_state.py:152-158 | the incrementally updated dictionaries stay equal to their definition over the whole schedule |
| ReadySetScheduler.ReadyFlowCandidates | repo/online/src/rs/scheduling/multiphase/scoring.py:31-38 | the candidate list is exactly the set of ready flows |
| ReadySetScheduler.GreedyMaximalMatching | repo/online/src/rs/scheduling/multiphase/matching.py:32-55 | the selection is a matching that no candidate can extend |
| ReadySetScheduler.ServeWave | repo/online/src/rs/scheduling/multiphase/scheduler_state.py:141-176 | one wave keeps the invariant; every chosen flow gives up the same share, the smallest chosen residual capped by the quantum, or all it has when atomic, and every other flow keeps its residual |
| Promptness.WaveKeepsPrompt | repo/online/src/rs/scheduling/multiphase/scheduler_state.py:141-176 | over a wave of shares that leaves no ready flow with both ports idle, every ready flow has still waited no longer than its two ports were busy since its phase could start, and every transfer has ended by the due time of its phase |
| Promptness.IdleKeepsPrompt | repo/online/src/rs/scheduling/multiphase/scheduler_state.py:107-124 | and so over a wait for the earliest release, when nothing is ready |
| TrafficBound.MovedWithinLoad | repo/online/src/rs/scheduling/multiphase/replay.py:39-60 | a schedule that serves no flow beyond its volume moves over a port no more than its load in all phases together |
| TrafficBound.OracleAtLeastTraffic | repo/online/experiments/offline/run_prediction_oracle_baseline_closure.py:602-641 | the joint oracle is at least the heaviest load over all phases together, and longer than the delay when there is return traffic |
| CandidateScore.ScoreCandidates | repo/online/src/rs/scheduling/multiphase/scoring.py:31-59 | the scores come from the dictionaries and the memory of the loop, ages and safe prices never negative |
| CandidateScore.ScorePositive | repo/online/src/rs/scheduling/multiphase/scoring.py:39-59 | without penalties the score, base priority and price included, is positive exactly when base priority, residual, downstream load or forecast speaks for the flow; age and price can only help |
| CandidateScore.PriceNonNegative | repo/online/src/rs/scheduling/multiphase/scheduler_state.py:180-188 | with a decay in [0, 1] and no negative step or clip adaptive prices never turn negative |
| SchedulerRun.PiecesRoundUp | repo/online/src/rs/scheduling/multiphase/scheduler_state.py:141-144 | the waves counted per flow are its volume divided by the quantum, rounded up |
| SchedulerRun.WaveProgress | repo/online/src/rs/scheduling/multiphase/scheduler_state.py:141-154 | every wave brings the count of remaining pieces down |
| SchedulerRun.RunGlobalMatchingScheduler | repo/online/src/rs/scheduling/multiphase/scheduler_state.py:70-190 | the loop ends and needs no more waves than flows, or than started quanta; it serves all demand unless cut short or stalled, and when the signs of the scores are known beforehand the exact backend leaves every unfavoured flow untouched and never stalls on favoured demand |
| SchedulerRun.NothingFavouredStalls | repo/online/src/rs/scheduling/multiphase/scheduler_state.py:139-140 | when no flow scores above zero an exact run with demand stops before its first wave and still reports completion |
| SchedulerRun.ZeroWeightsStall | repo/online/src/rs/scheduling/multiphase/matching.py:49-69 | with all weights zero a single row is refused |
| SchedulerRun.ReachablePassesAudit | repo/online/src/rs/scheduling/multiphase/replay.py:39-101 | every reachable schedule obeys the release, port and rate rules of the audit; it passes in full exactly when demand is served |
| SchedulerRun.MakespanOnTime | article/README.md:309-326 | a run in which no flow waited longer than its ports were busy ends within six loads of the heaviest port over all phases, with a compute delay within seven and the delay, and so within the same multiples of the joint oracle |
| SchedulerRun.ScheduleInstance | article/README.md:309-326 | the wave bound, the audited verdict exactly when neither cut short nor stalled, with known signs exactly when every flow is favoured; the makespan is at least the joint oracle, and in divisible service that refuses no flow at most six times it, or seven times it plus the compute delay |
| SchedulerRun.ScheduleWithoutPenalties | repo/online/src/rs/scheduling/multiphase/scoring.py:31-59 | under the code's own scores without penalties the exact backend delivers an audited schedule if something speaks for every flow, and with neither age nor prices in play only then |
| Exchange.ExpectedOutput | repo/online/experiments/distributed/run_m2_formal_execution_gloo.py:115-148 | the expected rows of a rank are the segments addressed to it, sender by sender |
| Exchange.CombineUndoesDispatch | repo/online/experiments/distributed/run_m2_formal_execution_gloo.py:115-148 | dispatch with M followed by the same layout with M transposed returns every buffer, for any group size and any M |
| WaveExchange.PlanMovesWaveSum | repo/online/experiments/distributed/run_m2_formal_execution_gloo.py:299-302 | a plan built from wave matrices moves exactly their entry-wise sum |
| WaveExchange.FlowSourceOffsets | repo/online/src/rs/runtime/online/megatron_ep/execution/api.py:174-188 | the one-pass offsets are the running totals of each sender in plan order |
| WaveExchange.RecvOffsets | repo/online/src/rs/runtime/online/megatron_ep/materialization/materializer.py:113-173 | receive offsets count the rows already received from the same peer |
| WaveExchange.CheckCoverage | repo/online/src/rs/runtime/online/megatron_ep/materialization/layout.py:80-103 | counting covered rows accepts a peer segment exactly when the flows add up to the declared rows |
| WaveExchange.WaveSliceFits | repo/online/experiments/distributed/run_m123_integrated_publication_execution_gloo.py:99-110 | source slices in plan order tile every sender buffer without gap or overlap |
| WaveExchange.DeliveredAt | repo/online/experiments/distributed/run_m123_integrated_publication_execution_gloo.py:123-139 | each row of a flow ends up at its target offset |
| WaveEquivalence.ExecuteRank | repo/online/experiments/distributed/run_m123_integrated_publication_execution_gloo.py:123-139 | copying the slices in any completion order produces the same buffer |
| WaveEquivalence.RowSource | repo/online/src/rs/runtime/online/megatron_ep/execution/api.py:151-153 | target slices leave no gap in a receive buffer |
| WaveEquivalence.TargetsDisjoint | repo/online/src/rs/runtime/online/megatron_ep/execution/api.py:151-153 | target slices of different flows to one rank do not overlap |
| WaveEquivalence.WavesEqualOneShot | repo/online/src/rs/runtime/online/megatron_ep/execution/api.py:146-148 | read by destination segment, any split into waves delivers exactly the one-shot exchange |
| WaveEquivalence.OffsetsAgreeIffSorted | repo/online/src/rs/runtime/online/megatron_ep/execution/api.py:146-188 | plan-order and destination-order source offsets agree on every flow exactly when each sender serves its destinations in rank order |
| WaveEquivalence.OffsetsAgreeFrom | repo/online/src/rs/runtime/online/megatron_ep/execution/api.py:146-188 | and source by source |
| WaveEquivalence.GatePassesIffRowsAgree | repo/online/experiments/distributed/run_m2_formal_execution_gloo.py:240-262 | whatever the rows carry, the comparison of executor output and expected rows succeeds exactly when both readings of the source buffers give every row the same value |
| WaveEquivalence.DistinctRowsMustBeSorted | repo/online/experiments/distributed/run_m2_formal_execution_gloo.py:240-262 | a rank that tells its rows apart and serves its destinations out of rank order is enough to fail |
| WaveEquivalence.GatePassesIffSorted | repo/online/experiments/distributed/run_m2_formal_execution_gloo.py:240-262 | plans in rank order pass whatever the rows carry; when every rank tells its rows apart no others do |
| GatePlans.SortedConcat | repo/online/experiments/distributed/run_m2_formal_execution_gloo.py:40-62 | two consecutive waves keep rank order exactly when no sender goes back to a lower destination |
| GatePlans.WindowGatePassesIff | repo/online/experiments/distributed/run_m2_formal_execution_gloo.py:66-70 | the remote-then-local window succeeds if no rank both keeps rows and sends to a higher rank, and only then when every rank tells its rows apart |
| GatePlans.FormalGateFails | repo/online/experiments/distributed/run_m2_formal_execution_gloo.py:27-30 | on the built-in four-rank matrix the window fails in half precision, at rank 0 |
| GatePlans.CoarseGatePasses | repo/online/experiments/distributed/run_m2_formal_execution_gloo.py:104-112 | on ranks 2 and 3 the built-in two-rank matrix passes although its plan is out of order: in half precision all rows of a rank are equal |
| GatePlans.SingleWavePasses | repo/online/experiments/distributed/run_m2_formal_execution_gloo.py:35-63 | a plan of one wave always succeeds |
| EpSplit.SplitCount | repo/offline-sim/scripts/trace/project_ep_fixture.py:17-22 | the rotated increments produce the balanced split |
| EpSplit.SplitConserves | repo/offline-sim/scripts/trace/project_ep_fixture.py:17-22 | a split conserves its count and its parts differ by at most one |
| EpSplit.SplitSourceMatrix | repo/offline-sim/scripts/trace/project_ep_fixture.py:25-34 | the in-place loops produce the row split with the documented rotation |
| EpSplit.WholeCell | repo/offline-sim/scripts/trace/project_ep_fixture.py:25-34 | the rows under a source rank add up to its cell, expert by expert |
| EpSplit.SplitRowsCompose | repo/offline-sim/scripts/trace/project_ep_fixture.py:25-34 | splitting by f then g leaves the same multiset of pieces under every rank as splitting by f * g, whatever the rotations |
| EpSquare.SplitSquareMatrix | repo/offline-sim/scripts/trace/project_ep_fixture.py:37-49 | the in-place loops produce the block split with the documented rotation |
| EpSquare.WholeBlock | repo/offline-sim/scripts/trace/project_ep_fixture.py:37-49 | the block of a cell, read row by row, is its balanced split, so the cell is conserved |
| EpSquare.SplitKeepsBlocks | repo/offline-sim/scripts/trace/project_ep_fixture.py:37-49 | the total of every rectangle of cells is conserved |
| EpSquare.SplitBlocksCompose | repo/offline-sim/scripts/trace/project_ep_fixture.py:37-49 | splitting by f then g leaves the same multiset of pieces under every cell as splitting by f * g, whatever the rotations |
| EpProjection.ExpertInterval | repo/offline-sim/scripts/trace/project_ep_fixture.py:52-55 | the experts of a rank are one contiguous interval |
| EpProjection.BalancedIntervals | repo/offline-sim/scripts/trace/project_ep_fixture.py:52-55 | interval sizes are the floor of experts per rank or one more, and the intervals tile all experts |
| EpProjection.MappingIsMonotoneOnto | repo/offline-sim/scripts/trace/project_ep_fixture.py:52-55 | the mapping never goes down and reaches every rank |
| EpProjection.MappingRefines | repo/offline-sim/scripts/trace/project_ep_fixture.py:52-55 | the target rank of an expert divided by the factor is its rank in the smaller world |
| EpProjection.DispatchRowMatrix | repo/offline-sim/src/rs_sim/trace/schema/model.py:275-288 | the accumulated matrix gathers each rank's rows by the home of their expert |
| EpProjection.AggregationIsParentDispatch | repo/offline-sim/scripts/trace/project_ep_fixture.py:139-160 | summing the projected dispatch matrix over rank blocks dispatches the source rows by the parents of the target ranks |
| EpProjection.CommutesIffRefines | repo/offline-sim/scripts/trace/project_ep_fixture.py:153-160 | projection and aggregation commute for all routings exactly when every expert's target rank lies under its source rank |
| EpProjection.BalancedCommutes | repo/offline-sim/scripts/trace/project_ep_fixture.py:153-160 | they always commute when both sides use the contiguous mapping |
| EpCompute.RoundHalfEven | repo/offline-sim/scripts/trace/project_ep_fixture.py:79-79 | rounding is off by at most one half |
| EpCompute.ProjectedTimeBounds | repo/offline-sim/scripts/trace/project_ep_fixture.py:75-82 | a child's time is at most the parent's, monotone in its rows, positive when parent time and child rows are, the whole for all rows and zero for none |
| EpCompute.ProjectedSum | repo/offline-sim/scripts/trace/project_ep_fixture.py:75-82 | with rows conserved the children's times differ from the parent's by less than their number |
| EpCompute.ProjectField | repo/offline-sim/scripts/trace/project_ep_fixture.py:74-83 | the loop gives every child its share of its own parent |
| EpCompute.ProjectedTimesFollowRows | repo/offline-sim/scripts/trace/project_ep_fixture.py:58-84 | on a projected window each child's time is bounded by, and the children of a rank add up to within the factor of, the parent's time; ranks without rows pass their full time on |
| EpCompute.ProjectRouting | repo/offline-sim/scripts/trace/project_ep_fixture.py:139-151 | a projected window is closed again and conserves raw, kept, dropped and padding rows under every rank |
| EpCompute.WindowDispatchAggregates | repo/offline-sim/scripts/trace/project_ep_fixture.py:139-160 | the projected window's dispatch matrix aggregates to the source window's under contiguous mappings |
| OrderMetrics.ComputePositionL1 | repo/online/experiments/offline/run_p2_bridge_async_ar0_diagnosis.py:107-109 | the loop computes the summed position change of the shared items |
| OrderMetrics.ComputeKendallTau | repo/online/experiments/offline/run_p2_bridge_async_ar0_diagnosis.py:112-124 | the nested loops count the inversions of the shared items over all pairs |
| OrderMetrics.DiaconisGraham | repo/online/experiments/offline/run_p2_bridge_async_ar0_diagnosis.py:107-124 | inversions <= position-L1 <= 2 * inversions for orders of the same distinct items |
| OrderMetrics.MetricsSymmetric | repo/online/experiments/offline/run_p2_bridge_async_ar0_diagnosis.py:107-124 | position-L1, inversions and tau do not depend on which order is the reference |
| OrderMetrics.AgreementIsDetected | repo/online/experiments/offline/run_p2_bridge_async_ar0_diagnosis.py:107-124 | position-L1 is 0 exactly when tau is 1, exactly when the orders are equal |
| OrderMetrics.ZeroDistanceIff | repo/online/experiments/offline/run_p2_bridge_async_ar0_diagnosis.py:107-124 | for any two orders without duplicates the distance is 0 exactly when there is no inversion and the common items occupy the same places |
| OrderMetrics.MetricsAgreeIff | repo/online/experiments/offline/run_p2_bridge_async_ar0_diagnosis.py:107-124 | a distance of 0 always makes tau 1; the two tests agree exactly when some pair of common items is swapped or the common items occupy the same places |
| OrderMetrics.ShiftedSublist | repo/online/experiments/offline/run_p2_bridge_async_ar0_diagnosis.py:107-124 | a shifted sublist, where they disagree |
| RowShuffle.ShuffleRow | repo/online/experiments/offline/run_p2_bridge_async_ar0_diagnosis.py:86-98 | the in-place pass mirrors the positive entries of a canonical row |
| RowShuffle.ShuffleTwice | repo/online/experiments/offline/run_p2_bridge_async_ar0_diagnosis.py:86-98 | shuffling twice restores the row and the support never moves |
| RowShuffle.ShuffleKeepsRowSum | repo/online/experiments/offline/run_p2_bridge_async_ar0_diagnosis.py:86-98 | each rank keeps its total send volume |
| Sorting.SortedPositions | repo/online/experiments/offline/run_prediction_oracle_baseline_closure.py:209-209 | sorting positions by value lists each position once in nondecreasing order |
| Sorting.OrderStatisticsMonotone | repo/online/experiments/offline/run_prediction_oracle_baseline_closure.py:141-141 | raising every value raises the k-th smallest |
| RankStats.Rank | repo/online/experiments/offline/run_prediction_oracle_baseline_closure.py:208-220 | the cursor loop ends and gives every value the average place of its ties, in whatever order ties are sorted |
| RankStats.RankValues | repo/online/experiments/offline/run_prediction_oracle_baseline_closure.py:208-220 | with the stable sort in front the ranks are the average places, whatever the values |
| RankStats.RanksFollowOrder | repo/online/experiments/offline/run_prediction_oracle_baseline_closure.py:208-220 | ranks order exactly as values do, ties included, and lie between 1 and n |
| RankStats.RanksScaleFree | repo/online/experiments/offline/run_prediction_oracle_baseline_closure.py:208-220 | ranks are unchanged by any strictly increasing change of scale |
| RankStats.RanksSum | repo/online/experiments/offline/run_prediction_oracle_baseline_closure.py:208-220 | ranks add up to n(n+1)/2 |
| RankStats.QuantileMonotone | repo/online/experiments/offline/run_prediction_oracle_baseline_closure.py:138-150 | quantiles rise with q and stay between minimum and maximum |
| RankStats.QuantileExtremes | repo/online/experiments/offline/run_prediction_oracle_baseline_closure.py:138-150 | the quantile at 0 is the smallest sample and the one at 1 the largest |
| RankStats.QuantilePointwise | repo/online/experiments/distributed/run_gpu_a2_strategy_compare.py:91-101 | raising every sample raises every quantile |
| RankStats.QuantileHalfIsMedian | repo/online/experiments/offline/run_prediction_oracle_baseline_closure.py:134-150 | the half quantile is the median |
| Correlation.CauchySchwarz | repo/online/experiments/offline/run_prediction_oracle_baseline_closure.py:195-205 | the squared numerator never exceeds the product of the sums of squares; equality makes one sample a multiple of the other |
| Correlation.PearsonInRange | repo/online/experiments/offline/run_prediction_oracle_baseline_closure.py:195-205 | the coefficient lies in [-1, 1] and is absent exactly for constant samples |
| Correlation.SpearmanPerfectIffSameOrder | repo/online/experiments/offline/run_prediction_oracle_baseline_closure.py:223-226 | Spearman lies in [-1, 1] and is 1 exactly when both samples rise together, ties included |
| Correlation.SpearmanWorstIffOppositeOrder | repo/online/experiments/offline/run_prediction_oracle_baseline_closure.py:223-226 | Spearman is -1 exactly when one sample rises as the other falls, ties included |
| Correlation.SpearmanScaleFree | repo/online/experiments/offline/run_prediction_oracle_baseline_closure.py:223-226 | Spearman depends on the order of the samples only |
| TransferParity.Aggregate | repo/online/experiments/distributed/run_m4_offline_online_parity_gloo.py:203-221 | one transfer per edge with all its rows, in any iteration order |
| TransferParity.AggregatesIff | repo/online/experiments/distributed/run_m4_offline_online_parity_gloo.py:203-221 | a counter is the aggregate of another exactly when it has one transfer per edge and both have the same edges and totals |
| TransferParity.AggregationIdempotent | repo/online/experiments/distributed/run_m4_offline_online_parity_gloo.py:203-221 | aggregating twice changes nothing |
| TransferParity.AggregationIgnoresBuckets | repo/online/experiments/distributed/run_m4_offline_online_parity_gloo.py:203-221 | splitting a transfer into pieces does not change the aggregate |
| TransferParity.ExpectedFromTruth | repo/online/experiments/distributed/run_m4_offline_online_parity_gloo.py:224-233 | dispatch tasks expect hidden states and routing probabilities, return tasks hidden states, others nothing |
| TransferParity.ParityExactly | repo/online/experiments/distributed/run_m4_offline_online_parity_gloo.py:272-278 | the comparison holds exactly when no two truth tasks share a phase and edge and the edges and rows agree |
| TransferParity.ParityIffTotalsAgree | repo/online/experiments/distributed/run_m4_offline_online_parity_gloo.py:272-278 | without empty transfers agreeing totals are enough |
| TransferParity.SplitTruthNeverMatches | repo/online/experiments/distributed/run_m4_offline_online_parity_gloo.py:272-278 | two dispatch tasks on one pair of ranks: the comparison fails whatever was executed |
| MatrixMerge.Merge | repo/online/experiments/offline/run_expert_to_traffic_reconstruction.py:52-97 | the loop answers exactly: unusable record, the disputed ranks, or the agreed rows with zeros for unseen ranks |
| MatrixMerge.MergeSucceedsIff | repo/online/experiments/offline/run_expert_to_traffic_reconstruction.py:90-97 | a merge succeeds exactly when all records are usable and agree, and is complete exactly when every rank was seen |
| MatrixMerge.MergeConfluent | repo/online/experiments/offline/run_expert_to_traffic_reconstruction.py:120-144 | answer, conflicting ranks and matrix do not depend on order or repetition of the rows |
| MatrixMerge.RecordMergeConfluent | repo/online/experiments/offline/run_expert_to_traffic_reconstruction.py:165-209 | the same for each of the three kinds of records, whatever their extraction |
| MatrixMerge.MergeExpertCounts | repo/online/experiments/offline/run_expert_to_traffic_reconstruction.py:33-111 | merging expert counts answers exactly for the records of the layer, a missing source rank taken from the only nonzero row and refused without one |
| MatrixMerge.MergeActualTraffic | repo/online/experiments/offline/run_expert_to_traffic_reconstruction.py:114-156 | merging audited traffic answers exactly for the rows of the layer, and nothing exactly when there is none |
| MatrixMerge.MergePhaseContexts | repo/online/experiments/offline/run_expert_to_traffic_reconstruction.py:159-209 | merging phase contexts answers exactly for the dispatch rows of the layer, and nothing exactly when there is none |
| KeyedDedup.SlotsAreCorrect | repo/offline-sim/scripts/merge_sharded_results.py:88-94 | the declared output: places ordered by first appearance, each with the latest row of its key, covering every row |
| KeyedDedup.LatestRows | repo/offline-sim/scripts/merge_sharded_results.py:88-94 | the loop returns every keyless row and the latest row of every key by first appearance exactly when no real key equals a generated one, and fewer rows otherwise |
| KeyedDedup.GeneratedKeyLosesRow | repo/offline-sim/scripts/merge_sharded_results.py:91-92 | a keyless row before a row with the generated key is lost |
| KeyedDedup.LatestRowsCorrectIff | repo/offline-sim/scripts/merge_sharded_results.py:88-94 | the loop produces the declared output exactly when no real key equals the key generated for a keyless row |
| KeyedDedup.PlainKeysAreSafe | repo/offline-sim/scripts/merge_sharded_results.py:91-92 | keys without the generated prefix are always safe |
| Chunking.TasksFromMatrix | repo/offline-sim/scripts/analysis/sweep_oracle_large.py:24-49 | the while loop cuts every positive off-diagonal entry into the declared chunks |
| Chunking.ChunksTile | repo/offline-sim/scripts/analysis/sweep_oracle_large.py:31-48 | chunks start at 0, follow without gap, end at the total; only the last is short |
| Chunking.PayloadsRebuildMatrix | repo/offline-sim/scripts/analysis/sweep_oracle_large.py:24-49 | summing payloads per edge rebuilds the matrix with a zero diagonal |
| Chunking.MatrixAscending | repo/offline-sim/scripts/analysis/sweep_oracle_large.py:34-45 | tasks ascend strictly by source, destination and chunk, so identifiers are unique |
| Eligibility.CollectRanks | repo/online/experiments/distributed/run_gpu_a2_strategy_compare.py:419-428 | the dictionary pass reports clean exactly when all ranks are present and distinct |
| Eligibility.SumsRedundant | repo/online/experiments/distributed/run_gpu_a2_strategy_compare.py:316-324 | with one summary per rank of the world the per-rank checks decide the all-rank sums |
| Eligibility.AggregateHotpath | repo/online/experiments/distributed/run_gpu_a2_strategy_compare.py:387-501 | eligible exactly when the contract is available, ranks are distinct and as many as the world, all fields are present, every rank meets its counts and nothing heavy was recorded |
| ExactMatching.SearchAdmissible | repo/online/src/rs/scheduling/matching.py:27-60 | the search returns positive pairs with distinct destinations |
| ExactMatching.SearchOptimal | repo/online/src/rs/scheduling/matching.py:27-60 | no matching of positive pairs is heavier than the one the search returns |
| FluidDecomposition.LoadDrop | repo/online/src/rs/scheduling/reference/birkhoff_von_neumann_fluid.py:169-186 | a wave takes its quantum off every port it keeps busy and nothing off the others |
| FluidDecomposition.DecomposeFluidMatrix | repo/online/src/rs/scheduling/reference/birkhoff_von_neumann_fluid.py:134-199 | the loop drains the matrix with at most one wave per positive entry, each a heaviest matching of the residual |
| FluidDecomposition.CoverageHolds | repo/online/src/rs/scheduling/reference/birkhoff_von_neumann_fluid.py:228-241 | together the waves serve every remote entry exactly |
| FluidDecomposition.CertificateHoldsIff | repo/online/src/rs/scheduling/reference/birkhoff_von_neumann_fluid.py:197-219 | the emitted horizon is never below the optimal one, and the certificate's bound holds exactly when some port is busy in every wave |
| FluidDecomposition.StarNotOptimal | repo/online/src/rs/scheduling/reference/birkhoff_von_neumann_fluid.py:158-188 | a three-rank matrix with optimal horizon 3 on which every such decomposition needs at least 4 |
| FluidPatterns.ShortPathsOptimal | repo/online/src/rs/scheduling/reference/birkhoff_von_neumann_fluid.py:134-219 | on traffic without a path of four positive entries peeling any maximal matchings emits exactly the optimal horizon |
| FluidPatterns.WithinTwice | repo/online/src/rs/scheduling/reference/birkhoff_von_neumann_fluid.py:134-219 | on any traffic peeling maximal matchings emits less than twice the optimal horizon |
| FluidPatterns.StarsHaveShortPaths | repo/online/src/rs/scheduling/reference/birkhoff_von_neumann_fluid.py:134-219 | in particular when every destination has one sender or every sender one destination |
| FluidMisses.OptimalIffShortPaths | repo/online/src/rs/scheduling/reference/birkhoff_von_neumann_fluid.py:134-219 | all traffic on a pattern of positive entries is decomposed optimally, however ties are broken, exactly when the pattern has no path of four entries |
| FluidMisses.FourPathForcesMiss | repo/online/src/rs/scheduling/reference/birkhoff_von_neumann_fluid.py:134-219 | on every pattern with such a path some traffic overshoots the optimal horizon under every choice of heaviest matchings |

## Left out

- ReadySetScheduler.CollectRealFlows: times and volumes are natural numbers; the scripts use floats
  with tolerances of 1e-9 and 1e-6.
- SchedulerRun.RunGlobalMatchingScheduler: a quantum is a positive number of units, so the floor of 1e-6
  on a wave never applies; tie-breaking is an arbitrary order of candidates, which covers every choice
  the code can make. Which demand is served is stated for scores whose sign is known before the run;
  a base priority below zero that a growing age outweighs in time is not decided.
- CandidateScore.ScoreCandidates: base priorities and the table of downstream loads are arbitrary
  parameters.
- PhaseSerial.SerialPassesAudit: both release rules at delay 0; at a positive delay the barrier rule is
  decided by `PhaseSerial.SerialPassesAuditIff`, while under the per-rank rule it depends on where the
  waves happen to fall. Diagnostics and flow identifiers are left out.
- SchedulerRun.ScheduleInstance: the upper bound on the makespan is for divisible service; when flows are
  sent whole, or some flow is refused by its score, only the lower bound is stated.
- PhasePolicies.BirkhoffPhaseLocal: among equally large matchings any may be taken; the suite's other
  policies reach the oracle comparison through the joint scheduler.
- OracleOptimum.OptimumExists: the CP-SAT search is replaced by the true minimum; a time-limited
  non-optimal status is not modelled.
- Replay.AuditedNeverBeatsOracle: assumes that no entry exceeds one unit of volume per unit of time,
  which the audit does not enforce; the policies modelled here all meet it.
- ReplayAudit.AuditSchedule: the verdict only; messages, busy times and wave counts are left out, and so is
  the sort of the entries, which no check depends on.
- WaveExchange.FlowSourceOffsets: one payload role; packing into `all_to_all_single` buffers is seen
  through its delivered rows.
- GatePlans.FormalGateFails: half precision is modelled for the non-negative whole numbers the gate uses.
- GatePlans.SingleWavePasses: the layout validator's limit of one remote peer per rank and wave is
  not imposed, so the statement covers more plans than the validator admits.
- Exchange.CombineUndoesDispatch: uses the P0 layout on the transposed matrix; the P1 branch of
  `_expected_output_tensor` reads the P0 source base and is never taken by the gate.
- EpCompute.ProjectField: the quotient is exact and rounded half to even, without the float division
  before it; provenance and digests are left out.
- RankStats.Rank: values are real numbers; the library sort is any arrangement of the positions by
  value, and `RankStats.RankValues` supplies a stable one.
- Correlation.PearsonInRange: square roots enter as parameters whose square is the sum of squares.
- MatrixMerge.Merge: weighted counts, the expert map and `bytes_per_token` depend on record order and
  are left out; negative source ranks are modelled for expert records only; the final zeroing of the
  diagonal of a merged context matrix is left out.
- KeyedDedup.LatestRows: CSV reading, field names and failure rows are left out.
- Chunking.MatrixAscending: identifiers are the fields they are printed from.
- Eligibility.AggregateHotpath: the list of reason strings is reduced to the verdict, and ranks are
  visited in any order.
- ExactMatching.SearchOptimal: among equally heavy matchings the code prefers the lexicographically
  smallest, and uses scipy beyond six ports; the model returns some heaviest matching.
- FluidDecomposition.DecomposeFluidMatrix: square matrices of natural numbers; padding of ragged rows
  and clamping of negative entries are left out.
- Instance generation: random choice of edges is left out; only the transposed return matrix matters.
- `_matching_wave_change_count`, `_top_overlap`, means, classifiers, timeline analyses: they would only
  add easy members.
- Complete plus incomplete layers in the reconstruction summary
  (`repo/online/experiments/offline/run_expert_to_traffic_reconstruction.py:352`): a layer can be
  counted twice, so no conservation statement is made.
- Launching of processes, CUDA, NCCL and Gloo, configuration, logging, rendering and plotting.
- The simulation kernel, target plan stores, release frontiers and control lanes.
