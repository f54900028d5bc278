// Phase-serial plans.
module PhaseSerial {
  // Waves packed phase by phase and played one after the other: such a plan obeys the phase
  // barrier, so no policy of this family beats the barrier oracle.

  import opened ExactOracle
  import opened OracleOptimum
  import opened Replay

  // ------------------------------------------------------------------- plans

  datatype Share = Share(flow: Flow, bytes: nat)

  datatype LogicalWave = LogicalWave(shares: seq<Share>, duration: nat)

  // A wave uses every port once and lasts as long as its largest share at least.
  ghost predicate WaveOk(w: LogicalWave) {
    && w.shares != []
    && (forall k | 0 <= k < |w.shares| :: 0 < w.shares[k].bytes <= w.duration)
    && forall k, j | 0 <= k < j < |w.shares| ::
         w.shares[k].flow.src != w.shares[j].flow.src && w.shares[k].flow.dst != w.shares[j].flow.dst
  }

  ghost predicate OfPhase(w: LogicalWave, phase: nat) {
    forall x | x in w.shares :: x.flow.phase == phase
  }

  // Waves of one phase each, in phase order.
  ghost predicate PhasesInOrder(waves: seq<LogicalWave>) {
    forall a, b, x, y | 0 <= a <= b < |waves| && x in waves[a].shares && y in waves[b].shares ::
        x.flow.phase <= y.flow.phase
  }

  function ShareTotal(shares: seq<Share>, f: Flow, k: nat): nat
    requires k <= |shares|
  {
    if k == 0 then 0 else ShareTotal(shares, f, k - 1) + (if shares[k - 1].flow == f then shares[k - 1].bytes else 0)
  }

  /** What the first k waves move of f. */
  function PlanTotal(waves: seq<LogicalWave>, f: Flow, k: nat): nat
    requires k <= |waves|
  {
    if k == 0 then 0 else PlanTotal(waves, f, k - 1) + ShareTotal(waves[k - 1].shares, f, |waves[k - 1].shares|)
  }

  function StartOf(waves: seq<LogicalWave>, k: nat): nat
    requires k <= |waves|
  {
    if k == 0 then 0 else StartOf(waves, k - 1) + waves[k - 1].duration
  }

  // Every share belongs to a flow of the instance, and every flow gets its volume.
  ghost predicate PlanServes(inst: Instance, phases: nat, waves: seq<LogicalWave>)
    requires inst.Valid()
  {
    && (forall k, x | 0 <= k < |waves| && x in waves[k].shares :: IsTarget(inst, phases, x.flow))
    && forall f | IsTarget(inst, phases, f) :: PlanTotal(waves, f, |waves|) == Volume(inst, f)
  }

  ghost predicate PlanOk(inst: Instance, phases: nat, waves: seq<LogicalWave>)
    requires inst.Valid()
  {
    (forall k | 0 <= k < |waves| :: WaveOk(waves[k])) && PhasesInOrder(waves) && PlanServes(inst, phases, waves)
  }

  // ------------------------------------------------------------------- the schedule of a plan

  function WaveEntries(w: LogicalWave, start: nat, id: nat, k: nat): (entries: seq<Entry>)
    requires k <= |w.shares|
    ensures |entries| == k
  {
    seq(k, i requires 0 <= i < k => Entry(w.shares[i].flow, start, start + w.duration, w.shares[i].bytes, id))
  }

  function SerialEntries(waves: seq<LogicalWave>, k: nat): seq<Entry>
    requires k <= |waves|
  {
    if k == 0 then []
    else SerialEntries(waves, k - 1) + WaveEntries(waves[k - 1], StartOf(waves, k - 1), k - 1, |waves[k - 1].shares|)
  }

  method BuildSerialSchedule(waves: seq<LogicalWave>) returns (schedule: seq<Entry>, current: nat)
    ensures schedule == SerialEntries(waves, |waves|) && current == StartOf(waves, |waves|)
  {
    schedule, current := [], 0;
    for k := 0 to |waves|
      invariant schedule == SerialEntries(waves, k) && current == StartOf(waves, k)
    {
      ghost var before := schedule;
      var w := waves[k];
      for i := 0 to |w.shares|
        invariant schedule == before + WaveEntries(w, current, k, i)
      {
        schedule := schedule + [Entry(w.shares[i].flow, current, current + w.duration, w.shares[i].bytes, k)];
      }
      current := current + w.duration;
    }
  }

  lemma {:induction false} StartsRise(waves: seq<LogicalWave>, a: nat, b: nat)
    requires a <= b <= |waves|
    ensures StartOf(waves, a) <= StartOf(waves, b)
  {
    if a < b { StartsRise(waves, a, b - 1); }
  }

  // Where an entry comes from.
  ghost predicate FromWave(waves: seq<LogicalWave>, e: Entry) {
    && e.wave < |waves| && e.start == StartOf(waves, e.wave) && e.end == StartOf(waves, e.wave + 1)
    && Share(e.flow, e.served) in waves[e.wave].shares
  }

  lemma {:induction false} EntriesFromWaves(waves: seq<LogicalWave>, k: nat)
    requires k <= |waves|
    ensures forall i | 0 <= i < |SerialEntries(waves, k)| ::
            FromWave(waves, SerialEntries(waves, k)[i]) && SerialEntries(waves, k)[i].wave < k
  {
    if k > 0 {
      EntriesFromWaves(waves, k - 1);
      var w := waves[k - 1];
      var added := WaveEntries(w, StartOf(waves, k - 1), k - 1, |w.shares|);
      forall i | 0 <= i < |added|
        ensures FromWave(waves, added[i])
      {
        assert w.shares[i] == Share(added[i].flow, added[i].served);
      }
    }
  }

  lemma {:induction false} SerialPortsExclusive(waves: seq<LogicalWave>, k: nat)
    requires k <= |waves| && forall a | 0 <= a < |waves| :: WaveOk(waves[a])
    ensures PortsExclusive(SerialEntries(waves, k))
  {
    if k > 0 {
      SerialPortsExclusive(waves, k - 1);
      EntriesFromWaves(waves, k - 1);
      var before, w := SerialEntries(waves, k - 1), waves[k - 1];
      forall i | 0 <= i < |before|
        ensures before[i].end <= StartOf(waves, k - 1)
      {
        StartsRise(waves, before[i].wave + 1, k - 1);
      }
      JoinExclusive(before, w, StartOf(waves, k - 1), k - 1);
    }
  }

  lemma JoinExclusive(before: seq<Entry>, w: LogicalWave, start: nat, id: nat)
    requires PortsExclusive(before) && WaveOk(w) && forall i | 0 <= i < |before| :: before[i].end <= start
    ensures PortsExclusive(before + WaveEntries(w, start, id, |w.shares|))
  {
    var added := WaveEntries(w, start, id, |w.shares|);
    forall i, j | 0 <= i < j < |before + added|
      ensures EntriesApart((before + added)[i], (before + added)[j])
    {
      if j < |before| {
        assert EntriesApart(before[i], before[j]);
      } else if |before| <= i {
        assert added[i - |before|].flow.src != added[j - |before|].flow.src;
      }
    }
  }

  lemma {:induction false} ServedAfter(a: seq<Entry>, b: seq<Entry>, f: Flow, k: nat)
    requires k <= |b|
    ensures ServedUpTo(a + b, f, |a| + k) == ServedUpTo(a, f, |a|) + ServedUpTo(b, f, k)
  {
    if k == 0 {
      ServedBefore(a, b, f, |a|);
    } else {
      ServedAfter(a, b, f, k - 1);
    }
  }

  lemma {:induction false} ServedBefore(a: seq<Entry>, b: seq<Entry>, f: Flow, k: nat)
    requires k <= |a|
    ensures ServedUpTo(a + b, f, k) == ServedUpTo(a, f, k)
  {
    if k > 0 { ServedBefore(a, b, f, k - 1); }
  }

  lemma {:induction false} ServedByWave(w: LogicalWave, start: nat, id: nat, f: Flow, k: nat)
    requires k <= |w.shares|
    ensures ServedUpTo(WaveEntries(w, start, id, |w.shares|), f, k) == ShareTotal(w.shares, f, k)
  {
    if k > 0 { ServedByWave(w, start, id, f, k - 1); }
  }

  lemma {:induction false} ServedByPlan(waves: seq<LogicalWave>, f: Flow, k: nat)
    requires k <= |waves|
    ensures Served(SerialEntries(waves, k), f) == PlanTotal(waves, f, k)
  {
    if k > 0 {
      ServedByPlan(waves, f, k - 1);
      var w := waves[k - 1];
      var added := WaveEntries(w, StartOf(waves, k - 1), k - 1, |w.shares|);
      ServedAfter(SerialEntries(waves, k - 1), added, f, |added|);
      ServedByWave(w, StartOf(waves, k - 1), k - 1, f, |w.shares|);
    }
  }

  // An earlier phase is over before a later one starts.
  lemma EarlierPhaseOver(waves: seq<LogicalWave>, e: Entry, x: Entry)
    requires PhasesInOrder(waves) && FromWave(waves, e) && FromWave(waves, x) && x.flow.phase < e.flow.phase
    ensures x.end <= e.start
  {
    if e.wave <= x.wave {
      assert false;
    }
    StartsRise(waves, x.wave + 1, e.wave);
  }

  lemma PhaseOverBefore(waves: seq<LogicalWave>, e: Entry, phase: nat)
    requires PhasesInOrder(waves) && FromWave(waves, e) && phase < e.flow.phase
    ensures Completion(SerialEntries(waves, |waves|), Phase(phase)) <= e.start
  {
    var schedule := SerialEntries(waves, |waves|);
    EntriesFromWaves(waves, |waves|);
    if Completion(schedule, Phase(phase)) > 0 {
      var i :| 0 <= i < |schedule| && FlowIn(schedule[i].flow, Phase(phase)) &&
          schedule[i].end == Completion(schedule, Phase(phase));
      EarlierPhaseOver(waves, e, schedule[i]);
    }
  }

  lemma SerialReleases(waves: seq<LogicalWave>)
    requires PhasesInOrder(waves)
    ensures ReleaseRespected(SerialEntries(waves, |waves|), Local, 0)
  {
    hide Completion, SerialEntries, FromWave, PhasesInOrder;
    var schedule := SerialEntries(waves, |waves|);
    EntriesFromWaves(waves, |waves|);
    forall i | 0 <= i < |schedule|
      ensures schedule[i].flow.phase == 1 ==> Completion(schedule, Phase(0)) <= schedule[i].start
      ensures schedule[i].flow.phase == 2 ==> Completion(schedule, Phase(1)) <= schedule[i].start
    {
      if schedule[i].flow.phase == 1 { PhaseOverBefore(waves, schedule[i], 0); }
      if schedule[i].flow.phase == 2 { PhaseOverBefore(waves, schedule[i], 1); }
    }
  }

  /** A rank's inbound traffic of a phase is complete no later than the phase. */
  lemma InboundWithinPhase(schedule: seq<Entry>, phase: nat, rank: nat)
    ensures Completion(schedule, Inbound(phase, rank)) <= Completion(schedule, Phase(phase))
  {
    if Completion(schedule, Inbound(phase, rank)) > 0 {
      var i :| 0 <= i < |schedule| && FlowIn(schedule[i].flow, Inbound(phase, rank)) &&
          schedule[i].end == Completion(schedule, Inbound(phase, rank));
      assert FlowIn(schedule[i].flow, Phase(phase));
    }
  }

  lemma LocalReleasesAreJoint(schedule: seq<Entry>, delay: nat)
    requires ReleaseRespected(schedule, Local, delay)
    ensures ReleaseRespected(schedule, Joint, delay)
  {
    hide Completion;
    forall i | 0 <= i < |schedule|
      ensures schedule[i].flow.phase == 1 ==>
                Completion(schedule, Inbound(0, schedule[i].flow.src)) + delay <= schedule[i].start
      ensures schedule[i].flow.phase == 2 ==>
                Completion(schedule, Inbound(1, schedule[i].flow.src)) <= schedule[i].start
    {
      InboundWithinPhase(schedule, 0, schedule[i].flow.src);
      InboundWithinPhase(schedule, 1, schedule[i].flow.src);
    }
  }

  lemma SerialMakespan(waves: seq<LogicalWave>)
    requires forall a | 0 <= a < |waves| :: WaveOk(waves[a])
    ensures Completion(SerialEntries(waves, |waves|), Everything) == StartOf(waves, |waves|)
  {
    var schedule := SerialEntries(waves, |waves|);
    if Completion(schedule, Everything) > 0 { LatestEndsInTime(waves); }
    if waves != [] {
      assert WaveOk(waves[|waves| - 1]);
      assert schedule[|schedule| - 1].end == StartOf(waves, |waves|) &&
             FlowIn(schedule[|schedule| - 1].flow, Everything);
    }
  }

  lemma LatestEndsInTime(waves: seq<LogicalWave>)
    requires Completion(SerialEntries(waves, |waves|), Everything) > 0
    ensures Completion(SerialEntries(waves, |waves|), Everything) <= StartOf(waves, |waves|)
  {
    hide SerialEntries;
    var schedule := SerialEntries(waves, |waves|);
    EntriesFromWaves(waves, |waves|);
    var i :| 0 <= i < |schedule| && schedule[i].end == Completion(schedule, Everything);
    assert FromWave(waves, schedule[i]);
    StartsRise(waves, schedule[i].wave + 1, |waves|);
  }

  lemma EndOfWave(waves: seq<LogicalWave>, e: Entry)
    requires FromWave(waves, e)
    ensures e.end == e.start + waves[e.wave].duration
  {
  }

  lemma SerialEntryOk(inst: Instance, phases: nat, waves: seq<LogicalWave>, e: Entry)
    requires inst.Valid() && PlanOk(inst, phases, waves) && FromWave(waves, e)
    ensures IsTarget(inst, phases, e.flow) && e.served > 0 && e.start + e.served <= e.end
  {
    hide PhasesInOrder, StartOf, Volume, PlanTotal, IsTarget;
    var w := waves[e.wave];
    assert WaveOk(w) && e.end == e.start + w.duration by { EndOfWave(waves, e); }
    var k :| 0 <= k < |w.shares| && w.shares[k] == Share(e.flow, e.served);
  }

  /** The schedule of a phase-serial plan passes the audit under the phase barrier, and so under the
      per-rank releases, never exceeds unit rate, and ends with its last wave. */
  lemma SerialPassesAudit(inst: Instance, phases: nat, waves: seq<LogicalWave>)
    requires inst.Valid() && PlanOk(inst, phases, waves)
    ensures var schedule := SerialEntries(waves, |waves|);
            && AuditValid(inst, phases, Local, 0, schedule) && AuditValid(inst, phases, Joint, 0, schedule)
            && RateBounded(schedule) && Completion(schedule, Everything) == StartOf(waves, |waves|)
  {
    hide Completion, PortsExclusive, ReleaseRespected, PhasesInOrder, SerialEntries, FromWave, WaveOk;
    var schedule := SerialEntries(waves, |waves|);
    EntriesFromWaves(waves, |waves|);
    forall i | 0 <= i < |schedule|
      ensures IsTarget(inst, phases, schedule[i].flow) && schedule[i].served > 0
      ensures schedule[i].start + schedule[i].served <= schedule[i].end
    {
      SerialEntryOk(inst, phases, waves, schedule[i]);
    }
    SerialPortsExclusive(waves, |waves|);
    SerialReleases(waves);
    LocalReleasesAreJoint(schedule, 0);
    forall f | IsTarget(inst, phases, f)
      ensures Served(schedule, f) == Volume(inst, f)
    {
      ServedByPlan(waves, f, |waves|);
    }
    SerialMakespan(waves);
  }

  // ------------------------------------------------------------------- compute delays

  ghost predicate HasReturn(waves: seq<LogicalWave>) {
    exists k, x :: 0 <= k < |waves| && x in waves[k].shares && x.flow.phase == 1
  }

  // No share of the first k waves belongs to return traffic.
  ghost predicate NoReturnBefore(waves: seq<LogicalWave>, k: nat)
    requires k <= |waves|
  {
    forall a, x | 0 <= a < k && x in waves[a].shares :: x.flow.phase != 1
  }

  lemma {:induction false} FirstReturn(waves: seq<LogicalWave>, n: nat) returns (k: nat, x: Share)
    requires n <= |waves| && !NoReturnBefore(waves, n)
    ensures k < n && NoReturnBefore(waves, k) && x in waves[k].shares && x.flow.phase == 1
  {
    if NoReturnBefore(waves, n - 1) {
      k := n - 1;
      x :| x in waves[k].shares && x.flow.phase == 1;
    } else {
      k, x := FirstReturn(waves, n - 1);
    }
  }

  // Each share has its entry.
  lemma {:induction false} ShareScheduled(waves: seq<LogicalWave>, n: nat, k: nat, x: Share) returns (i: nat)
    requires k < n <= |waves| && x in waves[k].shares
    ensures i < |SerialEntries(waves, n)|
    ensures SerialEntries(waves, n)[i] == Entry(x.flow, StartOf(waves, k), StartOf(waves, k + 1), x.bytes, k)
  {
    if k == n - 1 {
      var j :| 0 <= j < |waves[k].shares| && waves[k].shares[j] == x;
      i := |SerialEntries(waves, k)| + j;
    } else {
      i := ShareScheduled(waves, n - 1, k, x);
    }
  }

  // The dispatch ends exactly when the first return wave starts.
  lemma {:induction false} DispatchEndsAtReturn(waves: seq<LogicalWave>, k: nat, x: Share)
    requires (forall a | 0 <= a < |waves| :: WaveOk(waves[a])) && PhasesInOrder(waves)
    requires k < |waves| && NoReturnBefore(waves, k) && x in waves[k].shares && x.flow.phase == 1
    ensures StartOf(waves, k) <= Completion(SerialEntries(waves, |waves|), Phase(0))
  {
    if k > 0 {
      var w := waves[k - 1];
      assert WaveOk(w) && w.shares[0] in w.shares;
      var i := ShareScheduled(waves, |waves|, k - 1, w.shares[0]);
      assert w.shares[0].flow.phase == 0;
      assert FlowIn(SerialEntries(waves, |waves|)[i].flow, Phase(0));
    }
  }

  lemma {:induction false} ReturnWaits(waves: seq<LogicalWave>, delay: nat)
    requires (forall a | 0 <= a < |waves| :: WaveOk(waves[a])) && PhasesInOrder(waves)
    requires HasReturn(waves) && ReleaseRespected(SerialEntries(waves, |waves|), Local, delay)
    ensures delay == 0
  {
    var k, x := FirstReturn(waves, |waves|);
    DispatchEndsAtReturn(waves, k, x);
    hide Completion, SerialEntries, PhasesInOrder, WaveOk;
    var i := ShareScheduled(waves, |waves|, k, x);
    var e := SerialEntries(waves, |waves|)[i];
    assert e.flow.phase == 1 && Barrier(Local, 0, e.flow.src) == Phase(0);
  }

  // Without return entries the delay does not matter.
  lemma {:induction false} DelayIrrelevant(waves: seq<LogicalWave>, delay: nat)
    requires !HasReturn(waves) && ReleaseRespected(SerialEntries(waves, |waves|), Local, 0)
    ensures ReleaseRespected(SerialEntries(waves, |waves|), Local, delay)
  {
    hide Completion, SerialEntries;
    var schedule := SerialEntries(waves, |waves|);
    EntriesFromWaves(waves, |waves|);
    forall i | 0 <= i < |schedule|
      ensures schedule[i].flow.phase != 1
      ensures schedule[i].flow.phase == 2 ==>
                Completion(schedule, Barrier(Local, 1, schedule[i].flow.src)) <= schedule[i].start
    {
      assert FromWave(waves, schedule[i]);
    }
  }

  /** The builder never waits for a compute delay: under the barrier its plan passes the audit at a
      delay exactly when the delay is 0 or nothing is returned. */
  lemma {:induction false} SerialPassesAuditIff(inst: Instance, phases: nat, delay: nat, waves: seq<LogicalWave>)
    requires inst.Valid() && PlanOk(inst, phases, waves)
    ensures AuditValid(inst, phases, Local, delay, SerialEntries(waves, |waves|)) <==> delay == 0 || !HasReturn(waves)
  {
    SerialPassesAudit(inst, phases, waves);
    AuditAtDelay(inst, phases, delay, SerialEntries(waves, |waves|));
    hide AuditValid, ReleaseRespected, HasReturn, PhasesInOrder, WaveOk, PlanServes;
    if !HasReturn(waves) { DelayIrrelevant(waves, delay); }
    if HasReturn(waves) && ReleaseRespected(SerialEntries(waves, |waves|), Local, delay) { ReturnWaits(waves, delay); }
  }

  // Of the audit's rules only the releases depend on the delay.
  lemma AuditAtDelay(inst: Instance, phases: nat, delay: nat, schedule: seq<Entry>)
    requires inst.Valid() && AuditValid(inst, phases, Local, 0, schedule)
    ensures ReleaseRespected(schedule, Local, 0)
    ensures AuditValid(inst, phases, Local, delay, schedule) <==> ReleaseRespected(schedule, Local, delay)
  {
  }

  /** No phase-serial plan beats the barrier oracle. */
  lemma SerialNeverBeatsBarrier(inst: Instance, waves: seq<LogicalWave>)
    requires inst.Valid() && PlanOk(inst, 3, waves)
    ensures Optimum(inst, Local, 0) <= StartOf(waves, |waves|)
  {
    SerialPassesAudit(inst, 3, waves);
    AuditedNeverBeatsOracle(inst, Local, 0, SerialEntries(waves, |waves|));
  }
}
