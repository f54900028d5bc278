// The replay audit.
module Replay {
  // What the audit every planner's schedule goes through is worth: an audited schedule
  // that moves one unit per time step never beats the oracle.

  import opened Transfers
  import opened ExactOracle
  import opened OracleOptimum

  datatype Flow = Flow(phase: nat, src: nat, dst: nat)

  datatype Entry = Entry(flow: Flow, start: nat, end: nat, served: nat, wave: nat)

  // phases is 3 for an execution window, 2 for a runtime look-ahead without real P2 traffic.
  predicate IsTarget(inst: Instance, phases: nat, f: Flow)
    requires inst.Valid()
  {
    f.phase < phases && f.src < inst.rankCount && f.dst < inst.rankCount && f.src != f.dst && Volume(inst, f) > 0
  }

  function Volume(inst: Instance, f: Flow): nat
    requires inst.Valid() && f.src < inst.rankCount && f.dst < inst.rankCount
  {
    Demand(inst, f.phase)[f.src][f.dst]
  }

  predicate FlowIn(f: Flow, scope: Scope) {
    match scope
    case Everything => true
    case Phase(p) => f.phase == p
    case Inbound(p, r) => f.phase == p && f.dst == r
  }

  /** The latest end among the entries in scope, 0 when there are none. */
  function CompletionUpTo(schedule: seq<Entry>, scope: Scope, k: nat): (end: nat)
    requires k <= |schedule|
    ensures forall i | 0 <= i < k && FlowIn(schedule[i].flow, scope) :: schedule[i].end <= end
    ensures end == 0 || exists i | 0 <= i < k && FlowIn(schedule[i].flow, scope) :: schedule[i].end == end
  {
    if k == 0 then 0
    else
      var before := CompletionUpTo(schedule, scope, k - 1);
      if FlowIn(schedule[k - 1].flow, scope) then Max(before, schedule[k - 1].end) else before
  }

  function Completion(schedule: seq<Entry>, scope: Scope): nat {
    CompletionUpTo(schedule, scope, |schedule|)
  }

  /** The volume of f moved by the first k entries. */
  function ServedUpTo(schedule: seq<Entry>, f: Flow, k: nat): nat
    requires k <= |schedule|
  {
    if k == 0 then 0
    else ServedUpTo(schedule, f, k - 1) + (if schedule[k - 1].flow == f then schedule[k - 1].served else 0)
  }

  function Served(schedule: seq<Entry>, f: Flow): nat {
    ServedUpTo(schedule, f, |schedule|)
  }

  ghost predicate EntriesApart(a: Entry, b: Entry) {
    a.flow.src == b.flow.src || a.flow.dst == b.flow.dst ==> a.end <= b.start || b.end <= a.start
  }

  ghost predicate PortsExclusive(schedule: seq<Entry>) {
    forall i, j | 0 <= i < j < |schedule| :: EntriesApart(schedule[i], schedule[j])
  }

  ghost predicate ReleaseRespected(schedule: seq<Entry>, mode: Mode, delay: nat) {
    forall i | 0 <= i < |schedule| ::
      && (schedule[i].flow.phase == 1 ==>
            Completion(schedule, Barrier(mode, 0, schedule[i].flow.src)) + delay <= schedule[i].start)
      && (schedule[i].flow.phase == 2 ==>
            Completion(schedule, Barrier(mode, 1, schedule[i].flow.src)) <= schedule[i].start)
  }

  // The audit's rules apart from completeness.
  ghost predicate RulesHold(inst: Instance, phases: nat, mode: Mode, delay: nat, schedule: seq<Entry>)
    requires inst.Valid()
  {
    && (forall i | 0 <= i < |schedule| ::
          IsTarget(inst, phases, schedule[i].flow) && schedule[i].served > 0 && schedule[i].start <= schedule[i].end)
    && PortsExclusive(schedule)
    && ReleaseRespected(schedule, mode, delay)
  }

  ghost predicate VolumesMet(inst: Instance, phases: nat, schedule: seq<Entry>)
    requires inst.Valid()
  {
    forall f | IsTarget(inst, phases, f) :: Served(schedule, f) == Volume(inst, f)
  }

  ghost predicate AuditValid(inst: Instance, phases: nat, mode: Mode, delay: nat, schedule: seq<Entry>)
    requires inst.Valid()
  {
    RulesHold(inst, phases, mode, delay, schedule) && VolumesMet(inst, phases, schedule)
  }

  // No entry moves more than one unit per time step, which the audit itself does not check.
  ghost predicate RateBounded(schedule: seq<Entry>) {
    forall i | 0 <= i < |schedule| :: schedule[i].start + schedule[i].served <= schedule[i].end
  }

  // ------------------------------------------------ unit tasks inside the entries

  ghost function Locate(schedule: seq<Entry>, f: Flow, ordinal: nat, k: nat): (r: nat)
    requires k <= |schedule| && ordinal < ServedUpTo(schedule, f, k)
    ensures r < k && schedule[r].flow == f
    ensures ServedUpTo(schedule, f, r) <= ordinal < ServedUpTo(schedule, f, r) + schedule[r].served
  {
    if ServedUpTo(schedule, f, k - 1) <= ordinal then k - 1 else Locate(schedule, f, ordinal, k - 1)
  }

  ghost function EntryOf(schedule: seq<Entry>, t: Task): nat
    requires t.ordinal < Served(schedule, FlowOf(t))
  {
    Locate(schedule, FlowOf(t), t.ordinal, |schedule|)
  }

  ghost function UnitStart(schedule: seq<Entry>, t: Task): nat
    requires t.ordinal < Served(schedule, FlowOf(t))
  {
    var r := EntryOf(schedule, t);
    schedule[r].start + (t.ordinal - ServedUpTo(schedule, FlowOf(t), r))
  }

  function FlowOf(t: Task): Flow { Flow(t.phase, t.src, t.dst) }

  ghost predicate Unrolls(schedule: seq<Entry>, tasks: seq<Task>, starts: seq<nat>) {
    && |starts| == |tasks|
    && (forall i | 0 <= i < |tasks| ::
          tasks[i].duration == 1 && tasks[i].ordinal < Served(schedule, FlowOf(tasks[i])) &&
              starts[i] == UnitStart(schedule, tasks[i]))
  }

  lemma UnitInsideEntry(schedule: seq<Entry>, tasks: seq<Task>, starts: seq<nat>, i: nat)
    requires RateBounded(schedule) && Unrolls(schedule, tasks, starts) && i < |tasks|
    ensures var e := schedule[EntryOf(schedule, tasks[i])];
            e.flow == FlowOf(tasks[i]) && e.start <= starts[i] && starts[i] + 1 <= e.end
  {
  }

  lemma UnrolledUnitsApart(schedule: seq<Entry>, tasks: seq<Task>, starts: seq<nat>)
    requires RateBounded(schedule) && Unrolls(schedule, tasks, starts) && PortsExclusive(schedule) && Distinct(tasks)
    ensures NoOverlap(tasks, starts)
  {
    forall i, j | 0 <= i < |tasks| && 0 <= j < |tasks| && i != j
      ensures Apart(tasks, starts, i, j)
    {
      UnitInsideEntry(schedule, tasks, starts, i);
      UnitInsideEntry(schedule, tasks, starts, j);
      var r, q := EntryOf(schedule, tasks[i]), EntryOf(schedule, tasks[j]);
      if SharesPort(tasks[i], tasks[j]) {
        if r < q {
          assert EntriesApart(schedule[r], schedule[q]);
        } else if q < r {
          assert EntriesApart(schedule[q], schedule[r]);
        } else {
          assert tasks[i] != tasks[j];
        }
      }
    }
  }

  lemma UnrolledScopeEnd(schedule: seq<Entry>, tasks: seq<Task>, starts: seq<nat>, scope: Scope)
    requires RateBounded(schedule) && Unrolls(schedule, tasks, starts)
    ensures LatestEnd(tasks, starts, scope) <= Completion(schedule, scope)
  {
    if LatestEnd(tasks, starts, scope) > 0 {
      var i :| 0 <= i < |tasks| && In(tasks[i], scope) &&
          starts[i] + tasks[i].duration == LatestEnd(tasks, starts, scope);
      UnitInsideEntry(schedule, tasks, starts, i);
      assert FlowIn(schedule[EntryOf(schedule, tasks[i])].flow, scope);
    }
  }

  lemma UnrolledRelease(schedule: seq<Entry>, tasks: seq<Task>, starts: seq<nat>, mode: Mode, delay: nat)
    requires RateBounded(schedule) && Unrolls(schedule, tasks, starts) && ReleaseRespected(schedule, mode, delay)
    ensures Released(tasks, starts, mode, delay)
  {
    forall i | 0 <= i < |tasks|
      ensures tasks[i].phase == 1 ==> LatestEnd(tasks, starts, Barrier(mode, 0, tasks[i].src)) + delay <= starts[i]
      ensures tasks[i].phase == 2 ==> LatestEnd(tasks, starts, Barrier(mode, 1, tasks[i].src)) <= starts[i]
    {
      UnitInsideEntry(schedule, tasks, starts, i);
      UnrolledScopeEnd(schedule, tasks, starts, Barrier(mode, 0, tasks[i].src));
      UnrolledScopeEnd(schedule, tasks, starts, Barrier(mode, 1, tasks[i].src));
    }
  }

  /** No audited schedule without an entry faster than one unit per time step, from any planner,
      beats the oracle of its release rule. */
  lemma AuditedNeverBeatsOracle(inst: Instance, mode: Mode, delay: nat, schedule: seq<Entry>)
    requires inst.Valid() && AuditValid(inst, 3, mode, delay, schedule) && RateBounded(schedule)
    ensures Optimum(inst, mode, delay) <= Completion(schedule, Everything)
  {
    var tasks := ExactTasks(inst);
    ExactTasksAreUnits(inst);
    forall i | 0 <= i < |tasks|
      ensures tasks[i].duration == 1 && tasks[i].ordinal < Served(schedule, FlowOf(tasks[i]))
    {
      assert tasks[i] in tasks;
      assert IsTarget(inst, 3, FlowOf(tasks[i]));
    }
    var starts := seq(|tasks|, i requires 0 <= i < |tasks| => UnitStart(schedule, tasks[i]));
    UnrolledUnitsApart(schedule, tasks, starts);
    UnrolledRelease(schedule, tasks, starts, mode, delay);
    UnrolledScopeEnd(schedule, tasks, starts, Everything);
    HorizonIsHarmless(inst, mode, delay, starts);
  }

  /** The premise is needed at every rate above one: the audit accepts k units in any d < k steps. */
  lemma AuditIgnoresRate(k: nat, d: nat)
    requires d < k
    ensures var inst := Instance(2, SingleEntry(2, 0, 1, k), SingleEntry(2, 0, 1, 0), SingleEntry(2, 0, 1, 0));
            var schedule := [Entry(Flow(0, 0, 1), 0, d, k, 0)];
            && AuditValid(inst, 3, Joint, 0, schedule)
            && Completion(schedule, Everything) == d < Optimum(inst, Joint, 0)
  {
    var inst := Instance(2, SingleEntry(2, 0, 1, k), SingleEntry(2, 0, 1, 0), SingleEntry(2, 0, 1, 0));
    var schedule := [Entry(Flow(0, 0, 1), 0, d, k, 0)];
    forall f | IsTarget(inst, 3, f)
      ensures Served(schedule, f) == Volume(inst, f)
    {
      assert f == Flow(0, 0, 1);
      assert ServedUpTo(schedule, f, 0) == 0;
    }
    assert CompletionUpTo(schedule, Everything, 0) == 0;
    SingleEntryLoad(2, 0, 1, k);
    var joint := Optimum(inst, Joint, 0);
    assert IsOptimum(inst, Joint, 0, joint);
    var best :| Feasible(inst, Joint, 0, best) && Makespan(ExactTasks(inst), best) == joint;
    JointLowerBounds(inst, 0, best);
  }
}
