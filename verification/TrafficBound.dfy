// Traffic per port.
module TrafficBound {
  // No schedule moves more over a port than its load in all phases together, and no schedule can be
  // shorter than that load.

  import opened Transfers
  import opened Totals
  import opened ExactOracle
  import opened OracleOptimum
  import opened Replay
  import opened ReplayAudit
  import opened Promptness

  // The traffic of the phases that are really scheduled.
  function AllTraffic(inst: Instance, phases: nat): (m: Matrix)
    requires inst.Valid()
    ensures Square(m, inst.rankCount)
  {
    var both := MatrixSum(inst.p0, inst.p1);
    if phases == 3 then MatrixSum(both, inst.p2) else both
  }

  // The flow between a port and rank j in a phase.
  function CellFlow(p: nat, port: Port, j: nat): Flow {
    match port
    case Send(r) => Flow(p, r, j)
    case Recv(r) => Flow(p, j, r)
  }

  // What the first k entries move over a port in a phase, by the rank at the other end.
  function Cell(schedule: seq<Entry>, k: nat, p: nat, port: Port): nat -> int
    requires k <= |schedule|
  {
    (j: nat) => if j == port.rank then 0 else ServedUpTo(schedule, CellFlow(p, port, j), k)
  }

  predicate Remote(e: Entry, ranks: nat) {
    e.flow.phase < 3 && e.flow.src < ranks && e.flow.dst < ranks && e.flow.src != e.flow.dst
  }

  function OtherEnd(f: Flow, port: Port): nat {
    match port
    case Send(_) => f.dst
    case Recv(_) => f.src
  }

  lemma {:induction false} CellStep(schedule: seq<Entry>, k: nat, p: nat, port: Port, ranks: nat, n: nat)
    requires k < |schedule| && Remote(schedule[k], ranks)
    ensures Total(Cell(schedule, k + 1, p, port), n) == Total(Cell(schedule, k, p, port), n) +
            (if schedule[k].flow.phase == p && OnPort(schedule[k], port) &&
                OtherEnd(schedule[k].flow, port) < n then schedule[k].served else 0)
  {
    if n > 0 { CellStep(schedule, k, p, port, ranks, n - 1); }
  }

  lemma {:induction false} MovedByPhase(schedule: seq<Entry>, k: nat, port: Port, ranks: nat)
    requires k <= |schedule| && forall i | 0 <= i < |schedule| :: Remote(schedule[i], ranks)
    ensures MovedUpTo(schedule, port, k) ==
            Total(Cell(schedule, k, 0, port), ranks) + Total(Cell(schedule, k, 1, port), ranks) +
                Total(Cell(schedule, k, 2, port), ranks)
  {
    if k == 0 {
      TotalZero(Cell(schedule, 0, 0, port), ranks);
      TotalZero(Cell(schedule, 0, 1, port), ranks);
      TotalZero(Cell(schedule, 0, 2, port), ranks);
    } else {
      MovedByPhase(schedule, k - 1, port, ranks);
      CellStep(schedule, k - 1, 0, port, ranks, ranks);
      CellStep(schedule, k - 1, 1, port, ranks, ranks);
      CellStep(schedule, k - 1, 2, port, ranks, ranks);
    }
  }

  // No flow is served beyond its volume, and only real flows are served.
  ghost predicate WithinDemand(inst: Instance, phases: nat, schedule: seq<Entry>)
    requires inst.Valid()
  {
    && (forall i | 0 <= i < |schedule| :: IsTarget(inst, phases, schedule[i].flow))
    && forall f | IsTarget(inst, phases, f) :: Served(schedule, f) <= Volume(inst, f)
  }

  lemma {:induction false} StrangerUnserved(schedule: seq<Entry>, f: Flow, k: nat)
    requires k <= |schedule| && forall i | 0 <= i < k :: schedule[i].flow != f
    ensures ServedUpTo(schedule, f, k) == 0
  {
    if k > 0 { StrangerUnserved(schedule, f, k - 1); }
  }

  lemma ServedWithin(inst: Instance, phases: nat, schedule: seq<Entry>, f: Flow)
    requires inst.Valid() && WithinDemand(inst, phases, schedule)
    ensures IsTarget(inst, phases, f) ==> Served(schedule, f) <= Volume(inst, f)
    ensures !IsTarget(inst, phases, f) ==> Served(schedule, f) == 0
  {
    if !IsTarget(inst, phases, f) { StrangerUnserved(schedule, f, |schedule|); }
  }

  lemma {:induction false} CellsWithin(inst: Instance, phases: nat, schedule: seq<Entry>, p: nat, port: Port, n: nat)
    requires inst.Valid() && phases <= 3 && p < 3 && WithinDemand(inst, phases, schedule)
    requires port.rank < inst.rankCount && n <= inst.rankCount
    ensures p >= phases ==> Total(Cell(schedule, |schedule|, p, port), n) == 0
    ensures port.Send? ==> Total(Cell(schedule, |schedule|, p, port), n) <= RemoteRowSum(Demand(inst, p), port.rank, n)
    ensures port.Recv? ==> Total(Cell(schedule, |schedule|, p, port), n) <= RemoteColSum(Demand(inst, p), port.rank, n)
  {
    if n > 0 {
      CellsWithin(inst, phases, schedule, p, port, n - 1);
      ServedWithin(inst, phases, schedule, CellFlow(p, port, n - 1));
    }
  }

  /** Whatever the schedule, a port moves no more than its load in all phases together. */
  lemma MovedWithinLoad(inst: Instance, phases: nat, schedule: seq<Entry>, port: Port)
    requires inst.Valid() && 2 <= phases <= 3 && WithinDemand(inst, phases, schedule)
    ensures Moved(schedule, port) <= LoadAt(AllTraffic(inst, phases), port)
  {
    var n := inst.rankCount;
    forall i | 0 <= i < |schedule|
      ensures Remote(schedule[i], n)
    {
      assert IsTarget(inst, phases, schedule[i].flow);
    }
    if port.rank < n {
      MovedByPhase(schedule, |schedule|, port, n);
      CellsWithin(inst, phases, schedule, 0, port, n);
      CellsWithin(inst, phases, schedule, 1, port, n);
      CellsWithin(inst, phases, schedule, 2, port, n);
      TrafficAt(inst, phases, port);
    } else {
      NothingBeyond(schedule, port, n, |schedule|);
    }
  }

  lemma {:induction false} NothingBeyond(schedule: seq<Entry>, port: Port, ranks: nat, k: nat)
    requires k <= |schedule| && port.rank >= ranks && forall i | 0 <= i < |schedule| :: Remote(schedule[i], ranks)
    ensures MovedUpTo(schedule, port, k) == 0
  {
    if k > 0 { NothingBeyond(schedule, port, ranks, k - 1); }
  }

  lemma TrafficAt(inst: Instance, phases: nat, port: Port)
    requires inst.Valid()
    ensures LoadAt(AllTraffic(inst, phases), port) ==
            LoadAt(inst.p0, port) + LoadAt(inst.p1, port) + (if phases == 3 then LoadAt(inst.p2, port) else 0)
  {
    hide LoadAt;
    LoadAtSum(inst.p0, inst.p1, port);
    LoadAtSum(MatrixSum(inst.p0, inst.p1), inst.p2, port);
  }

  // ------------------------------------------------------------------- the oracle needs as long

  lemma TrafficBelowMakespan(inst: Instance, starts: seq<nat>)
    requires inst.Valid() && |starts| == |ExactTasks(inst)| && NoOverlap(ExactTasks(inst), starts)
    ensures PortLoad(AllTraffic(inst, 3)) <= Makespan(ExactTasks(inst), starts)
  {
    var tasks, all := ExactTasks(inst), AllTraffic(inst, 3);
    PortLoadIsMax(all);
    if PortLoad(all) > 0 {
      var port: Port :| port.rank < |all| && LoadAt(all, port) == PortLoad(all);
      TrafficAt(inst, 3, port);
      DegreeIsPhaseSum(inst, port);
      ExactTasksAreUnits(inst);
      var users := UsersOf(tasks, port);
      forall i | i in users
        ensures tasks[i].duration == 1 && In(tasks[i], Everything)
      {
        assert tasks[i] in tasks;
      }
      PortCapacity(tasks, starts, users, port, 0, Makespan(tasks, starts));
    }
  }

  /** The joint oracle takes at least the heaviest port's load over all phases, and more than the
      delay when there is return traffic. */
  lemma OracleAtLeastTraffic(inst: Instance, delay: nat)
    requires inst.Valid()
    ensures PortLoad(AllTraffic(inst, 3)) <= Optimum(inst, Joint, delay)
    ensures PortLoad(inst.p1) > 0 ==> delay < Optimum(inst, Joint, delay)
  {
    hide PortLoad;
    var joint := Optimum(inst, Joint, delay);
    assert IsOptimum(inst, Joint, delay, joint);
    var best :| Feasible(inst, Joint, delay, best) && Makespan(ExactTasks(inst), best) == joint;
    TrafficBelowMakespan(inst, best);
    JointLowerBounds(inst, delay, best);
  }
}
