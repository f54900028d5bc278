// Optima of the oracle.
module OracleOptimum {
  // A closed form for the phase-barrier rule and the price of the barrier against
  // the joint rule.

  import opened Wrappers
  import RealArith
  import opened Transfers
  import opened EdgeColouring
  import opened ExactOracle

  ghost predicate IsOptimum(inst: Instance, mode: Mode, delay: nat, objective: nat)
    requires inst.Valid()
  {
    && (exists starts :: Feasible(inst, mode, delay, starts) && Makespan(ExactTasks(inst), starts) == objective)
    && (forall starts :: Feasible(inst, mode, delay, starts) ==> objective <= Makespan(ExactTasks(inst), starts))
  }

  /** The objective of a solve whose status is OPTIMAL. */
  ghost function Optimum(inst: Instance, mode: Mode, delay: nat): (objective: nat)
    requires inst.Valid()
    ensures IsOptimum(inst, mode, delay, objective)
  {
    OptimumExists(inst, mode, delay);
    var m: nat :| IsOptimum(inst, mode, delay, m);
    m
  }

  /** What the phase-barrier oracle costs, read off the matrices. */
  function BarrierCost(inst: Instance, delay: nat): nat
    requires inst.Valid()
  {
    if PortLoad(inst.p1) == 0 then PortLoad(MatrixSum(inst.p0, inst.p2))
    else PortLoad(inst.p0) + delay + PortLoad(inst.p1) + PortLoad(inst.p2)
  }

  // ----------------------------------------------------- a schedule meeting the cost

  // Tasks of one phase that share a port get different colours below that phase's bound.
  ghost predicate PhasewiseProper(tasks: seq<Task>, colour: seq<nat>, bound: nat -> nat) {
    && |colour| == |tasks|
    && (forall i | 0 <= i < |tasks| :: colour[i] < bound(tasks[i].phase))
    && (forall i, j | 0 <= i < |tasks| && 0 <= j < |tasks| && i != j :: PhasewiseApart(tasks, colour, i, j))
  }

  ghost predicate PhasewiseApart(tasks: seq<Task>, colour: seq<nat>, i: nat, j: nat)
    requires |colour| == |tasks| && i < |tasks| && j < |tasks|
  {
    SharesPort(tasks[i], tasks[j]) && tasks[i].phase == tasks[j].phase ==> colour[i] != colour[j]
  }

  lemma PhasewiseConcat(a: seq<Task>, ca: seq<nat>, b: seq<Task>, cb: seq<nat>, bound: nat -> nat)
    requires PhasewiseProper(a, ca, bound) && PhasewiseProper(b, cb, bound)
    requires forall i, j | 0 <= i < |a| && 0 <= j < |b| :: a[i].phase != b[j].phase
    ensures PhasewiseProper(a + b, ca + cb, bound)
  {
    forall i, j | 0 <= i < |a + b| && 0 <= j < |a + b| && i != j
      ensures PhasewiseApart(a + b, ca + cb, i, j)
    {
      if i < |a| && j < |a| {
        assert PhasewiseApart(a, ca, i, j);
      } else if |a| <= i && |a| <= j {
        assert PhasewiseApart(b, cb, i - |a|, j - |a|);
      }
    }
  }

  function LoadOf(inst: Instance): nat -> nat
    requires inst.Valid()
  {
    p => PortLoad(Demand(inst, p))
  }

  lemma ColourPhase(inst: Instance, phase: nat) returns (colour: seq<nat>)
    requires inst.Valid() && phase < 3
    ensures PhasewiseProper(PhaseTasks(inst, phase), colour, LoadOf(inst))
    ensures forall i | 0 <= i < |PhaseTasks(inst, phase)| :: PhaseTasks(inst, phase)[i].phase == phase
  {
    var tasks, load := PhaseTasks(inst, phase), PortLoad(Demand(inst, phase));
    forall port: Port
      ensures Degree(tasks, port) <= load
    {
      MatrixDegree(Demand(inst, phase), phase, port);
      PortLoadIsMax(Demand(inst, phase));
    }
    colour := Koenig(tasks, load);
    ExactTasksAreUnits(inst);
    forall i | 0 <= i < |tasks|
      ensures tasks[i].phase == phase
    {
      assert tasks[i] in tasks;
    }
  }

  lemma ColourAllPhases(inst: Instance) returns (colour: seq<nat>)
    requires inst.Valid()
    ensures PhasewiseProper(ExactTasks(inst), colour, LoadOf(inst))
  {
    var a, b, c := PhaseTasks(inst, 0), PhaseTasks(inst, 1), PhaseTasks(inst, 2);
    var ca := ColourPhase(inst, 0);
    var cb := ColourPhase(inst, 1);
    var cc := ColourPhase(inst, 2);
    PhasewiseConcat(a, ca, b, cb, LoadOf(inst));
    PhasewiseConcat(a + b, ca + cb, c, cc, LoadOf(inst));
    colour := ca + cb + cc;
  }

  function Offset(inst: Instance, delay: nat, phase: nat): nat
    requires inst.Valid()
  {
    if phase == 0 then 0
    else if phase == 1 then PortLoad(inst.p0) + delay
    else PortLoad(inst.p0) + delay + PortLoad(inst.p1)
  }

  lemma PhaseWindows(tasks: seq<Task>, starts: seq<nat>, delay: nat, e0: nat, e1: nat, e2: nat)
    requires |starts| == |tasks| && e0 <= e2 && e1 <= e2
    requires forall i | 0 <= i < |tasks| :: tasks[i].duration == 1 && tasks[i].phase < 3
    requires forall i | 0 <= i < |tasks| && tasks[i].phase == 0 :: starts[i] < e0
    requires forall i | 0 <= i < |tasks| && tasks[i].phase == 1 :: e0 + delay <= starts[i] < e1
    requires forall i | 0 <= i < |tasks| && tasks[i].phase == 2 :: e1 <= starts[i] < e2
    ensures Released(tasks, starts, Local, delay)
    ensures Makespan(tasks, starts) <= e2
  {
    assert LatestEnd(tasks, starts, Phase(0)) <= e0;
    assert LatestEnd(tasks, starts, Phase(1)) <= e1;
  }

  // One phase after the other, each coloured within its own port load.
  lemma SerialSchedule(inst: Instance, delay: nat) returns (starts: seq<nat>)
    requires inst.Valid()
    ensures Schedule(inst, Local, delay, starts)
    ensures Makespan(ExactTasks(inst), starts) <= PortLoad(inst.p0) + delay + PortLoad(inst.p1) + PortLoad(inst.p2)
  {
    var tasks := ExactTasks(inst);
    var l0, l1, l2 := PortLoad(inst.p0), PortLoad(inst.p1), PortLoad(inst.p2);
    var colour := ColourAllPhases(inst);
    starts := seq(|tasks|, i requires 0 <= i < |tasks| => Offset(inst, delay, tasks[i].phase) + colour[i]);
    ExactTasksAreUnits(inst);
    forall i | 0 <= i < |tasks|
      ensures tasks[i].phase < 3 && tasks[i].duration == 1
    {
      assert tasks[i] in tasks;
    }
    SerialIsApart(tasks, colour, starts, LoadOf(inst), l0, l0 + delay, l0 + delay + l1);
    PhaseWindows(tasks, starts, delay, l0, l0 + delay + l1, l0 + delay + l1 + l2);
  }

  lemma SerialIsApart(tasks: seq<Task>, colour: seq<nat>, starts: seq<nat>, bound: nat -> nat, e0: nat, s1: nat,
                      s2: nat)
    requires PhasewiseProper(tasks, colour, bound) && |starts| == |tasks|
    requires bound(0) <= e0 <= s1 && s1 + bound(1) <= s2
    requires forall i | 0 <= i < |tasks| :: tasks[i].phase < 3 && tasks[i].duration == 1
    requires forall i | 0 <= i < |tasks| ::
               starts[i] == (if tasks[i].phase == 0 then 0 else if tasks[i].phase == 1 then s1 else s2) + colour[i]
    ensures NoOverlap(tasks, starts)
  {
    forall i, j | 0 <= i < |tasks| && 0 <= j < |tasks| && i != j
      ensures Apart(tasks, starts, i, j)
    {
      assert PhasewiseApart(tasks, colour, i, j);
    }
  }

  // Without return traffic nothing separates the two dispatches: colour them together.
  lemma OverlappedSchedule(inst: Instance, delay: nat) returns (starts: seq<nat>)
    requires inst.Valid() && PortLoad(inst.p1) == 0
    ensures Schedule(inst, Local, delay, starts)
    ensures Makespan(ExactTasks(inst), starts) <= PortLoad(MatrixSum(inst.p0, inst.p2))
  {
    var tasks, both := ExactTasks(inst), MatrixSum(inst.p0, inst.p2);
    forall port: Port
      ensures Degree(tasks, port) <= PortLoad(both)
      ensures PhaseUsers(tasks, 1, port) == {}
    {
      DegreeIsPhaseSum(inst, port);
      PortLoadIsMax(inst.p1);
      PortLoadIsMax(both);
      LoadAtSum(inst.p0, inst.p2, port);
      assert |PhaseUsers(tasks, 1, port)| == LoadAt(inst.p1, port) by { PhaseLoad(inst, 1, port); }
    }
    starts := Koenig(tasks, PortLoad(both));
    ExactTasksAreUnits(inst);
    forall i | 0 <= i < |tasks|
      ensures tasks[i].phase != 1 && tasks[i].duration == 1
    {
      assert tasks[i] in tasks;
      assert i !in PhaseUsers(tasks, 1, Send(tasks[i].src));
    }
    forall i, j | 0 <= i < |tasks| && 0 <= j < |tasks| && i != j
      ensures Apart(tasks, starts, i, j)
    {
    }
  }

  lemma DegreeIsPhaseSum(inst: Instance, port: Port)
    requires inst.Valid()
    ensures Degree(ExactTasks(inst), port) == LoadAt(inst.p0, port) + LoadAt(inst.p1, port) + LoadAt(inst.p2, port)
  {
    var a, b, c := PhaseTasks(inst, 0), PhaseTasks(inst, 1), PhaseTasks(inst, 2);
    DegreeConcat(a + b, c, port);
    DegreeConcat(a, b, port);
    MatrixDegree(inst.p0, 0, port);
    MatrixDegree(inst.p1, 1, port);
    MatrixDegree(inst.p2, 2, port);
  }

  lemma LoadFitsTaskCount(inst: Instance, phase: nat)
    requires inst.Valid() && phase < 3
    ensures PortLoad(Demand(inst, phase)) <= |PhaseTasks(inst, phase)|
  {
    var m := Demand(inst, phase);
    PortLoadIsMax(m);
    if PortLoad(m) > 0 {
      var port: Port :| port.rank < |m| && LoadAt(m, port) == PortLoad(m);
      MatrixDegree(m, phase, port);
      SubsetSize(UsersOf(PhaseTasks(inst, phase), port), Below(|PhaseTasks(inst, phase)|));
    }
  }

  lemma LoadOfSumBounded(a: Matrix, b: Matrix)
    requires Square(a, |a|) && Square(b, |a|)
    ensures PortLoad(MatrixSum(a, b)) <= PortLoad(a) + PortLoad(b)
  {
    var s := MatrixSum(a, b);
    PortLoadIsMax(s);
    if PortLoad(s) > 0 {
      var port: Port :| port.rank < |s| && LoadAt(s, port) == PortLoad(s);
      LoadAtSum(a, b, port);
      PortLoadIsMax(a);
      PortLoadIsMax(b);
    }
  }

  lemma DelayFitsHorizon(delay: nat, ranks: nat)
    ensures delay <= delay * Max(1, ranks) * 2
  {
    assert Max(1, ranks) >= 1;
    assert delay * Max(1, ranks) >= delay * 1;
  }

  /** The horizon the model declares always leaves room for a barrier schedule of cost BarrierCost. */
  lemma BarrierScheduleExists(inst: Instance, delay: nat) returns (starts: seq<nat>)
    requires inst.Valid()
    ensures Feasible(inst, Local, delay, starts)
    ensures Makespan(ExactTasks(inst), starts) <= BarrierCost(inst, delay)
  {
    LoadFitsTaskCount(inst, 0);
    LoadFitsTaskCount(inst, 1);
    LoadFitsTaskCount(inst, 2);
    LoadOfSumBounded(inst.p0, inst.p2);
    DelayFitsHorizon(delay, inst.rankCount);
    if PortLoad(inst.p1) == 0 {
      starts := OverlappedSchedule(inst, delay);
    } else {
      starts := SerialSchedule(inst, delay);
    }
  }

  /** A barrier schedule also satisfies the joint release rule. */
  lemma LocalIsJoint(inst: Instance, delay: nat, starts: seq<nat>)
    requires inst.Valid() && Schedule(inst, Local, delay, starts)
    ensures Schedule(inst, Joint, delay, starts)
  {
  }

  // ------------------------------------------------------------------- optima

  lemma LeastMakespan(inst: Instance, mode: Mode, delay: nat, starts: seq<nat>)
    requires inst.Valid() && Feasible(inst, mode, delay, starts)
    ensures exists m: nat :: IsOptimum(inst, mode, delay, m)
    decreases Makespan(ExactTasks(inst), starts)
  {
    if better :|
      Feasible(inst, mode, delay, better) &&
      Makespan(ExactTasks(inst), better) < Makespan(ExactTasks(inst), starts)
    {
      LeastMakespan(inst, mode, delay, better);
    } else {
      assert IsOptimum(inst, mode, delay, Makespan(ExactTasks(inst), starts));
    }
  }

  lemma OptimumExists(inst: Instance, mode: Mode, delay: nat)
    requires inst.Valid()
    ensures exists m: nat :: IsOptimum(inst, mode, delay, m)
  {
    var starts := BarrierScheduleExists(inst, delay);
    LocalIsJoint(inst, delay, starts);
    assert Feasible(inst, mode, delay, starts);
    LeastMakespan(inst, mode, delay, starts);
  }

  /** The solver's variable bounds cut off no better schedule. */
  lemma HorizonIsHarmless(inst: Instance, mode: Mode, delay: nat, starts: seq<nat>)
    requires inst.Valid() && Schedule(inst, mode, delay, starts)
    ensures Optimum(inst, mode, delay) <= Makespan(ExactTasks(inst), starts)
  {
    if !Feasible(inst, mode, delay, starts) {
      var m := Optimum(inst, mode, delay);
      assert IsOptimum(inst, mode, delay, m);
    }
  }

  /** Both dispatches share the ports, so neither rule beats their combined load. */
  lemma CombinedLoadBound(inst: Instance, starts: seq<nat>)
    requires inst.Valid() && |starts| == |ExactTasks(inst)| && NoOverlap(ExactTasks(inst), starts)
    ensures PortLoad(MatrixSum(inst.p0, inst.p2)) <= Makespan(ExactTasks(inst), starts)
  {
    var tasks, both := ExactTasks(inst), MatrixSum(inst.p0, inst.p2);
    PortLoadIsMax(both);
    if PortLoad(both) > 0 {
      var port: Port :| port.rank < |both| && LoadAt(both, port) == PortLoad(both);
      LoadAtSum(inst.p0, inst.p2, port);
      DegreeIsPhaseSum(inst, port);
      ExactTasksAreUnits(inst);
      var users := UsersOf(tasks, port);
      forall i | i in users
        ensures tasks[i].duration == 1 && In(tasks[i], Everything)
      {
        assert tasks[i] in tasks;
      }
      PortCapacity(tasks, starts, users, port, 0, Makespan(tasks, starts));
    }
  }

  lemma BarrierLowerBound(inst: Instance, delay: nat, starts: seq<nat>)
    requires inst.Valid() && Schedule(inst, Local, delay, starts)
    ensures BarrierCost(inst, delay) <= Makespan(ExactTasks(inst), starts)
  {
    if PortLoad(inst.p1) == 0 {
      CombinedLoadBound(inst, starts);
    } else {
      var tasks := ExactTasks(inst);
      PhaseLowerBound(inst, 0, starts, 0, Phase(0));
      var p0End := LatestEnd(tasks, starts, Phase(0));
      PhaseLowerBound(inst, 1, starts, p0End + delay, Phase(1));
      var p1End := LatestEnd(tasks, starts, Phase(1));
      PhaseLowerBound(inst, 2, starts, p1End, Everything);
      ScopeBelowMakespan(tasks, starts, Phase(1));
    }
  }

  lemma ScopeBelowMakespan(tasks: seq<Task>, starts: seq<nat>, scope: Scope)
    requires |starts| == |tasks|
    ensures LatestEnd(tasks, starts, scope) <= Makespan(tasks, starts)
  {
    if LatestEnd(tasks, starts, scope) > 0 {
      var i :| 0 <= i < |tasks| && In(tasks[i], scope) &&
          starts[i] + tasks[i].duration == LatestEnd(tasks, starts, scope);
      assert In(tasks[i], Everything);
    }
  }

  /** Closed form of the phase-barrier oracle, for every instance and delay. */
  lemma BarrierOptimum(inst: Instance, delay: nat)
    requires inst.Valid()
    ensures Optimum(inst, Local, delay) == BarrierCost(inst, delay)
  {
    var m := Optimum(inst, Local, delay);
    assert IsOptimum(inst, Local, delay, m);
    var upper := BarrierScheduleExists(inst, delay);
    var best :| Feasible(inst, Local, delay, best) && Makespan(ExactTasks(inst), best) == m;
    BarrierLowerBound(inst, delay, best);
  }

  lemma JointLowerBounds(inst: Instance, delay: nat, starts: seq<nat>)
    requires inst.Valid() && Schedule(inst, Joint, delay, starts)
    ensures PortLoad(inst.p0) <= Makespan(ExactTasks(inst), starts)
    ensures PortLoad(inst.p1) > 0 ==> delay + PortLoad(inst.p1) <= Makespan(ExactTasks(inst), starts)
    ensures PortLoad(inst.p2) <= Makespan(ExactTasks(inst), starts)
  {
    PhaseLowerBound(inst, 0, starts, 0, Everything);
    PhaseLowerBound(inst, 1, starts, delay, Everything);
    PhaseLowerBound(inst, 2, starts, 0, Everything);
  }

  /** The joint oracle never loses to the barrier oracle and never wins by more than a factor
      of three; without return traffic the two agree. */
  lemma PriceOfBarrier(inst: Instance, delay: nat)
    requires inst.Valid()
    ensures Optimum(inst, Joint, delay) <= Optimum(inst, Local, delay) <= 3 * Optimum(inst, Joint, delay)
    ensures PortLoad(inst.p1) == 0 ==> Optimum(inst, Joint, delay) == Optimum(inst, Local, delay)
  {
    var joint := Optimum(inst, Joint, delay);
    assert IsOptimum(inst, Joint, delay, joint);
    var best :| Feasible(inst, Joint, delay, best) && Makespan(ExactTasks(inst), best) == joint;
    JointLowerBounds(inst, delay, best);
    CombinedLoadBound(inst, best);
    BarrierOptimum(inst, delay);
    var serial := BarrierScheduleExists(inst, delay);
    LocalIsJoint(inst, delay, serial);
  }

  // ---------------------------------------------------------- the reported gain

  /** Relative improvement over `base`, absent when there is nothing to improve on. */
  function PctGain(base: real, value: real): Option<real> {
    if -0.000000000001 <= base <= 0.000000000001 then None else Some((base - value) / base)
  }

  lemma OptimumIsZeroWithoutTasks(inst: Instance, mode: Mode, delay: nat)
    requires inst.Valid()
    ensures Optimum(inst, mode, delay) == 0 <==> ExactTasks(inst) == []
  {
    var m, tasks := Optimum(inst, mode, delay), ExactTasks(inst);
    assert IsOptimum(inst, mode, delay, m);
    var best :| Feasible(inst, mode, delay, best) && Makespan(tasks, best) == m;
    if tasks != [] {
      ExactTasksAreUnits(inst);
      assert tasks[0] in tasks && In(tasks[0], Everything);
    }
  }

  /** The gain the suite summarises is absent exactly for empty demand and lies in [0, 2/3] otherwise. */
  lemma ReportedGain(inst: Instance, delay: nat)
    requires inst.Valid()
    ensures var gain := PctGain(Optimum(inst, Local, delay) as real, Optimum(inst, Joint, delay) as real);
            && (gain.None? <==> ExactTasks(inst) == [])
            && (gain.Some? ==> 0.0 <= gain.value <= 2.0 / 3.0)
  {
    var l, j := Optimum(inst, Local, delay), Optimum(inst, Joint, delay);
    assert j <= l <= 3 * j by { PriceOfBarrier(inst, delay); }
    assert l == 0 <==> ExactTasks(inst) == [] by { OptimumIsZeroWithoutTasks(inst, Local, delay); }
    GainRange(l, j);
  }

  lemma GainRange(l: nat, j: nat)
    requires j <= l <= 3 * j
    ensures var gain := PctGain(l as real, j as real);
            (gain.None? <==> l == 0) && (gain.Some? ==> 0.0 <= gain.value <= 2.0 / 3.0)
  {
    if l > 0 {
      QuotientRange(l as real - j as real, l as real);
    }
  }

  lemma QuotientRange(num: real, den: real)
    requires den > 0.0 && 0.0 <= 3.0 * num <= 2.0 * den
    ensures 0.0 <= num / den <= 2.0 / 3.0
  {
    var q := num / den;
    assert q * den == num;
    if q < 0.0 {
      RealArith.PositiveProduct(-q, den);
    }
    var excess := q - 2.0 / 3.0;
    if excess > 0.0 {
      RealArith.PositiveProduct(excess, den);
    }
  }

  /** Every dispatched unit comes back, so some port stays busy beyond the dispatch itself. */
  lemma ReturnTrafficBound(inst: Instance, delay: nat, starts: seq<nat>)
    requires inst.Valid() && inst.p1 == Transpose(inst.p0) && PortLoad(inst.p0) > 0
    requires Schedule(inst, Joint, delay, starts)
    ensures PortLoad(inst.p0) + delay + 1 <= Makespan(ExactTasks(inst), starts)
  {
    var tasks, load := ExactTasks(inst), PortLoad(inst.p0);
    PortLoadIsMax(inst.p0);
    var port: Port :| port.rank < inst.rankCount && LoadAt(inst.p0, port) == load;
    TransposeSwapsPorts(inst.p0, port.rank, inst.rankCount);
    ExactTasksAreUnits(inst);
    hide PortLoad, Transpose;
    match port
    case Recv(r) =>
      ReturnAfterInbound(inst, delay, starts, r);
    case Send(r) =>
      var i := LateUser(inst, starts, port);
      assert tasks[i] in tasks;
      LastDispatchReturns(inst, delay, starts, i);
  }

  // A rank that has received all its dispatch traffic still has to send its returns.
  lemma ReturnAfterInbound(inst: Instance, delay: nat, starts: seq<nat>, r: nat)
    requires inst.Valid() && Schedule(inst, Joint, delay, starts)
    requires LoadAt(inst.p0, Recv(r)) > 0 && LoadAt(inst.p1, Send(r)) > 0
    ensures LoadAt(inst.p0, Recv(r)) + delay + 1 <= Makespan(ExactTasks(inst), starts)
  {
    hide LoadAt;
    var load := LoadAt(inst.p0, Recv(r));
    PortLowerBound(inst, 0, starts, 0, Inbound(0, r), Recv(r));
    PortLowerBound(inst, 1, starts, load + delay, Everything, Send(r));
  }

  lemma LastDispatchReturns(inst: Instance, delay: nat, starts: seq<nat>, i: nat)
    requires inst.Valid() && inst.p1 == Transpose(inst.p0)
    requires Schedule(inst, Joint, delay, starts) && i < |starts| && ExactTasks(inst)[i].phase == 0
    ensures starts[i] + 1 + delay + 1 <= Makespan(ExactTasks(inst), starts)
  {
    var tasks := ExactTasks(inst);
    ExactTasksAreUnits(inst);
    assert tasks[i] in tasks;
    var back := Task(1, tasks[i].dst, tasks[i].src, 1, 0);
    assert back in tasks;
    var k :| 0 <= k < |tasks| && tasks[k] == back;
    assert In(tasks[i], Inbound(0, tasks[i].dst)) && In(back, Everything);
    assert Barrier(Joint, 0, back.src) == Inbound(0, tasks[i].dst);
  }

  lemma LateUser(inst: Instance, starts: seq<nat>, port: Port) returns (i: nat)
    requires inst.Valid() && |starts| == |ExactTasks(inst)| && NoOverlap(ExactTasks(inst), starts)
    requires LoadAt(inst.p0, port) > 0
    ensures i in PhaseUsers(ExactTasks(inst), 0, port) && LoadAt(inst.p0, port) <= starts[i] + 1
  {
    var users := PhaseUsers(ExactTasks(inst), 0, port);
    var load := LoadAt(inst.p0, port);
    PhaseLoad(inst, 0, port);
    if late :| late in users && load <= starts[late] + 1 {
      i := late;
    } else {
      ExactTasksAreUnits(inst);
      forall j | j in users
        ensures ExactTasks(inst)[j].duration == 1
      {
        assert ExactTasks(inst)[j] in ExactTasks(inst);
      }
      PortCapacity(ExactTasks(inst), starts, users, port, 0, load - 1);
      assert false;
    }
  }

  /** The generated instances return what they dispatch: for them the factor of three is never reached. */
  lemma PriceWithReturnTraffic(inst: Instance, delay: nat)
    requires inst.Valid() && inst.p1 == Transpose(inst.p0) && PortLoad(inst.p0) > 0
    ensures Optimum(inst, Local, delay) + delay + 2 <= 3 * Optimum(inst, Joint, delay)
  {
    var joint := Optimum(inst, Joint, delay);
    assert IsOptimum(inst, Joint, delay, joint);
    var best :| Feasible(inst, Joint, delay, best) && Makespan(ExactTasks(inst), best) == joint;
    ReturnTrafficBound(inst, delay, best);
    JointLowerBounds(inst, delay, best);
    BarrierOptimum(inst, delay);
    TransposeKeepsLoad(inst.p0);
  }

  lemma TransposeKeepsLoad(m: Matrix)
    requires Square(m, |m|)
    ensures PortLoad(Transpose(m)) == PortLoad(m)
  {
    forall port: Port
      ensures LoadAt(Transpose(m), port) == LoadAt(m, if port.Send? then Recv(port.rank) else Send(port.rank))
    {
      if port.rank < |m| { TransposeSwapsPorts(m, port.rank, |m|); }
    }
    PortLoadIsMax(m);
    PortLoadIsMax(Transpose(m));
    assert PortLoad(Transpose(m)) <= PortLoad(m);
    if PortLoad(m) > 0 {
      var port: Port :| port.rank < |m| && LoadAt(m, port) == PortLoad(m);
      assert LoadAt(Transpose(m), if port.Send? then Recv(port.rank) else Send(port.rank)) == PortLoad(m);
    }
  }

  // Three disjoint pairs of ranks, one per phase.
  function SingleEntry(n: nat, src: nat, dst: nat, units: nat): (m: Matrix)
    ensures Square(m, n)
  {
    seq(n, i => seq(n, j => if i == src && j == dst then units else 0))
  }

  lemma SingleEntryLoad(n: nat, src: nat, dst: nat, units: nat)
    requires src < n && dst < n && src != dst
    ensures PortLoad(SingleEntry(n, src, dst, units)) == units
  {
    var m := SingleEntry(n, src, dst, units);
    forall port: Port
      ensures LoadAt(m, port) == if port == Send(src) || port == Recv(dst) then units else 0
    {
      if port.rank < n { SingleEntrySums(n, src, dst, units, port.rank, n); }
    }
    PortLoadIsMax(m);
    assert LoadAt(m, Send(src)) == units;
  }

  lemma SingleEntrySums(n: nat, src: nat, dst: nat, units: nat, r: nat, k: nat)
    requires src < n && dst < n && src != dst && r < n && k <= n
    ensures RemoteRowSum(SingleEntry(n, src, dst, units), r, k) == if r == src && dst < k then units else 0
    ensures RemoteColSum(SingleEntry(n, src, dst, units), r, k) == if r == dst && src < k then units else 0
  {
    if k > 0 { SingleEntrySums(n, src, dst, units, r, k - 1); }
  }

  function DisjointPhases(units: nat): (inst: Instance)
    ensures inst.Valid()
  {
    Instance(6, SingleEntry(6, 0, 1, units), SingleEntry(6, 2, 3, units), SingleEntry(6, 4, 5, units))
  }

  lemma ParallelPhases(units: nat) returns (starts: seq<nat>)
    requires units > 0
    ensures Schedule(DisjointPhases(units), Joint, 0, starts)
    ensures Makespan(ExactTasks(DisjointPhases(units)), starts) <= units
  {
    var tasks := ExactTasks(DisjointPhases(units));
    starts := seq(|tasks|, i requires 0 <= i < |tasks| => tasks[i].ordinal);
    ExactTasksAreUnits(DisjointPhases(units));
    forall i | 0 <= i < |tasks|
      ensures tasks[i].duration == 1 && tasks[i].phase < 3 && tasks[i].src == 2 * tasks[i].phase
      ensures tasks[i].dst == tasks[i].src + 1 && tasks[i].ordinal < units
    {
      assert tasks[i] in tasks;
    }
    OrdinalsAreApart(tasks, starts);
  }

  lemma OrdinalsAreApart(tasks: seq<Task>, starts: seq<nat>)
    requires |starts| == |tasks| && Distinct(tasks)
    requires forall i | 0 <= i < |tasks| :: tasks[i].duration == 1 && starts[i] == tasks[i].ordinal
    requires forall i | 0 <= i < |tasks| :: tasks[i].src == 2 * tasks[i].phase && tasks[i].dst == tasks[i].src + 1
    ensures NoOverlap(tasks, starts)
  {
    forall i, j | 0 <= i < |tasks| && 0 <= j < |tasks| && i != j
      ensures Apart(tasks, starts, i, j)
    {
      assert tasks[i] != tasks[j];
    }
  }

  /** The factor of three is attained, at every size, once the phases use disjoint ranks. */
  lemma FactorThreeIsTight(units: nat)
    ensures Optimum(DisjointPhases(units), Joint, 0) == units
    ensures Optimum(DisjointPhases(units), Local, 0) == 3 * units
  {
    var inst := DisjointPhases(units);
    SingleEntryLoad(6, 0, 1, units);
    SingleEntryLoad(6, 2, 3, units);
    SingleEntryLoad(6, 4, 5, units);
    LoadOfSumBounded(inst.p0, inst.p2);
    assert Optimum(inst, Local, 0) == 3 * units by { BarrierOptimum(inst, 0); }
    assert 3 * units <= 3 * Optimum(inst, Joint, 0) by { PriceOfBarrier(inst, 0); }
    if units > 0 {
      var starts := ParallelPhases(units);
      HorizonIsHarmless(inst, Joint, 0, starts);
    } else {
      PriceOfBarrier(inst, 0);
    }
  }
}
