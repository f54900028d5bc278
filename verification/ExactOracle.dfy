// The exact oracle.
module ExactOracle {
  // Unit tasks of the three-phase oracle, its constraint model for the phase-barrier
  // and the joint release rules, and the port-capacity lower bounds.

  import opened Transfers
  import opened EdgeColouring

  datatype Instance = Instance(rankCount: nat, p0: Matrix, p1: Matrix, p2: Matrix) {
    predicate Valid() {
      Square(p0, rankCount) && Square(p1, rankCount) && Square(p2, rankCount)
    }
  }

  // Local: a whole phase must finish before the next one starts.
  // Joint: each rank starts its next phase once its own inbound traffic is complete.
  datatype Mode = Local | Joint

  // ---------------------------------------------------------------- unit tasks

  function CellTasks(phase: nat, src: nat, dst: nat, units: nat): seq<Task> {
    seq(units, (ordinal: nat) => Task(phase, src, dst, 1, ordinal))
  }

  function RowTasks(row: seq<nat>, phase: nat, src: nat, cols: nat): seq<Task>
    requires cols <= |row|
  {
    if cols == 0 then []
    else RowTasks(row, phase, src, cols - 1) +
         (if src == cols - 1 then [] else CellTasks(phase, src, cols - 1, row[cols - 1]))
  }

  function MatrixTasks(m: Matrix, phase: nat, rows: nat): seq<Task>
    requires rows <= |m|
  {
    if rows == 0 then []
    else MatrixTasks(m, phase, rows - 1) + RowTasks(m[rows - 1], phase, rows - 1, |m[rows - 1]|)
  }

  method AppendUnits(tasks: seq<Task>, phase: nat, src: nat, dst: nat, units: nat) returns (extended: seq<Task>)
    ensures extended == tasks + CellTasks(phase, src, dst, units)
  {
    extended := tasks;
    for ordinal := 0 to units
      invariant extended == tasks + CellTasks(phase, src, dst, ordinal)
    {
      extended := extended + [Task(phase, src, dst, 1, ordinal)];
    }
  }

  method AppendRow(tasks: seq<Task>, row: seq<nat>, phase: nat, src: nat) returns (extended: seq<Task>)
    ensures extended == tasks + RowTasks(row, phase, src, |row|)
  {
    extended := tasks;
    for dst := 0 to |row|
      invariant extended == tasks + RowTasks(row, phase, src, dst)
    {
      if src != dst {
        extended := AppendUnits(extended, phase, src, dst, row[dst]);
      }
    }
  }

  method BuildExactTasks(m: Matrix, phase: nat) returns (tasks: seq<Task>)
    ensures tasks == MatrixTasks(m, phase, |m|)
  {
    tasks := [];
    for src := 0 to |m|
      invariant tasks == MatrixTasks(m, phase, src)
    {
      tasks := AppendRow(tasks, m[src], phase, src);
    }
  }

  ghost predicate IsUnitOf(t: Task, m: Matrix, phase: nat, rows: nat)
    requires Square(m, |m|) && rows <= |m|
  {
    t.phase == phase && t.src < rows && t.dst < |m| && t.src != t.dst && t.duration == 1 && t.ordinal < m[t.src][t.dst]
  }

  ghost predicate Distinct(tasks: seq<Task>) {
    forall i, j | 0 <= i < j < |tasks| :: tasks[i] != tasks[j]
  }

  lemma DistinctConcat(a: seq<Task>, b: seq<Task>)
    requires Distinct(a) && Distinct(b) && forall t :: t in a ==> t !in b
    ensures Distinct(a + b)
  {
    forall i, j | 0 <= i < j < |a + b|
      ensures (a + b)[i] != (a + b)[j]
    {
      if i < |a| <= j { assert a[i] in a && b[j - |a|] in b; }
    }
  }

  lemma {:induction false} RowTasksMembers(m: Matrix, phase: nat, src: nat, cols: nat, t: Task)
    requires Square(m, |m|) && src < |m| && cols <= |m|
    ensures t in RowTasks(m[src], phase, src, cols) <==> IsUnitOf(t, m, phase, src + 1) && t.src == src && t.dst < cols
  {
    if cols > 0 {
      var dst := cols - 1;
      var cell := CellTasks(phase, src, dst, m[src][dst]);
      RowTasksMembers(m, phase, src, dst, t);
      if IsUnitOf(t, m, phase, src + 1) && t.src == src && t.dst == dst {
        assert cell[t.ordinal] == t;
      }
    }
  }

  lemma {:induction false} RowTasksDistinct(m: Matrix, phase: nat, src: nat, cols: nat)
    requires Square(m, |m|) && src < |m| && cols <= |m|
    ensures Distinct(RowTasks(m[src], phase, src, cols))
  {
    if cols > 0 {
      var before, cell := RowTasks(m[src], phase, src, cols - 1), CellTasks(phase, src, cols - 1, m[src][cols - 1]);
      RowTasksDistinct(m, phase, src, cols - 1);
      forall t | t in before
        ensures t !in cell
      {
        RowTasksMembers(m, phase, src, cols - 1, t);
      }
      DistinctConcat(before, cell);
    }
  }

  lemma {:induction false} MatrixTasksMembers(m: Matrix, phase: nat, rows: nat, t: Task)
    requires Square(m, |m|) && rows <= |m|
    ensures t in MatrixTasks(m, phase, rows) <==> IsUnitOf(t, m, phase, rows)
  {
    if rows > 0 {
      MatrixTasksMembers(m, phase, rows - 1, t);
      RowTasksMembers(m, phase, rows - 1, |m|, t);
    }
  }

  lemma {:induction false} MatrixTasksDistinct(m: Matrix, phase: nat, rows: nat)
    requires Square(m, |m|) && rows <= |m|
    ensures Distinct(MatrixTasks(m, phase, rows))
  {
    if rows > 0 {
      var before, row := MatrixTasks(m, phase, rows - 1), RowTasks(m[rows - 1], phase, rows - 1, |m|);
      MatrixTasksDistinct(m, phase, rows - 1);
      RowTasksDistinct(m, phase, rows - 1, |m|);
      forall t | t in before
        ensures t !in row
      {
        MatrixTasksMembers(m, phase, rows - 1, t);
        RowTasksMembers(m, phase, rows - 1, |m|, t);
      }
      DistinctConcat(before, row);
    }
  }

  /** One task per off-diagonal unit, each exactly once. */
  lemma MatrixTasksAreUnits(m: Matrix, phase: nat)
    requires Square(m, |m|)
    ensures Distinct(MatrixTasks(m, phase, |m|))
    ensures forall t :: t in MatrixTasks(m, phase, |m|) <==> IsUnitOf(t, m, phase, |m|)
  {
    MatrixTasksDistinct(m, phase, |m|);
    forall t: Task
      ensures t in MatrixTasks(m, phase, |m|) <==> IsUnitOf(t, m, phase, |m|)
    {
      MatrixTasksMembers(m, phase, |m|, t);
    }
  }

  lemma {:induction false} CellDegree(phase: nat, src: nat, dst: nat, units: nat, port: Port)
    ensures Degree(CellTasks(phase, src, dst, units), port) ==
              if Uses(Task(phase, src, dst, 1, 0), port) then units else 0
  {
    if units == 0 {
      assert UsersOf([], port) == {};
    } else {
      CellDegree(phase, src, dst, units - 1, port);
      assert CellTasks(phase, src, dst, units) ==
             CellTasks(phase, src, dst, units - 1) + [Task(phase, src, dst, 1, units - 1)];
      DegreeSnoc(CellTasks(phase, src, dst, units - 1), Task(phase, src, dst, 1, units - 1), port);
    }
  }

  lemma {:induction false} RowDegreeSend(m: Matrix, phase: nat, src: nat, cols: nat, r: nat)
    requires Square(m, |m|) && src < |m| && cols <= |m|
    ensures Degree(RowTasks(m[src], phase, src, cols), Send(r)) == if r == src then RemoteRowSum(m, src, cols) else 0
  {
    if cols == 0 {
      assert UsersOf([], Send(r)) == {};
    } else {
      RowDegreeSend(m, phase, src, cols - 1, r);
      if src != cols - 1 {
        CellDegree(phase, src, cols - 1, m[src][cols - 1], Send(r));
        DegreeConcat(RowTasks(m[src], phase, src, cols - 1), CellTasks(phase, src, cols - 1, m[src][cols - 1]),
            Send(r));
      } else {
        assert RowTasks(m[src], phase, src, cols) == RowTasks(m[src], phase, src, cols - 1);
      }
    }
  }

  lemma {:induction false} RowsDegreeSend(m: Matrix, phase: nat, rows: nat, r: nat)
    requires Square(m, |m|) && rows <= |m|
    ensures Degree(MatrixTasks(m, phase, rows), Send(r)) == if r < rows then RemoteRowSum(m, r, |m|) else 0
  {
    if rows == 0 {
      assert UsersOf([], Send(r)) == {};
    } else {
      var row := RowTasks(m[rows - 1], phase, rows - 1, |m|);
      DegreeConcat(MatrixTasks(m, phase, rows - 1), row, Send(r));
      RowsDegreeSend(m, phase, rows - 1, r);
      RowDegreeSend(m, phase, rows - 1, |m|, r);
    }
  }

  lemma {:induction false} RowDegreeRecv(m: Matrix, phase: nat, src: nat, cols: nat, r: nat)
    requires Square(m, |m|) && src < |m| && cols <= |m|
    ensures Degree(RowTasks(m[src], phase, src, cols), Recv(r)) == if r < cols && r != src then m[src][r] else 0
  {
    if cols == 0 {
      assert UsersOf([], Recv(r)) == {};
    } else {
      RowDegreeRecv(m, phase, src, cols - 1, r);
      if src != cols - 1 {
        CellDegree(phase, src, cols - 1, m[src][cols - 1], Recv(r));
        DegreeConcat(RowTasks(m[src], phase, src, cols - 1), CellTasks(phase, src, cols - 1, m[src][cols - 1]),
            Recv(r));
      } else {
        assert RowTasks(m[src], phase, src, cols) == RowTasks(m[src], phase, src, cols - 1);
      }
    }
  }

  lemma {:induction false} RowsDegreeRecv(m: Matrix, phase: nat, rows: nat, r: nat)
    requires Square(m, |m|) && rows <= |m|
    ensures Degree(MatrixTasks(m, phase, rows), Recv(r)) == if r < |m| then RemoteColSum(m, r, rows) else 0
  {
    if rows == 0 {
      assert UsersOf([], Recv(r)) == {};
    } else {
      var row := RowTasks(m[rows - 1], phase, rows - 1, |m|);
      DegreeConcat(MatrixTasks(m, phase, rows - 1), row, Recv(r));
      RowsDegreeRecv(m, phase, rows - 1, r);
      RowDegreeRecv(m, phase, rows - 1, |m|, r);
    }
  }

  /** The tasks of a matrix load every port exactly as the matrix does. */
  lemma MatrixDegree(m: Matrix, phase: nat, port: Port)
    requires Square(m, |m|)
    ensures Degree(MatrixTasks(m, phase, |m|), port) == LoadAt(m, port)
  {
    match port
    case Send(r) => RowsDegreeSend(m, phase, |m|, r);
    case Recv(r) => RowsDegreeRecv(m, phase, |m|, r);
  }

  function PhaseTasks(inst: Instance, phase: nat): seq<Task>
    requires inst.Valid()
  {
    if phase == 0 then MatrixTasks(inst.p0, 0, inst.rankCount)
    else if phase == 1 then MatrixTasks(inst.p1, 1, inst.rankCount)
    else MatrixTasks(inst.p2, 2, inst.rankCount)
  }

  function ExactTasks(inst: Instance): seq<Task>
    requires inst.Valid()
  {
    PhaseTasks(inst, 0) + PhaseTasks(inst, 1) + PhaseTasks(inst, 2)
  }

  // ----------------------------------------------------------- constraint model

  datatype Scope = Everything | Phase(phase: nat) | Inbound(phase: nat, rank: nat)

  predicate In(t: Task, scope: Scope) {
    match scope
    case Everything => true
    case Phase(p) => t.phase == p
    case Inbound(p, r) => t.phase == p && t.dst == r
  }

  function LatestEndUpTo(tasks: seq<Task>, starts: seq<nat>, scope: Scope, k: nat): (end: nat)
    requires |starts| == |tasks| && k <= |tasks|
    ensures forall i | 0 <= i < k && In(tasks[i], scope) :: starts[i] + tasks[i].duration <= end
    ensures end == 0 || exists i | 0 <= i < k && In(tasks[i], scope) :: starts[i] + tasks[i].duration == end
  {
    if k == 0 then 0
    else
      var before := LatestEndUpTo(tasks, starts, scope, k - 1);
      if In(tasks[k - 1], scope) then Max(before, starts[k - 1] + tasks[k - 1].duration) else before
  }

  /** The latest end among the tasks in scope, 0 when there are none. */
  function LatestEnd(tasks: seq<Task>, starts: seq<nat>, scope: Scope): (end: nat)
    requires |starts| == |tasks|
    ensures forall i | 0 <= i < |tasks| && In(tasks[i], scope) :: starts[i] + tasks[i].duration <= end
    ensures end == 0 || exists i | 0 <= i < |tasks| && In(tasks[i], scope) :: starts[i] + tasks[i].duration == end
  {
    LatestEndUpTo(tasks, starts, scope, |tasks|)
  }

  function Makespan(tasks: seq<Task>, starts: seq<nat>): nat
    requires |starts| == |tasks|
  {
    LatestEnd(tasks, starts, Everything)
  }

  ghost predicate Apart(tasks: seq<Task>, starts: seq<nat>, i: nat, j: nat)
    requires |starts| == |tasks| && i < |tasks| && j < |tasks|
  {
    SharesPort(tasks[i], tasks[j]) ==>
          starts[i] + tasks[i].duration <= starts[j] || starts[j] + tasks[j].duration <= starts[i]
  }

  // No two intervals on one send port, or on one receive port, overlap.
  ghost predicate NoOverlap(tasks: seq<Task>, starts: seq<nat>)
    requires |starts| == |tasks|
  {
    forall i, j | 0 <= i < |tasks| && 0 <= j < |tasks| && i != j :: Apart(tasks, starts, i, j)
  }

  function Barrier(mode: Mode, phase: nat, rank: nat): Scope {
    match mode
    case Local => Phase(phase)
    case Joint => Inbound(phase, rank)
  }

  ghost predicate Released(tasks: seq<Task>, starts: seq<nat>, mode: Mode, delay: nat)
    requires |starts| == |tasks|
  {
    forall i | 0 <= i < |tasks| ::
      && (tasks[i].phase == 1 ==> LatestEnd(tasks, starts, Barrier(mode, 0, tasks[i].src)) + delay <= starts[i])
      && (tasks[i].phase == 2 ==> LatestEnd(tasks, starts, Barrier(mode, 1, tasks[i].src)) <= starts[i])
  }

  // The constraints without the solver's variable bounds.
  ghost predicate Schedule(inst: Instance, mode: Mode, delay: nat, starts: seq<nat>)
    requires inst.Valid()
  {
    var tasks := ExactTasks(inst);
    |starts| == |tasks| && NoOverlap(tasks, starts) && Released(tasks, starts, mode, delay)
  }

  function Horizon(inst: Instance, delay: nat): nat
    requires inst.Valid()
  {
    |ExactTasks(inst)| + delay * Max(1, inst.rankCount) * 2
  }

  ghost predicate Feasible(inst: Instance, mode: Mode, delay: nat, starts: seq<nat>)
    requires inst.Valid()
  {
    Schedule(inst, mode, delay, starts) && Makespan(ExactTasks(inst), starts) <= Horizon(inst, delay)
  }

  // ------------------------------------------------------------- lower bounds

  /** Tasks that pairwise share a port need a window at least as long as their number. */
  lemma PortCapacity(tasks: seq<Task>, starts: seq<nat>, users: set<nat>, port: Port, from: nat, until: nat)
    requires |starts| == |tasks| && NoOverlap(tasks, starts) && from <= until
    requires forall i | i in users ::
             i < |tasks| && Uses(tasks[i], port) && tasks[i].duration == 1 && from <= starts[i] < until
    ensures |users| <= until - from
  {
    forall i, j | i in users && j in users && i != j
      ensures starts[i] != starts[j]
    {
      assert Apart(tasks, starts, i, j);
    }
    ImageBounded(users, starts);
    var window := Below(until) - Below(from);
    assert Below(until) == window + Below(from);
    SubsetSize(Image(users, starts), window);
  }

  ghost function PhaseUsers(tasks: seq<Task>, phase: nat, port: Port): set<nat> {
    set i: nat | i < |tasks| && tasks[i].phase == phase && Uses(tasks[i], port)
  }

  lemma PhaseUsersSnoc(tasks: seq<Task>, t: Task, phase: nat, port: Port)
    ensures |PhaseUsers(tasks + [t], phase, port)| ==
            |PhaseUsers(tasks, phase, port)| + (if t.phase == phase && Uses(t, port) then 1 else 0)
  {
    if t.phase == phase && Uses(t, port) {
      assert PhaseUsers(tasks + [t], phase, port) == PhaseUsers(tasks, phase, port) + {|tasks|};
    } else {
      assert PhaseUsers(tasks + [t], phase, port) == PhaseUsers(tasks, phase, port);
    }
  }

  lemma {:induction false} PhaseUsersConcat(a: seq<Task>, b: seq<Task>, phase: nat, port: Port)
    ensures |PhaseUsers(a + b, phase, port)| == |PhaseUsers(a, phase, port)| + |PhaseUsers(b, phase, port)|
  {
    if b == [] {
      assert a + b == a;
    } else {
      var front, last := b[..|b| - 1], b[|b| - 1];
      assert b == front + [last] && a + b == (a + front) + [last];
      PhaseUsersConcat(a, front, phase, port);
      PhaseUsersSnoc(a + front, last, phase, port);
      PhaseUsersSnoc(front, last, phase, port);
    }
  }

  lemma PhaseUsersOfPhase(tasks: seq<Task>, own: nat, phase: nat, port: Port)
    requires forall t | t in tasks :: t.phase == own
    ensures |PhaseUsers(tasks, phase, port)| == if own == phase then Degree(tasks, port) else 0
  {
    forall i: nat | i < |tasks|
      ensures tasks[i].phase == own
    {
      assert tasks[i] in tasks;
    }
    if own == phase {
      assert PhaseUsers(tasks, phase, port) == UsersOf(tasks, port);
    } else {
      assert PhaseUsers(tasks, phase, port) == {};
    }
  }

  function Demand(inst: Instance, phase: nat): Matrix
    requires inst.Valid()
  {
    if phase == 0 then inst.p0 else if phase == 1 then inst.p1 else inst.p2
  }

  lemma ExactTasksAreUnits(inst: Instance)
    requires inst.Valid()
    ensures Distinct(ExactTasks(inst))
    ensures forall t :: t in ExactTasks(inst) <==>
              t.phase < 3 && IsUnitOf(t, Demand(inst, t.phase), t.phase, inst.rankCount)
    ensures forall phase, t :: phase < 3 && t in PhaseTasks(inst, phase) ==> t.phase == phase && t.duration == 1
  {
    MatrixTasksAreUnits(inst.p0, 0);
    MatrixTasksAreUnits(inst.p1, 1);
    MatrixTasksAreUnits(inst.p2, 2);
    DistinctConcat(PhaseTasks(inst, 0), PhaseTasks(inst, 1));
    DistinctConcat(PhaseTasks(inst, 0) + PhaseTasks(inst, 1), PhaseTasks(inst, 2));
  }

  /** When no task of a phase starts before `from`, the phase ends no earlier than from + its port load. */
  lemma PhaseLowerBound(inst: Instance, phase: nat, starts: seq<nat>, from: nat, scope: Scope)
    requires inst.Valid() && phase < 3
    requires |starts| == |ExactTasks(inst)| && NoOverlap(ExactTasks(inst), starts)
    requires scope == Everything || scope == Phase(phase)
    requires forall i | 0 <= i < |starts| && ExactTasks(inst)[i].phase == phase :: from <= starts[i]
    ensures PortLoad(Demand(inst, phase)) > 0 ==>
              from + PortLoad(Demand(inst, phase)) <= LatestEnd(ExactTasks(inst), starts, scope)
  {
    var m := Demand(inst, phase);
    PortLoadIsMax(m);
    if PortLoad(m) > 0 {
      var port: Port :| port.rank < |m| && LoadAt(m, port) == PortLoad(m);
      PortLowerBound(inst, phase, starts, from, scope, port);
    }
  }

  lemma PortLowerBound(inst: Instance, phase: nat, starts: seq<nat>, from: nat, scope: Scope, port: Port)
    requires inst.Valid() && phase < 3
    requires |starts| == |ExactTasks(inst)| && NoOverlap(ExactTasks(inst), starts)
    requires scope == Everything || scope == Phase(phase) || (port.Recv? && scope == Inbound(phase, port.rank))
    requires forall i | 0 <= i < |starts| && ExactTasks(inst)[i].phase == phase && Uses(ExactTasks(inst)[i], port) ::
             from <= starts[i]
    ensures LoadAt(Demand(inst, phase), port) > 0 ==>
              from + LoadAt(Demand(inst, phase), port) <= LatestEnd(ExactTasks(inst), starts, scope)
  {
    var m, tasks, end := Demand(inst, phase), ExactTasks(inst), LatestEnd(ExactTasks(inst), starts, scope);
    if LoadAt(m, port) > 0 {
      PhaseLoad(inst, phase, port);
      ExactTasksAreUnits(inst);
      var users := PhaseUsers(tasks, phase, port);
      forall i | i in users
        ensures tasks[i].duration == 1 && from <= starts[i] < end
      {
        assert tasks[i] in tasks && In(tasks[i], scope);
      }
      var used :| used in users;
      PortCapacity(tasks, starts, users, port, from, end);
    }
  }

  /** The tasks of one phase load every port as that phase's matrix does. */
  lemma PhaseLoad(inst: Instance, phase: nat, port: Port)
    requires inst.Valid() && phase < 3
    ensures |PhaseUsers(ExactTasks(inst), phase, port)| == LoadAt(Demand(inst, phase), port)
  {
    var a, b, c := PhaseTasks(inst, 0), PhaseTasks(inst, 1), PhaseTasks(inst, 2);
    ExactTasksAreUnits(inst);
    MatrixDegree(Demand(inst, phase), phase, port);
    PhaseUsersConcat(a + b, c, phase, port);
    PhaseUsersConcat(a, b, phase, port);
    PhaseUsersOfPhase(a, 0, phase, port);
    PhaseUsersOfPhase(b, 1, phase, port);
    PhaseUsersOfPhase(c, 2, phase, port);
  }
}
