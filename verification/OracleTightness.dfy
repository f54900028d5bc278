// Tight prices.
module OracleTightness {
  // One rank dispatches to many and gets every row back, while a second pair of ranks is busy with
  // the next dispatch: the bound for instances with return traffic cannot be improved.

  import opened Transfers
  import opened ExactOracle
  import opened OracleOptimum

  // One row from rank 0 to each of the ranks 1 .. fan.
  function Hub(n: nat, fan: nat): (m: Matrix)
    ensures Square(m, n)
  {
    seq(n, i => seq(n, j => if i == 0 && 1 <= j <= fan then 1 else 0))
  }

  function HubInstance(fan: nat, delay: nat): (inst: Instance)
    ensures inst.Valid()
  {
    var n := fan + 3;
    Instance(n, Hub(n, fan), Transpose(Hub(n, fan)), SingleEntry(n, fan + 1, fan + 2, fan + 1 + delay))
  }

  lemma {:induction false} HubSums(n: nat, fan: nat, r: nat, k: nat)
    requires r < n && k <= n
    ensures RemoteRowSum(Hub(n, fan), r, k) == if r != 0 || k == 0 then 0 else if k <= fan then k - 1 else fan
    ensures RemoteColSum(Hub(n, fan), r, k) <= 1
    ensures k == 0 ==> RemoteColSum(Hub(n, fan), r, k) == 0
  {
    if k > 0 {
      HubSums(n, fan, r, k - 1);
      if k > 1 { assert Hub(n, fan)[k - 1][r] == 0; }
    }
  }

  lemma HubLoad(n: nat, fan: nat)
    requires 0 < fan < n
    ensures PortLoad(Hub(n, fan)) == fan
  {
    var m := Hub(n, fan);
    forall port: Port
      ensures LoadAt(m, port) <= fan
    {
      if port.rank < n { HubSums(n, fan, port.rank, n); }
    }
    HubSums(n, fan, 0, n);
    PortLoadIsMax(m);
    assert LoadAt(m, Send(0)) == fan;
  }

  // Dispatch to rank j in slot j - 1, its answer right after the delay, the next dispatch from the start.
  function HubStart(t: Task, delay: nat): nat {
    if t.phase == 0 then (if t.dst > 0 then t.dst - 1 else 0) else if t.phase == 1 then t.src + delay else t.ordinal
  }

  predicate HubTask(t: Task, fan: nat, delay: nat) {
    && t.duration == 1
    && (t.phase == 0 ==> t.src == 0 && 1 <= t.dst <= fan && t.ordinal == 0)
    && (t.phase == 1 ==> t.dst == 0 && 1 <= t.src <= fan && t.ordinal == 0)
    && (t.phase == 2 ==> t.src == fan + 1 && t.dst == fan + 2 && t.ordinal < fan + 1 + delay)
    && t.phase < 3
  }

  lemma HubTasks(fan: nat, delay: nat)
    ensures Distinct(ExactTasks(HubInstance(fan, delay)))
    ensures forall t | t in ExactTasks(HubInstance(fan, delay)) :: HubTask(t, fan, delay)
  {
    ExactTasksAreUnits(HubInstance(fan, delay));
  }

  lemma HubApart(a: Task, b: Task, fan: nat, delay: nat)
    requires HubTask(a, fan, delay) && HubTask(b, fan, delay) && a != b && SharesPort(a, b)
    ensures HubStart(a, delay) + 1 <= HubStart(b, delay) || HubStart(b, delay) + 1 <= HubStart(a, delay)
  {
  }

  lemma HubSchedule(fan: nat, delay: nat) returns (starts: seq<nat>)
    ensures Schedule(HubInstance(fan, delay), Joint, delay, starts)
    ensures Makespan(ExactTasks(HubInstance(fan, delay)), starts) <= fan + 1 + delay
  {
    var tasks := ExactTasks(HubInstance(fan, delay));
    HubTasks(fan, delay);
    hide HubInstance, ExactTasks;
    starts := seq(|tasks|, i requires 0 <= i < |tasks| => HubStart(tasks[i], delay));
    forall i: nat | i < |tasks|
      ensures HubTask(tasks[i], fan, delay)
    {
      assert tasks[i] in tasks;
    }
    forall i, j | 0 <= i < |tasks| && 0 <= j < |tasks| && i != j
      ensures Apart(tasks, starts, i, j)
    {
      assert tasks[i] != tasks[j];
      if SharesPort(tasks[i], tasks[j]) { HubApart(tasks[i], tasks[j], fan, delay); }
    }
    HubReleased(tasks, starts, fan, delay);
  }

  lemma HubReleased(tasks: seq<Task>, starts: seq<nat>, fan: nat, delay: nat)
    requires |starts| == |tasks|
    requires forall i | 0 <= i < |tasks| :: HubTask(tasks[i], fan, delay) && starts[i] == HubStart(tasks[i], delay)
    ensures Released(tasks, starts, Joint, delay)
  {
    forall i | 0 <= i < |tasks|
      ensures tasks[i].phase == 1 ==> LatestEnd(tasks, starts, Inbound(0, tasks[i].src)) + delay <= starts[i]
      ensures tasks[i].phase == 2 ==> LatestEnd(tasks, starts, Inbound(1, tasks[i].src)) <= starts[i]
    {
      assert HubTask(tasks[i], fan, delay);
    }
  }

  lemma HubCosts(fan: nat, delay: nat)
    requires fan > 0
    ensures var inst := HubInstance(fan, delay);
            && inst.p1 == Transpose(inst.p0) && PortLoad(inst.p0) == fan
            && BarrierCost(inst, delay) == 3 * fan + 1 + 2 * delay
  {
    var n := fan + 3;
    HubLoad(n, fan);
    hide Hub, SingleEntry, Transpose, PortLoad;
    TransposeKeepsLoad(Hub(n, fan));
    SingleEntryLoad(n, fan + 1, fan + 2, fan + 1 + delay);
  }

  /** The bound for instances with return traffic is attained at every fan-out and every delay. */
  lemma ReturnPriceIsTight(fan: nat, delay: nat)
    requires fan > 0
    ensures HubInstance(fan, delay).p1 == Transpose(HubInstance(fan, delay).p0)
    ensures Optimum(HubInstance(fan, delay), Local, delay) + delay + 2 ==
            3 * Optimum(HubInstance(fan, delay), Joint, delay)
  {
    HubCosts(fan, delay);
    hide HubInstance, PortLoad, Schedule, BarrierCost;
    var inst := HubInstance(fan, delay);
    BarrierOptimum(inst, delay);
    PriceWithReturnTraffic(inst, delay);
    var starts := HubSchedule(fan, delay);
    HorizonIsHarmless(inst, Joint, delay, starts);
  }
}
