// The replay audit, loop by loop.
module ReplayAudit {
  // Tables of completion times, served volumes and open barriers, and an overlap check that only
  // looks at neighbours after sorting, against the declared rules.

  import opened Transfers
  import opened ExactOracle
  import opened Replay
  import opened ReadySetScheduler
  import opened Wrappers

  // ------------------------------------------------------------------ one port's intervals

  predicate Clear(a: Entry, b: Entry) { a.end <= b.start || b.end <= a.start }

  predicate AllClear(s: seq<Entry>) {
    forall i, j | 0 <= i < j < |s| :: Clear(s[i], s[j])
  }

  predicate Before(a: Entry, b: Entry) { a.start < b.start || (a.start == b.start && a.end <= b.end) }

  predicate Ordered(s: seq<Entry>) {
    forall i, j | 0 <= i < j < |s| :: Before(s[i], s[j])
  }

  ghost predicate SameMembers(t: seq<Entry>, s: seq<Entry>) {
    forall e :: e in t <==> e in s
  }

  function PlaceOf(s: seq<Entry>, e: Entry, n: nat): (place: nat)
    requires n <= |s| && Ordered(s)
    ensures place <= n
    ensures forall i | 0 <= i < place :: Before(s[i], e)
    ensures forall i | place <= i < n :: Before(e, s[i])
  {
    if n == 0 then 0 else if Before(s[n - 1], e) then n else PlaceOf(s, e, n - 1)
  }

  // The intervals in order of start and end.
  function Sorted(s: seq<Entry>, n: nat): (t: seq<Entry>)
    requires n <= |s|
    ensures |t| == n && Ordered(t)
    ensures SameMembers(t, s[..n])
  {
    if n == 0 then [] else
      var rest := Sorted(s, n - 1);
      var place := PlaceOf(rest, s[n - 1], n - 1);
      SortStep(s, n, rest, place);
      Inserted(rest, place, s[n - 1])
  }

  function Inserted(rest: seq<Entry>, place: nat, e: Entry): (t: seq<Entry>)
    requires place <= |rest|
    ensures |t| == |rest| + 1
  {
    rest[..place] + [e] + rest[place..]
  }

  lemma SortStep(s: seq<Entry>, n: nat, rest: seq<Entry>, place: nat)
    requires 0 < n <= |s| && |rest| == n - 1 && Ordered(rest) && SameMembers(rest, s[..n - 1])
    requires place <= n - 1
    requires forall i | 0 <= i < place :: Before(rest[i], s[n - 1])
    requires forall i | place <= i < n - 1 :: Before(s[n - 1], rest[i])
    ensures Ordered(Inserted(rest, place, s[n - 1]))
    ensures SameMembers(Inserted(rest, place, s[n - 1]), s[..n])
  {
    InsertedOrdered(rest, place, s[n - 1]);
    InsertedMembers(rest, place, s[n - 1]);
    hide Inserted, Ordered, Before;
    assert s[..n] == s[..n - 1] + [s[n - 1]];
  }

  lemma InsertedMembers(rest: seq<Entry>, place: nat, e: Entry)
    requires place <= |rest|
    ensures forall x :: x in Inserted(rest, place, e) <==> x in rest || x == e
  {
    var t := Inserted(rest, place, e);
    assert t[place] == e;
    forall x | x in rest
      ensures x in t
    {
      var k :| 0 <= k < |rest| && rest[k] == x;
      assert t[if k < place then k else k + 1] == x;
    }
  }

  lemma InsertedOrdered(rest: seq<Entry>, place: nat, e: Entry)
    requires Ordered(rest) && place <= |rest|
    requires forall i | 0 <= i < place :: Before(rest[i], e)
    requires forall i | place <= i < |rest| :: Before(e, rest[i])
    ensures Ordered(Inserted(rest, place, e))
  {
    var t := Inserted(rest, place, e);
    forall i, j | 0 <= i < j < |t|
      ensures Before(t[i], t[j])
    {
      var a, b := if i < place then i else i - 1, if j < place then j else j - 1;
      if i != place && j != place {
        assert t[i] == rest[a] && t[j] == rest[b];
      }
    }
  }

  lemma ClearOfAll(t: seq<Entry>, s: seq<Entry>, e: Entry)
    requires SameMembers(t, s)
    ensures (forall k | 0 <= k < |t| :: Clear(e, t[k])) <==> (forall k | 0 <= k < |s| :: Clear(e, s[k]))
  {
    if forall k | 0 <= k < |t| :: Clear(e, t[k]) {
      forall k | 0 <= k < |s|
        ensures Clear(e, s[k])
      {
        assert s[k] in t;
      }
    }
    if forall k | 0 <= k < |s| :: Clear(e, s[k]) {
      forall k | 0 <= k < |t|
        ensures Clear(e, t[k])
      {
        assert t[k] in s;
      }
    }
  }

  lemma InsertClear(rest: seq<Entry>, place: nat, e: Entry)
    requires place <= |rest|
    ensures AllClear(Inserted(rest, place, e)) <==> AllClear(rest) && forall k | 0 <= k < |rest| :: Clear(e, rest[k])
  {
    var t := Inserted(rest, place, e);
    if AllClear(t) {
      forall i, j | 0 <= i < j < |rest|
        ensures Clear(rest[i], rest[j])
      {
        var a, b := if i < place then i else i + 1, if j < place then j else j + 1;
        assert t[a] == rest[i] && t[b] == rest[j] && Clear(t[a], t[b]);
      }
      forall k | 0 <= k < |rest|
        ensures Clear(e, rest[k])
      {
        var a := if k < place then k else k + 1;
        assert t[a] == rest[k] && t[place] == e;
        assert if a < place then Clear(t[a], t[place]) else Clear(t[place], t[a]);
      }
    }
  }

  lemma SnocClear(s: seq<Entry>, e: Entry)
    ensures AllClear(s + [e]) <==> AllClear(s) && forall k | 0 <= k < |s| :: Clear(e, s[k])
  {
    var t := s + [e];
    assert forall i | 0 <= i < |s| :: t[i] == s[i];
    if AllClear(t) {
      forall k | 0 <= k < |s|
        ensures Clear(e, s[k])
      {
        assert Clear(t[k], t[|s|]);
      }
    }
  }

  lemma InsertedLikeNext(rest: seq<Entry>, place: nat, s: seq<Entry>, n: nat)
    requires 0 < n <= |s| && place <= |rest|
    requires SameMembers(rest, s[..n - 1]) && (AllClear(rest) <==> AllClear(s[..n - 1]))
    ensures AllClear(Inserted(rest, place, s[n - 1])) <==> AllClear(s[..n])
  {
    hide AllClear, SameMembers;
    InsertClear(rest, place, s[n - 1]);
    SnocClear(s[..n - 1], s[n - 1]);
    ClearOfAll(rest, s[..n - 1], s[n - 1]);
    assert s[..n] == s[..n - 1] + [s[n - 1]];
  }

  lemma SortedUnfolds(s: seq<Entry>, n: nat) returns (place: nat)
    requires 0 < n <= |s|
    ensures place <= n - 1 && Sorted(s, n) == Inserted(Sorted(s, n - 1), place, s[n - 1])
  {
    hide Ordered, Before, PlaceOf, Inserted, SameMembers;
    place := PlaceOf(Sorted(s, n - 1), s[n - 1], n - 1);
  }

  /** Sorting does not change whether the intervals are pairwise clear. */
  lemma {:induction false} SortedClear(s: seq<Entry>, n: nat)
    requires n <= |s|
    ensures AllClear(Sorted(s, n)) <==> AllClear(s[..n])
  {
    if n > 0 {
      hide AllClear, Ordered, Inserted, Sorted, SameMembers;
      SortedClear(s, n - 1);
      var place := SortedUnfolds(s, n);
      InsertedLikeNext(Sorted(s, n - 1), place, s, n);
    }
  }

  lemma {:induction false} ChainedStarts(s: seq<Entry>, i: nat, j: nat)
    requires i < j < |s| && (forall k | 0 <= k < |s| :: s[k].start <= s[k].end)
    requires forall k | 0 <= k < |s| - 1 :: s[k].end <= s[k + 1].start
    ensures s[i].end <= s[j].start
  {
    if i + 1 < j { ChainedStarts(s, i, j - 1); }
  }

  /** After sorting, neighbours decide: if no interval starts before its predecessor ends, all are
      pairwise clear, and otherwise some pair overlaps. */
  lemma NeighboursDecide(s: seq<Entry>)
    requires Ordered(s) && forall k | 0 <= k < |s| :: s[k].start <= s[k].end
    ensures AllClear(s) <==> forall k | 0 <= k < |s| - 1 :: s[k].end <= s[k + 1].start
  {
    if forall k | 0 <= k < |s| - 1 :: s[k].end <= s[k + 1].start {
      forall i: nat, j: nat | i < j < |s|
        ensures Clear(s[i], s[j])
      {
        ChainedStarts(s, i, j);
      }
    }
    if AllClear(s) {
      forall k | 0 <= k < |s| - 1
        ensures s[k].end <= s[k + 1].start
      {
        assert Clear(s[k], s[k + 1]) && Before(s[k], s[k + 1]);
      }
    }
  }

  predicate OnPort(e: Entry, port: Port) {
    match port
    case Send(r) => e.flow.src == r
    case Recv(r) => e.flow.dst == r
  }

  function PortEntries(schedule: seq<Entry>, port: Port, n: nat): (s: seq<Entry>)
    requires n <= |schedule|
    ensures forall k | 0 <= k < |s| :: s[k] in schedule[..n]
  {
    if n == 0 then []
    else PortEntries(schedule, port, n - 1) + (if OnPort(schedule[n - 1], port) then [schedule[n - 1]] else [])
  }

  lemma SortedProper(s: seq<Entry>)
    requires forall k | 0 <= k < |s| :: s[k].start <= s[k].end
    ensures forall k | 0 <= k < |s| :: Sorted(s, |s|)[k].start <= Sorted(s, |s|)[k].end
  {
    hide Ordered;
    var t := Sorted(s, |s|);
    assert s[..|s|] == s;
    forall k | 0 <= k < |t|
      ensures t[k].start <= t[k].end
    {
      assert t[k] in t;
      assert t[k] in s;
    }
  }

  lemma PortEntriesProper(schedule: seq<Entry>, port: Port)
    requires forall i | 0 <= i < |schedule| :: schedule[i].start <= schedule[i].end
    ensures forall k | 0 <= k < |PortEntries(schedule, port, |schedule|)| ::
              PortEntries(schedule, port, |schedule|)[k].start <= PortEntries(schedule, port, |schedule|)[k].end
  {
    var intervals := PortEntries(schedule, port, |schedule|);
    forall k | 0 <= k < |intervals|
      ensures intervals[k].start <= intervals[k].end
    {
      assert intervals[k] in schedule;
    }
  }

  method CheckPort(schedule: seq<Entry>, port: Port) returns (ok: bool)
    requires forall i | 0 <= i < |schedule| :: schedule[i].start <= schedule[i].end
    ensures ok <==> PortClear(schedule, port, |schedule|)
  {
    hide AllClear, Ordered, PortClear, SameMembers;
    var intervals := PortEntries(schedule, port, |schedule|);
    var ordered := Sorted(intervals, |intervals|);
    PortEntriesProper(schedule, port);
    SortedProper(intervals);
    assert intervals[..|intervals|] == intervals;
    SortedClear(intervals, |intervals|);
    NeighboursDecide(ordered);
    PortPairs(schedule, port, |schedule|);
    ok := NeighboursClear(ordered);
  }

  method NeighboursClear(ordered: seq<Entry>) returns (ok: bool)
    ensures ok <==> forall k | 0 <= k < |ordered| - 1 :: ordered[k].end <= ordered[k + 1].start
  {
    ok := true;
    var k := 1;
    while k < |ordered|
      invariant 1 <= k && (k <= |ordered| || ordered == [])
      invariant ok <==> forall i | 0 <= i < k - 1 && i < |ordered| - 1 :: ordered[i].end <= ordered[i + 1].start
    {
      if ordered[k].start < ordered[k - 1].end {
        ok := false;
      }
      k := k + 1;
    }
  }

  predicate PairClear(schedule: seq<Entry>, port: Port, i: nat, j: nat)
    requires i < |schedule| && j < |schedule|
  {
    OnPort(schedule[i], port) && OnPort(schedule[j], port) ==> Clear(schedule[i], schedule[j])
  }

  // The first n entries never share the port at the same time.
  predicate PortClear(schedule: seq<Entry>, port: Port, n: nat)
    requires n <= |schedule|
  {
    forall i: nat, j: nat | i < j < n :: PairClear(schedule, port, i, j)
  }

  lemma {:induction false} PortPairs(schedule: seq<Entry>, port: Port, n: nat)
    requires n <= |schedule|
    ensures AllClear(PortEntries(schedule, port, n)) <==> PortClear(schedule, port, n)
  {
    if n > 0 {
      PortPairs(schedule, port, n - 1);
      PortStep(schedule, port, n - 1, PortEntries(schedule, port, n - 1));
    }
  }

  lemma PortStep(schedule: seq<Entry>, port: Port, n: nat, before: seq<Entry>)
    requires n < |schedule| && before == PortEntries(schedule, port, n)
    requires AllClear(before) <==> PortClear(schedule, port, n)
    ensures AllClear(before + (if OnPort(schedule[n], port) then [schedule[n]] else [])) <==>
              PortClear(schedule, port, n + 1)
  {
    hide AllClear, PortEntries;
    PortClearStep(schedule, port, n);
    if OnPort(schedule[n], port) {
      SnocClear(before, schedule[n]);
      PortMembers(schedule, port, n, schedule[n]);
    } else {
      assert before + [] == before;
    }
  }

  predicate ClearOfPort(schedule: seq<Entry>, port: Port, n: nat, e: Entry)
    requires n <= |schedule|
  {
    forall i | 0 <= i < n && OnPort(schedule[i], port) :: Clear(e, schedule[i])
  }

  lemma PortClearStep(schedule: seq<Entry>, port: Port, n: nat)
    requires n < |schedule|
    ensures PortClear(schedule, port, n + 1) <==>
            PortClear(schedule, port, n) && (OnPort(schedule[n], port) ==> ClearOfPort(schedule, port, n, schedule[n]))
  {
    if PortClear(schedule, port, n + 1) && OnPort(schedule[n], port) {
      forall i: nat | i < n && OnPort(schedule[i], port)
        ensures Clear(schedule[n], schedule[i])
      {
        assert PairClear(schedule, port, i, n);
      }
    }
    if PortClear(schedule, port, n + 1) {
      forall i: nat, j: nat | i < j < n
        ensures PairClear(schedule, port, i, j)
      {
      }
    }
  }

  lemma {:induction false} PortMembers(schedule: seq<Entry>, port: Port, n: nat, e: Entry)
    requires n <= |schedule|
    ensures (forall k | 0 <= k < |PortEntries(schedule, port, n)| :: Clear(e, PortEntries(schedule, port, n)[k])) <==>
              ClearOfPort(schedule, port, n, e)
  {
    if n > 0 {
      PortMembers(schedule, port, n - 1, e);
      var before, now := PortEntries(schedule, port, n - 1), PortEntries(schedule, port, n);
      assert forall k | 0 <= k < |before| :: now[k] == before[k];
      assert OnPort(schedule[n - 1], port) ==> now[|before|] == schedule[n - 1];
    }
  }

  // -------------------------------------------------------------------- the other checks

  method CheckEntries(inst: Instance, phases: nat, schedule: seq<Entry>) returns (ok: bool)
    requires inst.Valid()
    ensures ok <==> forall i | 0 <= i < |schedule| ::
                      IsTarget(inst, phases, schedule[i].flow) && schedule[i].served > 0 &&
                          schedule[i].start <= schedule[i].end
  {
    ok := true;
    for i := 0 to |schedule|
      invariant ok <==> forall k | 0 <= k < i ::
                          IsTarget(inst, phases, schedule[k].flow) && schedule[k].served > 0 &&
                              schedule[k].start <= schedule[k].end
    {
      if !IsTarget(inst, phases, schedule[i].flow) || schedule[i].served <= 0 || schedule[i].end < schedule[i].start {
        ok := false;
      }
    }
  }

  predicate StartsAfter(schedule: seq<Entry>, delay: nat, e: Entry) {
    && (e.flow.phase == 1 ==> Completion(schedule, Inbound(0, e.flow.src)) + delay <= e.start)
    && (e.flow.phase == 2 ==> Completion(schedule, Inbound(1, e.flow.src)) <= e.start)
  }

  method InboundCompletion(schedule: seq<Entry>, phase: nat, ranks: nat) returns (done: array<nat>)
    requires forall i | 0 <= i < |schedule| :: schedule[i].flow.dst < ranks
    ensures done.Length == ranks && forall g | 0 <= g < ranks :: done[g] == Completion(schedule, Inbound(phase, g))
  {
    done := new nat[ranks](_ => 0);
    for i := 0 to |schedule|
      invariant forall g | 0 <= g < ranks :: done[g] == CompletionUpTo(schedule, Inbound(phase, g), i)
    {
      var e := schedule[i];
      if e.flow.phase == phase {
        done[e.flow.dst] := Max(done[e.flow.dst], e.end);
      }
    }
  }

  method CheckReleases(schedule: seq<Entry>, ranks: nat, delay: nat) returns (ok: bool)
    requires forall i | 0 <= i < |schedule| :: schedule[i].flow.src < ranks && schedule[i].flow.dst < ranks
    ensures ok <==> ReleaseRespected(schedule, Joint, delay)
  {
    hide Completion;
    var p0Done := InboundCompletion(schedule, 0, ranks);
    var p1Done := InboundCompletion(schedule, 1, ranks);
    ok := true;
    for i := 0 to |schedule|
      invariant ok <==> forall k | 0 <= k < i :: StartsAfter(schedule, delay, schedule[k])
    {
      var e := schedule[i];
      if e.flow.phase == 1 && e.start < p0Done[e.flow.src] + delay {
        ok := false;
      } else if e.flow.phase == 2 && e.start < p1Done[e.flow.src] {
        ok := false;
      }
    }
    ReleasesPerEntry(schedule, delay);
  }

  lemma ReleasesPerEntry(schedule: seq<Entry>, delay: nat)
    ensures ReleaseRespected(schedule, Joint, delay) <==>
              forall k | 0 <= k < |schedule| :: StartsAfter(schedule, delay, schedule[k])
  {
  }

  method ServedTable(flows: seq<Flow>, schedule: seq<Entry>) returns (served: map<Flow, nat>)
    requires forall i | 0 <= i < |schedule| :: schedule[i].flow in flows
    ensures forall f | f in flows :: f in served && served[f] == Served(schedule, f)
  {
    served := map f | f in flows :: 0;
    for i := 0 to |schedule|
      invariant forall f | f in flows :: f in served && served[f] == ServedUpTo(schedule, f, i)
    {
      var f := schedule[i].flow;
      served := served[f := served[f] + schedule[i].served];
    }
  }

  predicate FlowMet(inst: Instance, phases: nat, schedule: seq<Entry>, f: Flow)
    requires inst.Valid()
  {
    IsTarget(inst, phases, f) ==> Served(schedule, f) == Volume(inst, f)
  }

  method CheckVolumes(inst: Instance, flows: seq<Flow>, phases: nat, schedule: seq<Entry>) returns (ok: bool)
    requires inst.Valid() && (forall f :: f in flows <==> IsTarget(inst, phases, f))
    requires forall i | 0 <= i < |schedule| :: schedule[i].flow in flows
    ensures ok <==> VolumesMet(inst, phases, schedule)
  {
    var served := ServedTable(flows, schedule);
    ok := true;
    for k := 0 to |flows|
      invariant ok <==> forall j | 0 <= j < k :: FlowMet(inst, phases, schedule, flows[j])
    {
      assert flows[k] in flows;
      if served[flows[k]] != Volume(inst, flows[k]) {
        ok := false;
      }
    }
    VolumesPerFlow(inst, flows, phases, schedule);
  }

  lemma VolumesPerFlow(inst: Instance, flows: seq<Flow>, phases: nat, schedule: seq<Entry>)
    requires inst.Valid() && (forall f :: f in flows <==> IsTarget(inst, phases, f))
    ensures VolumesMet(inst, phases, schedule) <==>
              forall j | 0 <= j < |flows| :: FlowMet(inst, phases, schedule, flows[j])
  {
    if forall j | 0 <= j < |flows| :: FlowMet(inst, phases, schedule, flows[j]) {
      forall f | IsTarget(inst, phases, f)
        ensures Served(schedule, f) == Volume(inst, f)
      {
        assert f in flows;
      }
    }
    if VolumesMet(inst, phases, schedule) {
      forall j | 0 <= j < |flows|
        ensures FlowMet(inst, phases, schedule, flows[j])
      {
      }
    }
  }

  // ------------------------------------------------------------- inbound barrier volumes

  /** What the first k entries deliver to one rank in one phase. */
  function Delivered(schedule: seq<Entry>, key: Key, k: nat): nat
    requires k <= |schedule|
  {
    if k == 0 then 0
    else Delivered(schedule, key, k - 1) +
         (if FlowIn(schedule[k - 1].flow, Inbound(key.phase, key.gpu)) then schedule[k - 1].served else 0)
  }

  ghost function ServedBy(flows: seq<Flow>, schedule: seq<Entry>, k: nat): map<Flow, nat>
    requires k <= |schedule|
  {
    map f | f in flows :: ServedUpTo(schedule, f, k)
  }

  lemma {:induction false} NothingServed(flows: seq<Flow>, schedule: seq<Entry>, key: Key, n: nat)
    requires n <= |flows|
    ensures InboundSum(flows, ServedBy(flows, schedule, 0), key.phase, key.gpu, n) == 0
  {
    if n > 0 {
      NothingServed(flows, schedule, key, n - 1);
      assert flows[n - 1] in flows;
    }
  }

  lemma {:induction false} DeliveredIsInboundServed(flows: seq<Flow>, schedule: seq<Entry>, key: Key, k: nat)
    requires (forall i, j | 0 <= i < j < |flows| :: flows[i] != flows[j])
    requires k <= |schedule| && forall i | 0 <= i < |schedule| :: schedule[i].flow in flows
    ensures Delivered(schedule, key, k) == InboundSum(flows, ServedBy(flows, schedule, k), key.phase, key.gpu, |flows|)
  {
    if k == 0 {
      NothingServed(flows, schedule, key, |flows|);
    } else {
      DeliveredIsInboundServed(flows, schedule, key, k - 1);
      var f, served := schedule[k - 1].flow, schedule[k - 1].served;
      var now := ServedBy(flows, schedule, k);
      assert ServedBy(flows, schedule, k - 1) == now[f := now[f] - served];
      InboundSumServeAll(flows, now, f, served, key.phase, key.gpu);
    }
  }

  /** Once every flow has its volume, no inbound barrier is left open. */
  lemma BarriersFollowVolumes(flows: seq<Flow>, volume: map<Flow, nat>, schedule: seq<Entry>, key: Key)
    requires (forall i, j | 0 <= i < j < |flows| :: flows[i] != flows[j])
    requires volume.Keys == (set f | f in flows)
    requires forall i | 0 <= i < |schedule| :: schedule[i].flow in flows
    requires forall f | f in flows :: Served(schedule, f) == volume[f]
    ensures Delivered(schedule, key, |schedule|) == InboundSum(flows, volume, key.phase, key.gpu, |flows|)
  {
    DeliveredIsInboundServed(flows, schedule, key, |schedule|);
    assert ServedBy(flows, schedule, |schedule|) == volume;
  }

  function Drained(total: nat, delivered: nat): nat { if delivered < total then total - delivered else 0 }

  method InboundRemaining(flows: seq<Flow>, volume: map<Flow, nat>, ranks: nat) returns (remaining: map<Key, nat>)
    requires forall f | f in flows :: f in volume && f.phase < 3 && f.dst < ranks
    ensures remaining.Keys == KeySet(ranks)
    ensures forall key | key in remaining :: remaining[key] == InboundSum(flows, volume, key.phase, key.gpu, |flows|)
  {
    remaining := map key | key in KeySet(ranks) :: 0;
    for k := 0 to |flows|
      invariant remaining.Keys == KeySet(ranks)
      invariant forall key | key in remaining :: remaining[key] == InboundSum(flows, volume, key.phase, key.gpu, k)
    {
      assert flows[k] in flows;
      var key := Key(flows[k].phase, flows[k].dst);
      remaining := remaining[key := remaining[key] + volume[flows[k]]];
    }
  }

  method DrainBarriers(schedule: seq<Entry>, ranks: nat, total: map<Key, nat>) returns (remaining: map<Key, nat>)
    requires total.Keys == KeySet(ranks)
    requires forall i | 0 <= i < |schedule| :: schedule[i].flow.phase < 3 && schedule[i].flow.dst < ranks
    ensures remaining.Keys == total.Keys
    ensures forall key | key in total :: remaining[key] == Drained(total[key], Delivered(schedule, key, |schedule|))
  {
    remaining := total;
    for i := 0 to |schedule|
      invariant remaining.Keys == total.Keys
      invariant forall key | key in total :: remaining[key] == Drained(total[key], Delivered(schedule, key, i))
    {
      var key := Key(schedule[i].flow.phase, schedule[i].flow.dst);
      remaining := remaining[key := Drained(remaining[key], schedule[i].served)];
    }
  }

  function VolumeMap(inst: Instance, flows: seq<Flow>): map<Flow, nat>
    requires inst.Valid() && forall f | f in flows :: f.src < inst.rankCount && f.dst < inst.rankCount
  {
    map f | f in flows :: Volume(inst, f)
  }

  method CheckBarriers(inst: Instance, flows: seq<Flow>, schedule: seq<Entry>) returns (ok: bool)
    requires inst.Valid() && forall f | f in flows :: f.phase < 3 && f.src < inst.rankCount && f.dst < inst.rankCount
    requires forall i | 0 <= i < |schedule| :: schedule[i].flow in flows
    ensures ok <==> forall key | key in KeySet(inst.rankCount) ::
                      InboundSum(flows, VolumeMap(inst, flows), key.phase, key.gpu, |flows|) <=
                          Delivered(schedule, key, |schedule|)
  {
    var total := InboundRemaining(flows, VolumeMap(inst, flows), inst.rankCount);
    var remaining := DrainBarriers(schedule, inst.rankCount, total);
    ok := forall key | key in remaining :: remaining[key] == 0;
    assert forall key | key in KeySet(inst.rankCount) :: key in remaining;
  }

  predicate PortsClearBelow(schedule: seq<Entry>, ranks: nat) {
    forall r: nat | r < ranks :: PortClear(schedule, Send(r), |schedule|) && PortClear(schedule, Recv(r), |schedule|)
  }

  lemma PortsDecide(schedule: seq<Entry>, ranks: nat)
    requires forall i | 0 <= i < |schedule| :: schedule[i].flow.src < ranks && schedule[i].flow.dst < ranks
    ensures PortsExclusive(schedule) <==> PortsClearBelow(schedule, ranks)
  {
    if PortsClearBelow(schedule, ranks) {
      forall i: nat, j: nat | i < j < |schedule|
        ensures EntriesApart(schedule[i], schedule[j])
      {
        var s, d := schedule[i].flow.src, schedule[i].flow.dst;
        assert PortClear(schedule, Send(s), |schedule|) && PortClear(schedule, Recv(d), |schedule|);
        assert PairClear(schedule, Send(s), i, j) && PairClear(schedule, Recv(d), i, j);
      }
    }
    if PortsExclusive(schedule) {
      forall r: nat | r < ranks
        ensures PortClear(schedule, Send(r), |schedule|) && PortClear(schedule, Recv(r), |schedule|)
      {
        forall i: nat, j: nat | i < j < |schedule|
          ensures PairClear(schedule, Send(r), i, j) && PairClear(schedule, Recv(r), i, j)
        {
          assert EntriesApart(schedule[i], schedule[j]);
        }
      }
    }
  }

  method CheckPorts(schedule: seq<Entry>, ranks: nat) returns (ok: bool)
    requires forall i | 0 <= i < |schedule| ::
             schedule[i].flow.src < ranks && schedule[i].flow.dst < ranks && schedule[i].start <= schedule[i].end
    ensures ok <==> PortsExclusive(schedule)
  {
    hide PortClear;
    ok := true;
    for r := 0 to ranks
      invariant ok <==> PortsClearBelow(schedule, r)
    {
      var sendOk := CheckPort(schedule, Send(r));
      var recvOk := CheckPort(schedule, Recv(r));
      ok := ok && sendOk && recvOk;
    }
    PortsDecide(schedule, ranks);
  }

  lemma VolumesCloseBarriers(inst: Instance, flows: seq<Flow>, phases: nat, schedule: seq<Entry>)
    requires inst.Valid() && phases <= 3 && (forall f :: f in flows <==> IsTarget(inst, phases, f))
    requires forall i, j | 0 <= i < j < |flows| :: flows[i] != flows[j]
    requires forall i | 0 <= i < |schedule| :: schedule[i].flow in flows
    requires VolumesMet(inst, phases, schedule)
    ensures forall key | key in KeySet(inst.rankCount) ::
              InboundSum(flows, VolumeMap(inst, flows), key.phase, key.gpu, |flows|) <=
                  Delivered(schedule, key, |schedule|)
  {
    forall key | key in KeySet(inst.rankCount)
      ensures InboundSum(flows, VolumeMap(inst, flows), key.phase, key.gpu, |flows|) <=
              Delivered(schedule, key, |schedule|)
    {
      BarriersFollowVolumes(flows, VolumeMap(inst, flows), schedule, key);
    }
  }

  method ReplayMakespan(schedule: seq<Entry>) returns (latest: nat)
    ensures latest == Completion(schedule, Everything)
  {
    latest := 0;
    for i := 0 to |schedule|
      invariant latest == CompletionUpTo(schedule, Everything, i)
    {
      latest := Max(latest, schedule[i].end);
    }
  }

  /** The audit's verdict is exactly the declared one, and a reported makespan has to be the replayed
      one. Once an entry is refused the remaining checks could only add messages. */
  method AuditSchedule(inst: Instance, phases: nat, delay: nat, schedule: seq<Entry>, reported: Option<nat>)
    returns (valid: bool)
    requires inst.Valid() && phases <= 3
    ensures valid <==>
            AuditValid(inst, phases, Joint, delay, schedule) &&
                (reported.Some? ==> reported.value == Completion(schedule, Everything))
  {
    hide ReleaseRespected, PortsExclusive, VolumesMet, Completion;
    var flows := CollectRealFlows(inst, phases);
    valid := CheckEntries(inst, phases, schedule);
    if !valid {
      return;
    }
    var releasesOk := CheckReleases(schedule, inst.rankCount, delay);
    var portsOk := CheckPorts(schedule, inst.rankCount);
    var volumesOk := CheckVolumes(inst, flows, phases, schedule);
    var barriersOk := CheckBarriers(inst, flows, schedule);
    if VolumesMet(inst, phases, schedule) {
      VolumesCloseBarriers(inst, flows, phases, schedule);
    }
    var makespan := ReplayMakespan(schedule);
    valid := releasesOk && portsOk && volumesOk && barriersOk && (reported.None? || reported.value == makespan);
  }
}
