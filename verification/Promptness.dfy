// Promptness.
module Promptness {
  // In fluid service a ready flow that is not served waits for a busy port, so no flow is late by
  // more than its ports have to move.

  import opened Transfers
  import opened ExactOracle
  import opened Replay
  import opened ReadySetScheduler
  import opened ReplayAudit

  /** What the first k entries move over a port. */
  function MovedUpTo(schedule: seq<Entry>, port: Port, k: nat): nat
    requires k <= |schedule|
  {
    if k == 0 then 0
    else MovedUpTo(schedule, port, k - 1) + (if OnPort(schedule[k - 1], port) then schedule[k - 1].served else 0)
  }

  function Moved(schedule: seq<Entry>, port: Port): nat {
    MovedUpTo(schedule, port, |schedule|)
  }

  lemma {:induction false} MovedBefore(a: seq<Entry>, b: seq<Entry>, port: Port, k: nat)
    requires k <= |a|
    ensures MovedUpTo(a + b, port, k) == MovedUpTo(a, port, k)
  {
    if k > 0 { MovedBefore(a, b, port, k - 1); }
  }

  // Appended entries add what they move; one on the port adds at least its own.
  lemma {:induction false} MovedAfter(a: seq<Entry>, b: seq<Entry>, port: Port, k: nat, j: nat)
    requires k <= |b| && j < |b|
    ensures MovedUpTo(a + b, port, |a| + k) >= Moved(a, port) + (if j < k && OnPort(b[j], port) then b[j].served else 0)
  {
    if k == 0 { MovedBefore(a, b, port, |a|); } else { MovedAfter(a, b, port, k - 1, j); }
  }

  lemma MovedGrows(a: seq<Entry>, b: seq<Entry>, port: Port, j: nat)
    requires j < |b|
    ensures Moved(a + b, port) >= Moved(a, port) + (if OnPort(b[j], port) then b[j].served else 0)
  {
    MovedAfter(a, b, port, |b|, j);
  }

  // ------------------------------------------------------------------- due times

  // With a compute delay a release can fall inside a wave, which then has to end first.
  function Slack(delay: nat, load: nat): nat { if delay == 0 then 0 else load }

  // When a flow of a phase can be waited for at the latest, and when it is through.
  function StartBy(delay: nat, load: nat, phase: nat): nat {
    if phase == 0 then 0
    else if phase == 1 then 2 * load + delay + Slack(delay, load) else 4 * load + delay + Slack(delay, load)
  }

  function DueBy(delay: nat, load: nat, phase: nat): nat {
    StartBy(delay, load, phase) + 2 * load
  }

  // load bounds what any schedule of the run moves over a port.
  ghost predicate LoadBounds(run: Run, load: nat) {
    forall st, port | Inv(run, st) :: Moved(st.schedule, port) <= load
  }

  // An open, released flow has waited no longer than its ports have been busy.
  ghost predicate WaitedFairly(run: Run, load: nat, st: State, f: Flow) {
    st.now <= StartBy(run.delay, load, f.phase) + Moved(st.schedule, Send(f.src)) + Moved(st.schedule, Recv(f.dst))
  }

  ghost predicate OnTime(run: Run, load: nat, schedule: seq<Entry>) {
    forall i | 0 <= i < |schedule| :: schedule[i].end <= DueBy(run.delay, load, schedule[i].flow.phase)
  }

  ghost predicate Prompt(run: Run, load: nat, st: State) {
    && Keyed(run, st) && OnTime(run, load, st.schedule)
    && forall f | Ready(run, st, f) :: WaitedFairly(run, load, st, f)
  }

  lemma StartsPrompt(run: Run, load: nat)
    requires run.Valid()
    ensures Prompt(run, load, Initial(run))
  {
  }

  // Every ready flow shares a port with some chosen one.
  ghost predicate Saturates(run: Run, st: State, chosen: seq<Flow>)
    requires Keyed(run, st)
  {
    forall f | Ready(run, st, f) :: exists j :: 0 <= j < |chosen| && (chosen[j].src == f.src || chosen[j].dst == f.dst)
  }

  // What a fluid wave does to the state.
  ghost predicate FluidWave(run: Run, st: State, after: State, chosen: seq<Flow>, duration: nat) {
    && Inv(run, st) && Inv(run, after) && Quiet(st) && 0 < duration
    && (forall f | f in chosen :: f in st.residual && Ready(run, st, f))
    && WaveServed(st, after, chosen, |chosen|, false, duration)
    && after.now == st.now + duration && after.schedule == st.schedule + Sent(st, chosen, |chosen|, false, duration)
  }

  lemma SentEntry(st: State, chosen: seq<Flow>, duration: nat, j: nat)
    requires j < |chosen| && forall f | f in chosen :: f in st.residual
    ensures Sent(st, chosen, |chosen|, false, duration)[j] ==
            Entry(chosen[j], st.now, st.now + duration, duration, st.waves)
  {
  }

  // A flow that was ready when the wave started has one of its ports busy throughout.
  lemma ReadyStaysFair(run: Run, load: nat, st: State, after: State, chosen: seq<Flow>, duration: nat, f: Flow)
    requires FluidWave(run, st, after, chosen, duration) && Prompt(run, load, st) && Saturates(run, st, chosen) &&
             Ready(run, st, f)
    ensures WaitedFairly(run, load, after, f)
  {
    var sent := Sent(st, chosen, |chosen|, false, duration);
    var j: nat :| j < |chosen| && (chosen[j].src == f.src || chosen[j].dst == f.dst);
    SentEntry(st, chosen, duration, j);
    assert WaitedFairly(run, load, st, f);
    hide Inv, Quiet, WaveServed, Ready, Moved, Sent;
    MovedGrows(st.schedule, sent, Send(f.src), j);
    MovedGrows(st.schedule, sent, Recv(f.dst), j);
  }

  // So every transfer of the wave ends in time.
  lemma SentOnTime(run: Run, load: nat, st: State, after: State, chosen: seq<Flow>, duration: nat, j: nat)
    requires FluidWave(run, st, after, chosen, duration) && Prompt(run, load, st) && LoadBounds(run, load) &&
             j < |chosen|
    ensures st.now + duration <= DueBy(run.delay, load, chosen[j].phase) && duration <= load
  {
    var f := chosen[j];
    var sent := Sent(st, chosen, |chosen|, false, duration);
    SentEntry(st, chosen, duration, j);
    assert f in chosen && Ready(run, st, f) && WaitedFairly(run, load, st, f);
    assert Moved(after.schedule, Send(f.src)) <= load && Moved(st.schedule, Recv(f.dst)) <= load;
    hide Inv, Quiet, WaveServed, Ready, Moved, Sent, LoadBounds, Prompt;
    MovedGrows(st.schedule, sent, Send(f.src), j);
  }

  lemma OnTimeConcat(run: Run, load: nat, a: seq<Entry>, b: seq<Entry>)
    requires OnTime(run, load, a) && OnTime(run, load, b)
    ensures OnTime(run, load, a + b)
  {
  }

  lemma WaveOnTime(run: Run, load: nat, st: State, after: State, chosen: seq<Flow>, duration: nat)
    requires FluidWave(run, st, after, chosen, duration) && Prompt(run, load, st) && LoadBounds(run, load)
    ensures OnTime(run, load, after.schedule)
  {
    var sent := Sent(st, chosen, |chosen|, false, duration);
    forall j: nat | j < |sent|
      ensures sent[j].end <= DueBy(run.delay, load, sent[j].flow.phase)
    {
      SentOnTimeAt(run, load, st, after, chosen, duration, j);
    }
    WavePrompt(run, load, st, after, chosen, duration);
    hide *;
    OnTimeConcat(run, load, st.schedule, sent);
  }

  lemma SentOnTimeAt(run: Run, load: nat, st: State, after: State, chosen: seq<Flow>, duration: nat, j: nat)
    requires FluidWave(run, st, after, chosen, duration) && Prompt(run, load, st) && LoadBounds(run, load) &&
             j < |chosen|
    ensures Sent(st, chosen, |chosen|, false, duration)[j].end <=
            DueBy(run.delay, load, Sent(st, chosen, |chosen|, false, duration)[j].flow.phase)
  {
    SentEntry(st, chosen, duration, j);
    SentOnTime(run, load, st, after, chosen, duration, j);
  }

  lemma WavePrompt(run: Run, load: nat, st: State, after: State, chosen: seq<Flow>, duration: nat)
    requires FluidWave(run, st, after, chosen, duration) && Prompt(run, load, st)
    ensures OnTime(run, load, st.schedule) &&
            after.schedule == st.schedule + Sent(st, chosen, |chosen|, false, duration)
  {
  }

  // ------------------------------------------------------------------- releases during a wave

  lemma {:induction false} InboundUnchanged(flows: seq<Flow>, a: map<Flow, nat>, b: map<Flow, nat>, p: nat, g: nat,
                                            k: nat)
    requires k <= |flows| && forall f | f in flows :: f in a && f in b && (f.phase == p && f.dst == g ==> a[f] == b[f])
    ensures InboundSum(flows, a, p, g, k) == InboundSum(flows, b, p, g, k)
  {
    if k > 0 { InboundUnchanged(flows, a, b, p, g, k - 1); }
  }

  lemma {:induction false} CompletionOutside(a: seq<Entry>, b: seq<Entry>, scope: Scope, k: nat)
    requires |a| <= k <= |a + b| && forall j | 0 <= j < |b| :: !FlowIn(b[j].flow, scope)
    ensures CompletionUpTo(a + b, scope, k) == Completion(a, scope)
  {
    if k == |a| { CompletionBefore(a, b, scope, k); } else { CompletionOutside(a, b, scope, k - 1); }
  }

  lemma {:induction false} CompletionBefore(a: seq<Entry>, b: seq<Entry>, scope: Scope, k: nat)
    requires k <= |a|
    ensures CompletionUpTo(a + b, scope, k) == CompletionUpTo(a, scope, k)
  {
    if k > 0 { CompletionBefore(a, b, scope, k - 1); }
  }

  ghost predicate NoneTo(chosen: seq<Flow>, p: nat, g: nat) {
    forall j | 0 <= j < |chosen| :: !(chosen[j].phase == p && chosen[j].dst == g)
  }

  lemma CompletionUnchanged(run: Run, st: State, after: State, chosen: seq<Flow>, duration: nat, p: nat, g: nat)
    requires FluidWave(run, st, after, chosen, duration) && NoneTo(chosen, p, g)
    ensures Completion(after.schedule, Inbound(p, g)) == Completion(st.schedule, Inbound(p, g))
  {
    hide Inv, Quiet, WaveServed, Ready, Completion;
    var sent, scope := Sent(st, chosen, |chosen|, false, duration), Inbound(p, g);
    forall j | 0 <= j < |sent|
      ensures !FlowIn(sent[j].flow, scope)
    {
      SentEntry(st, chosen, duration, j);
    }
    CompletionOutside(st.schedule, sent, scope, |st.schedule + sent|);
    CompletionOf(after.schedule, scope);
  }

  lemma CompletionOf(schedule: seq<Entry>, scope: Scope)
    ensures Completion(schedule, scope) == CompletionUpTo(schedule, scope, |schedule|)
  {
  }

  lemma ResidualsUnchanged(run: Run, st: State, after: State, chosen: seq<Flow>, duration: nat, p: nat, g: nat)
    requires FluidWave(run, st, after, chosen, duration) && NoneTo(chosen, p, g)
    ensures Keyed(run, st) && Keyed(run, after)
    ensures InboundSum(run.flows, after.residual, p, g, |run.flows|) ==
            InboundSum(run.flows, st.residual, p, g, |run.flows|)
  {
    forall f | f in run.flows
      ensures f.phase == p && f.dst == g ==> after.residual[f] == st.residual[f]
    {
      if f in chosen { var j :| 0 <= j < |chosen| && chosen[j] == f; }
    }
    InboundUnchanged(run.flows, after.residual, st.residual, p, g, |run.flows|);
  }

  // A wave without a transfer to g in a phase leaves the release that depends on it alone.
  lemma ReleaseUnchanged(run: Run, st: State, after: State, chosen: seq<Flow>, duration: nat, p: nat, g: nat)
    requires FluidWave(run, st, after, chosen, duration) && p > 0 && NoneTo(chosen, p - 1, g)
    ensures Keyed(run, st) && Keyed(run, after) && ReleaseOf(run, after, p, g) == ReleaseOf(run, st, p, g)
  {
    hide *;
    CompletionUnchanged(run, st, after, chosen, duration, p - 1, g);
    ResidualsUnchanged(run, st, after, chosen, duration, p - 1, g);
    SameSumsSameRelease(run, st, after, p, g);
  }

  lemma SameSumsSameRelease(run: Run, st: State, after: State, p: nat, g: nat)
    requires p > 0 && Keyed(run, st) && Keyed(run, after)
    requires InboundSum(run.flows, after.residual, p - 1, g, |run.flows|) ==
             InboundSum(run.flows, st.residual, p - 1, g, |run.flows|)
    requires Completion(after.schedule, Inbound(p - 1, g)) == Completion(st.schedule, Inbound(p - 1, g))
    ensures ReleaseOf(run, after, p, g) == ReleaseOf(run, st, p, g)
  {
    hide Completion, InboundSum;
  }

  // A completion is no later than the due time of its phase.
  lemma CompletionDue(run: Run, load: nat, schedule: seq<Entry>, p: nat, g: nat)
    requires OnTime(run, load, schedule)
    ensures Completion(schedule, Inbound(p, g)) <= DueBy(run.delay, load, p)
  {
  }

  lemma QuietCompletion(st: State, p: nat, g: nat)
    requires Quiet(st)
    ensures Completion(st.schedule, Inbound(p, g)) <= st.now
  {
  }

  lemma CompletedInWave(run: Run, st: State, after: State, chosen: seq<Flow>, duration: nat, j: nat)
    requires FluidWave(run, st, after, chosen, duration) && j < |chosen|
    ensures after.now <= Completion(after.schedule, Inbound(chosen[j].phase, chosen[j].dst))
  {
    hide Inv, Quiet, WaveServed, Ready;
    var sent := Sent(st, chosen, |chosen|, false, duration);
    SentEntry(st, chosen, duration, j);
    assert after.schedule[|st.schedule| + j] == sent[j];
    assert FlowIn(sent[j].flow, Inbound(chosen[j].phase, chosen[j].dst));
  }

  // A release after the start of the wave only comes with a compute delay.
  lemma ReleaseAfterStart(run: Run, st: State, p: nat, g: nat)
    requires Keyed(run, st) && Quiet(st) && 0 < p < 3
    requires ReleaseOf(run, st, p, g).At? && ReleaseOf(run, st, p, g).time > st.now
    ensures p == 1 && run.delay > 0 &&
            ReleaseOf(run, st, p, g).time == Completion(st.schedule, Inbound(0, g)) + run.delay
  {
    QuietCompletion(st, p - 1, g);
    hide Completion, InboundSum;
  }

  lemma FluidFacts(run: Run, st: State, after: State, chosen: seq<Flow>, duration: nat)
    requires FluidWave(run, st, after, chosen, duration)
    ensures Keyed(run, st) && Keyed(run, after) && Quiet(st) && after.now == st.now + duration
  {
  }

  lemma DueStepsUp(delay: nat, load: nat, p: nat, time: nat, duration: nat)
    requires 0 < p < 3 && duration <= load
    ensures time <= DueBy(delay, load, p - 1) ==> time <= StartBy(delay, load, p)
    ensures p == 1 && delay > 0 && time <= DueBy(delay, load, 0) + delay + duration ==> time <= StartBy(delay, load, p)
  {
  }

  lemma ReleasedInWave(run: Run, load: nat, st: State, after: State, chosen: seq<Flow>, duration: nat, j: nat)
    requires FluidWave(run, st, after, chosen, duration) && OnTime(run, load, after.schedule) && j < |chosen|
    ensures after.now <= DueBy(run.delay, load, chosen[j].phase)
  {
    CompletedInWave(run, st, after, chosen, duration, j);
    CompletionDue(run, load, after.schedule, chosen[j].phase, chosen[j].dst);
  }

  lemma ReleasedByDelay(run: Run, load: nat, st: State, after: State, chosen: seq<Flow>, duration: nat, f: Flow)
    requires FluidWave(run, st, after, chosen, duration) && OnTime(run, load, st.schedule) && 0 < f.phase < 3
    requires NoneTo(chosen, f.phase - 1, f.src) && Keyed(run, st) && Keyed(run, after)
    requires ReleasedBy(run, after, f, after.now) && !ReleasedBy(run, st, f, st.now)
    ensures f.phase == 1 && run.delay > 0 && after.now <= DueBy(run.delay, load, 0) + run.delay + duration
  {
    FluidFacts(run, st, after, chosen, duration);
    ReleaseUnchanged(run, st, after, chosen, duration, f.phase, f.src);
    hide FluidWave, NoneTo, ReleaseOf, DueBy, Quiet;
    ReleaseAfterStart(run, st, f.phase, f.src);
    CompletionDue(run, load, st.schedule, 0, f.src);
  }

  // A flow released while the wave was running has not waited beyond its start time.
  lemma LateReleaseFair(run: Run, load: nat, st: State, after: State, chosen: seq<Flow>, duration: nat, f: Flow)
    requires FluidWave(run, st, after, chosen, duration) && duration <= load && f.phase < 3
    requires OnTime(run, load, st.schedule) && OnTime(run, load, after.schedule)
    requires Keyed(run, st) && Keyed(run, after) && ReleasedBy(run, after, f, after.now) &&
             !ReleasedBy(run, st, f, st.now)
    ensures f.phase > 0 && after.now <= StartBy(run.delay, load, f.phase)
  {
    if f.phase == 0 {
      FirstPhaseReleased(run, st, f);
    } else {
      hide FluidWave, OnTime, ReleasedBy, DueBy, StartBy, Keyed;
      DueStepsUp(run.delay, load, f.phase, after.now, duration);
      if j: nat :| j < |chosen| && chosen[j].phase == f.phase - 1 && chosen[j].dst == f.src {
        ReleasedInWave(run, load, st, after, chosen, duration, j);
      } else {
        ReleasedByDelay(run, load, st, after, chosen, duration, f);
      }
    }
  }

  lemma FirstPhaseReleased(run: Run, st: State, f: Flow)
    requires Keyed(run, st) && f.phase == 0
    ensures ReleasedBy(run, st, f, st.now)
  {
  }

  // What a wave leaves open was open before.
  lemma StillOpenFlow(run: Run, st: State, after: State, chosen: seq<Flow>, duration: nat, f: Flow)
    requires FluidWave(run, st, after, chosen, duration) && Ready(run, after, f)
    ensures f in run.flows && f in st.residual && st.residual[f] > 0 && f.phase < 3 &&
            ReleasedBy(run, after, f, after.now)
  {
    hide Quiet, ReleasedBy;
    if f in chosen { var j :| 0 <= j < |chosen| && chosen[j] == f; }
    assert run.HasFlow(f);
  }

  /** A fluid wave that leaves no ready flow with both ports idle keeps the run prompt. */
  lemma WaveKeepsPrompt(run: Run, load: nat, st: State, after: State, chosen: seq<Flow>, duration: nat)
    requires FluidWave(run, st, after, chosen, duration) && chosen != []
    requires Prompt(run, load, st) && LoadBounds(run, load) && Saturates(run, st, chosen)
    ensures Prompt(run, load, after)
  {
    FluidFacts(run, st, after, chosen, duration);
    WaveOnTime(run, load, st, after, chosen, duration);
    SentOnTime(run, load, st, after, chosen, duration, 0);
    assert OnTime(run, load, st.schedule);
    forall f | Ready(run, after, f)
      ensures WaitedFairly(run, load, after, f)
    {
      KeepsFair(run, load, st, after, chosen, duration, f);
    }
  }

  lemma KeepsFair(run: Run, load: nat, st: State, after: State, chosen: seq<Flow>, duration: nat, f: Flow)
    requires FluidWave(run, st, after, chosen, duration) && duration <= load && Prompt(run, load, st) &&
             Saturates(run, st, chosen)
    requires OnTime(run, load, st.schedule) && OnTime(run, load, after.schedule)
    requires Keyed(run, st) && Keyed(run, after) && Ready(run, after, f)
    ensures WaitedFairly(run, load, after, f)
  {
    StillOpenFlow(run, st, after, chosen, duration, f);
    if ReleasedBy(run, st, f, st.now) {
      assert Ready(run, st, f);
      ReadyStaysFair(run, load, st, after, chosen, duration, f);
    } else {
      LateReleaseFair(run, load, st, after, chosen, duration, f);
    }
  }

  /** So does waiting for the next release. */
  lemma IdleKeepsPrompt(run: Run, load: nat, st: State, later: nat)
    requires Inv(run, st) && Quiet(st) && Prompt(run, load, st) && st.now <= later
    requires forall f | f in run.flows :: !Ready(run, st, f)
    requires forall f | f in run.flows && ReleaseOf(run, st, f.phase, f.src).At? &&
             ReleaseOf(run, st, f.phase, f.src).time > st.now ::
               later <= ReleaseOf(run, st, f.phase, f.src).time
    ensures Prompt(run, load, st.(now := later))
  {
    var after := st.(now := later);
    forall f | Ready(run, after, f)
      ensures WaitedFairly(run, load, after, f)
    {
      WokenFair(run, load, st, later, f);
    }
  }

  lemma WokenFair(run: Run, load: nat, st: State, later: nat, f: Flow)
    requires run.Valid() && Keyed(run, st) && Quiet(st) && OnTime(run, load, st.schedule) && st.now <= later
    requires f in run.flows && !Ready(run, st, f) && Ready(run, st.(now := later), f)
    requires ReleaseOf(run, st, f.phase, f.src).time > st.now ==> later <= ReleaseOf(run, st, f.phase, f.src).time
    ensures WaitedFairly(run, load, st.(now := later), f)
  {
    assert run.HasFlow(f);
    SameReleases(run, st, later, f.phase, f.src);
    hide OnTime, Completion, InboundSum, Quiet, Moved;
    if f.phase > 0 {
      CompletionDue(run, load, st.schedule, f.phase - 1, f.src);
      ReleaseAfterStart(run, st, f.phase, f.src);
    }
  }

  lemma SameReleases(run: Run, st: State, later: nat, p: nat, g: nat)
    requires Keyed(run, st)
    ensures ReleaseOf(run, st.(now := later), p, g) == ReleaseOf(run, st, p, g)
  {
  }
}
