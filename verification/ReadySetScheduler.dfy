// The ready-set scheduler.
module ReadySetScheduler {
  // One wave at a time: candidate filter, matching, fluid or atomic service, and the
  // per-rank release bookkeeping.

  import opened Transfers
  import opened ExactOracle
  import opened Wrappers
  import opened Replay

  // When a rank may start sending in a phase; Never stands for an infinite release time.
  datatype Release = Never | At(time: nat)

  // What a run has done so far.
  datatype State = State(now: nat, residual: map<Flow, nat>, schedule: seq<Entry>, waves: nat)

  // The fixed inputs of a run. phases is 3 in an execution window, 2 in a runtime look-ahead.
  datatype Run = Run(ranks: nat, phases: nat, delay: nat, flows: seq<Flow>, volume: map<Flow, nat>) {
    ghost predicate Valid() {
      && 2 <= phases <= 3
      && (forall f | f in flows :: HasFlow(f) && f in volume)
      && (forall i, j | 0 <= i < j < |flows| :: flows[i] != flows[j])
    }

    predicate HasFlow(f: Flow) { f.phase < phases && f.src < ranks && f.dst < ranks }
  }

  // ------------------------------------------------------------ flow collection

  method CollectRealFlows(inst: Instance, phases: nat) returns (flows: seq<Flow>)
    requires inst.Valid() && phases <= 3
    ensures forall f :: f in flows <==> IsTarget(inst, phases, f)
    ensures forall i, j | 0 <= i < j < |flows| :: flows[i] != flows[j]
  {
    flows := [];
    for phase := 0 to phases
      invariant forall f :: f in flows <==> IsTarget(inst, phases, f) && f.phase < phase
      invariant forall i, j | 0 <= i < j < |flows| :: flows[i] != flows[j]
    {
      for src := 0 to inst.rankCount
        invariant forall f :: f in flows <==>
                    IsTarget(inst, phases, f) && (f.phase < phase || (f.phase == phase && f.src < src))
        invariant forall i, j | 0 <= i < j < |flows| :: flows[i] != flows[j]
      {
        for dst := 0 to inst.rankCount
          invariant forall f :: f in flows <==>
                      IsTarget(inst, phases, f) &&
                          (f.phase < phase || (f.phase == phase && (f.src < src || (f.src == src && f.dst < dst))))
          invariant forall i, j | 0 <= i < j < |flows| :: flows[i] != flows[j]
        {
          if src != dst && Demand(inst, phase)[src][dst] > 0 {
            flows := flows + [Flow(phase, src, dst)];
          }
        }
      }
    }
  }

  /** Outstanding volume of one phase towards one rank, over the first k flows. */
  function InboundSum(flows: seq<Flow>, residual: map<Flow, nat>, p: nat, g: nat, k: nat): nat
    requires k <= |flows| && forall f | f in flows :: f in residual
  {
    if k == 0 then 0
    else InboundSum(flows, residual, p, g, k - 1) +
         (if flows[k - 1].phase == p && flows[k - 1].dst == g then residual[flows[k - 1]] else 0)
  }

  lemma InboundSumZero(flows: seq<Flow>, residual: map<Flow, nat>, p: nat, g: nat, k: nat)
    requires k <= |flows| && forall f | f in flows :: f in residual
    ensures InboundSum(flows, residual, p, g, k) == 0 <==>
            forall i | 0 <= i < k && flows[i].phase == p && flows[i].dst == g :: residual[flows[i]] == 0
  {
  }

  lemma {:induction false} InboundSumServe(flows: seq<Flow>, residual: map<Flow, nat>, f: Flow, served: nat, p: nat,
                                           g: nat, k: nat)
    requires k <= |flows| && forall x | x in flows :: x in residual
    requires forall i, j | 0 <= i < j < |flows| :: flows[i] != flows[j]
    requires f in residual && served <= residual[f]
    ensures var after := residual[f := residual[f] - served];
            InboundSum(flows, after, p, g, k) + (if f in flows[..k] && f.phase == p && f.dst == g then served else 0)
            == InboundSum(flows, residual, p, g, k)
  {
    if k > 0 {
      InboundSumServe(flows, residual, f, served, p, g, k - 1);
      assert f in flows[..k] <==> f in flows[..k - 1] || f == flows[k - 1];
      if f == flows[k - 1] {
        assert f !in flows[..k - 1];
      }
    }
  }

  lemma InboundSumServeAll(flows: seq<Flow>, residual: map<Flow, nat>, f: Flow, served: nat, p: nat, g: nat)
    requires f in flows && forall x | x in flows :: x in residual
    requires forall i, j | 0 <= i < j < |flows| :: flows[i] != flows[j]
    requires served <= residual[f]
    ensures InboundSum(flows, residual[f := residual[f] - served], p, g, |flows|) ==
            InboundSum(flows, residual, p, g, |flows|) - (if (p, g) == (f.phase, f.dst) then served else 0)
  {
    InboundSumServe(flows, residual, f, served, p, g, |flows|);
    assert flows[..|flows|] == flows;
  }

  // ------------------------------------------------------------ run invariant

  ghost predicate Keyed(run: Run, st: State) {
    st.residual.Keys == (set f | f in run.flows)
  }

  /** A rank may enter its next phase once its inbound traffic is complete, after the compute delay before P1. */
  function ReleaseOf(run: Run, st: State, p: nat, g: nat): Release
    requires forall f | f in run.flows :: f in st.residual
  {
    if p == 0 then At(0)
    else if InboundSum(run.flows, st.residual, p - 1, g, |run.flows|) == 0
    then At(Completion(st.schedule, Inbound(p - 1, g)) + (if p == 1 then run.delay else 0))
    else Never
  }

  predicate ReleasedBy(run: Run, st: State, f: Flow, time: nat)
    requires forall x | x in run.flows :: x in st.residual
  {
    var release := ReleaseOf(run, st, f.phase, f.src);
    release.At? && release.time <= time
  }

  ghost predicate EntryOk(run: Run, st: State, e: Entry)
    requires Keyed(run, st)
  {
    e.flow in run.flows && e.served > 0 && e.end == e.start + e.served && e.start <= st.now &&
        ReleasedBy(run, st, e.flow, e.start)
  }

  // What was served plus what is left is the demand, flow by flow.
  ghost predicate Conserves(run: Run, st: State)
    requires run.Valid() && Keyed(run, st)
  {
    forall f | f in run.flows :: Served(st.schedule, f) + st.residual[f] == run.volume[f]
  }

  ghost predicate Inv(run: Run, st: State) {
    && run.Valid() && Keyed(run, st) && Conserves(run, st) && PortsExclusive(st.schedule)
    && (forall i | 0 <= i < |st.schedule| :: EntryOk(run, st, st.schedule[i]))
  }

  // Between waves no transfer is in flight.
  ghost predicate Quiet(st: State) {
    forall i | 0 <= i < |st.schedule| :: st.schedule[i].end <= st.now
  }

  predicate Ready(run: Run, st: State, f: Flow)
    requires forall x | x in run.flows :: x in st.residual
  {
    f in run.flows && st.residual[f] > 0 && ReleasedBy(run, st, f, st.now)
  }

  // No transfer in flight shares a port with f.
  ghost predicate PortsIdle(st: State, f: Flow) {
    forall i | 0 <= i < |st.schedule| ::
      st.schedule[i].end <= st.now || (st.schedule[i].flow.src != f.src && st.schedule[i].flow.dst != f.dst)
  }

  ghost predicate IsMatching(chosen: seq<Flow>) {
    forall i, j | 0 <= i < j < |chosen| :: chosen[i].src != chosen[j].src && chosen[i].dst != chosen[j].dst
  }

  function Initial(run: Run): State
    requires forall f | f in run.flows :: f in run.volume
  {
    State(0, map f | f in run.flows :: run.volume[f], [], 0)
  }

  lemma InitialInv(run: Run)
    requires run.Valid()
    ensures Inv(run, Initial(run)) && Quiet(Initial(run))
  {
  }

  // ------------------------------------------------------------------- one transfer

  /** Starts a transfer of `served` units of f now. */
  function Serve(st: State, f: Flow, served: nat): State
    requires f in st.residual && served <= st.residual[f]
  {
    st.(residual := st.residual[f := st.residual[f] - served],
        schedule := st.schedule + [Entry(f, st.now, st.now + served, served, st.waves)])
  }

  lemma ServedSnoc(schedule: seq<Entry>, e: Entry, f: Flow, k: nat)
    requires k <= |schedule|
    ensures ServedUpTo(schedule + [e], f, k) == ServedUpTo(schedule, f, k)
  {
  }

  lemma CompletionSnocUpTo(schedule: seq<Entry>, e: Entry, scope: Scope, k: nat)
    requires k <= |schedule|
    ensures CompletionUpTo(schedule + [e], scope, k) == CompletionUpTo(schedule, scope, k)
  {
  }

  lemma CompletionSnoc(schedule: seq<Entry>, e: Entry, scope: Scope)
    ensures Completion(schedule + [e], scope) ==
            if FlowIn(e.flow, scope) then Max(Completion(schedule, scope), e.end) else Completion(schedule, scope)
  {
    CompletionSnocUpTo(schedule, e, scope, |schedule|);
  }

  lemma ServeConserves(run: Run, st: State, f: Flow, served: nat)
    requires run.Valid() && Keyed(run, st) && Conserves(run, st) && f in run.flows && served <= st.residual[f]
    ensures Keyed(run, Serve(st, f, served)) && Conserves(run, Serve(st, f, served))
  {
    var after := Serve(st, f, served);
    assert after.residual.Keys == st.residual.Keys;
    forall x | x in run.flows
      ensures Served(after.schedule, x) + after.residual[x] == run.volume[x]
    {
      ServedSnoc(st.schedule, Entry(f, st.now, st.now + served, served, st.waves), x, |st.schedule|);
    }
  }

  // A flow still being received keeps its receiver out of the next phase, so serving it
  // moves no release time that was already fixed.
  lemma ServeKeepsReleases(run: Run, st: State, f: Flow, served: nat, p: nat, g: nat)
    requires run.Valid() && Keyed(run, st) && f in run.flows && 0 < served <= st.residual[f]
    requires Keyed(run, Serve(st, f, served)) && ReleaseOf(run, st, p, g).At?
    ensures ReleaseOf(run, Serve(st, f, served), p, g) == ReleaseOf(run, st, p, g)
  {
    if p > 0 {
      var i :| 0 <= i < |run.flows| && run.flows[i] == f;
      InboundSumZero(run.flows, st.residual, p - 1, g, |run.flows|);
      InboundSumServeAll(run.flows, st.residual, f, served, p - 1, g);
      CompletionSnoc(st.schedule, Entry(f, st.now, st.now + served, served, st.waves), Inbound(p - 1, g));
    }
  }

  lemma ServeKeepsEntries(run: Run, st: State, f: Flow, served: nat)
    requires Inv(run, st) && Ready(run, st, f) && 0 < served <= st.residual[f]
    requires Keyed(run, Serve(st, f, served))
    ensures forall i | 0 <= i < |st.schedule| + 1 ::
            EntryOk(run, Serve(st, f, served), Serve(st, f, served).schedule[i])
  {
    var after := Serve(st, f, served);
    forall i | 0 <= i < |after.schedule|
      ensures EntryOk(run, after, after.schedule[i])
    {
      var e := after.schedule[i];
      if i < |st.schedule| { assert EntryOk(run, st, e); }
      ServeKeepsReleases(run, st, f, served, e.flow.phase, e.flow.src);
    }
  }

  lemma ServeKeepsPorts(st: State, e: Entry)
    requires PortsExclusive(st.schedule) && PortsIdle(st, e.flow) && e.start == st.now
    ensures PortsExclusive(st.schedule + [e])
  {
    forall i, j | 0 <= i < j < |st.schedule| + 1
      ensures EntriesApart((st.schedule + [e])[i], (st.schedule + [e])[j])
    {
      if j < |st.schedule| {
        assert EntriesApart(st.schedule[i], st.schedule[j]);
      } else {
        assert st.schedule[i].end <= st.now ||
               (st.schedule[i].flow.src != e.flow.src && st.schedule[i].flow.dst != e.flow.dst);
      }
    }
  }

  /** Serving a ready flow on idle ports keeps the whole run invariant. */
  lemma ServePreserves(run: Run, st: State, f: Flow, served: nat)
    requires Inv(run, st) && Ready(run, st, f) && PortsIdle(st, f) && 0 < served <= st.residual[f]
    ensures Inv(run, Serve(st, f, served))
  {
    ServeConserves(run, st, f, served);
    ServeKeepsEntries(run, st, f, served);
    ServeKeepsPorts(st, Entry(f, st.now, st.now + served, served, st.waves));
  }

  /** Serving f leaves every flow on other ports ready and its ports idle. */
  lemma ServeLeavesOthers(run: Run, st: State, f: Flow, served: nat, x: Flow)
    requires run.Valid() && Keyed(run, st) && f in run.flows && 0 < served <= st.residual[f]
    requires Keyed(run, Serve(st, f, served))
    requires Ready(run, st, x) && PortsIdle(st, x) && x.src != f.src && x.dst != f.dst
    ensures Ready(run, Serve(st, f, served), x) && PortsIdle(Serve(st, f, served), x)
    ensures Serve(st, f, served).residual[x] == st.residual[x]
  {
    ServeKeepsReleases(run, st, f, served, x.phase, x.src);
  }

  lemma AdvanceKeepsInv(run: Run, st: State, now: nat, waves: nat)
    requires Inv(run, st) && st.now <= now
    ensures Inv(run, st.(now := now, waves := waves))
  {
    var after := st.(now := now, waves := waves);
    forall i | 0 <= i < |after.schedule|
      ensures EntryOk(run, after, after.schedule[i])
    {
      assert EntryOk(run, st, st.schedule[i]);
    }
  }

  // ------------------------------------------------------------------- progress

  /** The loop is never stuck: while demand remains, some flow is ready or some release lies ahead. */
  lemma NeverDeadlocks(run: Run, st: State, f: Flow) returns (g: Flow)
    requires run.Valid() && Keyed(run, st) && f in run.flows && st.residual[f] > 0
    ensures g in run.flows && ReleaseOf(run, st, g.phase, g.src).At?
    ensures Ready(run, st, g) || st.now < ReleaseOf(run, st, g.phase, g.src).time
    decreases f.phase
  {
    if ReleaseOf(run, st, f.phase, f.src).At? {
      g := f;
    } else {
      InboundSumZero(run.flows, st.residual, f.phase - 1, f.src, |run.flows|);
      var i :| 0 <= i < |run.flows| && run.flows[i].phase == f.phase - 1 && run.flows[i].dst == f.src &&
          st.residual[run.flows[i]] != 0;
      g := NeverDeadlocks(run, st, run.flows[i]);
    }
  }

  // ------------------------------------------------------------- the run's tables

  datatype Key = Key(phase: nat, gpu: nat)

  function KeySet(ranks: nat): (keys: set<Key>)
    ensures forall k: Key :: k in keys <==> k.phase < 3 && k.gpu < ranks
  {
    set p: nat, g: nat | p < 3 && g < ranks :: Key(p, g)
  }

  // The dictionaries the loop keeps instead of recomputing sums and maxima.
  datatype Tables = Tables(inbound: map<Key, nat>, release: map<Key, Release>, barrierDone: map<Key, nat>)

  function InboundOf(run: Run, st: State, key: Key): nat
    requires forall f | f in run.flows :: f in st.residual
  {
    InboundSum(run.flows, st.residual, key.phase, key.gpu, |run.flows|)
  }

  function DoneOf(st: State, key: Key): nat {
    Completion(st.schedule, Inbound(key.phase, key.gpu))
  }

  ghost predicate CellMatches(run: Run, st: State, tables: Tables, key: Key)
    requires Keyed(run, st)
  {
    && key in tables.inbound && tables.inbound[key] == InboundOf(run, st, key)
    && key in tables.barrierDone && tables.barrierDone[key] == DoneOf(st, key)
    && key in tables.release && tables.release[key] == ReleaseOf(run, st, key.phase, key.gpu)
  }

  ghost predicate TablesMatch(run: Run, st: State, tables: Tables) {
    Keyed(run, st) && forall key | key in KeySet(run.ranks) :: CellMatches(run, st, tables, key)
  }

  method InitialTables(run: Run, st: State) returns (tables: Tables)
    requires run.Valid() && st == Initial(run)
    ensures TablesMatch(run, st, tables)
  {
    var keys := KeySet(run.ranks);
    var inbound := map key | key in keys :: InboundOf(run, st, key);
    var release := map key | key in keys ::
      if key.phase == 0 then At(0)
      else if inbound[Key(key.phase - 1, key.gpu)] == 0 then At(if key.phase == 1 then run.delay else 0)
      else Never;
    tables := Tables(inbound, release, map key | key in keys :: 0);
    forall key | key in keys
      ensures CellMatches(run, st, tables, key)
    {
      if key.phase > 0 { assert Key(key.phase - 1, key.gpu) in inbound; }
    }
  }

  /** The dictionary updates for one transfer that starts at `now`. */
  function ServeTables(delay: nat, tables: Tables, f: Flow, served: nat, now: nat): Tables
    requires Key(f.phase, f.dst) in tables.inbound && Key(f.phase, f.dst) in tables.barrierDone
  {
    var key := Key(f.phase, f.dst);
    var left: nat := if served <= tables.inbound[key] then tables.inbound[key] - served else 0;
    var done := Max(tables.barrierDone[key], now + served);
    Tables(
      tables.inbound[key := left],
      if f.phase < 2 && left == 0
      then tables.release[Key(f.phase + 1, f.dst) := At(done + (if f.phase == 0 then delay else 0))]
      else tables.release,
      tables.barrierDone[key := done])
  }

  // How one transfer moves the outstanding volume, the barrier time and the release time of a key.
  lemma InboundStep(run: Run, st: State, f: Flow, served: nat, key: Key)
    requires run.Valid() && Keyed(run, st) && f in run.flows && served <= st.residual[f] &&
             Keyed(run, Serve(st, f, served))
    ensures InboundOf(run, Serve(st, f, served), key) ==
            InboundOf(run, st, key) - (if key == Key(f.phase, f.dst) then served else 0)
  {
    InboundSumServeAll(run.flows, st.residual, f, served, key.phase, key.gpu);
  }

  lemma DoneStep(st: State, f: Flow, served: nat, key: Key)
    requires f in st.residual && served <= st.residual[f]
    ensures DoneOf(Serve(st, f, served), key) ==
              if key == Key(f.phase, f.dst) then Max(DoneOf(st, key), st.now + served) else DoneOf(st, key)
  {
    CompletionSnoc(st.schedule, Entry(f, st.now, st.now + served, served, st.waves), Inbound(key.phase, key.gpu));
  }

  lemma ReleaseFromCells(run: Run, st: State, key: Key)
    requires Keyed(run, st) && key.phase > 0
    ensures ReleaseOf(run, st, key.phase, key.gpu) ==
            (var before := Key(key.phase - 1, key.gpu);
             if InboundOf(run, st, before) == 0
               then At(DoneOf(st, before) + (if key.phase == 1 then run.delay else 0)) else Never)
  {
  }

  lemma ReleaseStep(run: Run, st: State, tables: Tables, f: Flow, served: nat, key: Key)
    requires run.Valid() && Keyed(run, st) && f in run.flows && 0 < served <= st.residual[f] &&
             Keyed(run, Serve(st, f, served))
    requires CellMatches(run, st, tables, Key(f.phase, f.dst)) && CellMatches(run, st, tables, key) && key.phase < 3
    ensures key in ServeTables(run.delay, tables, f, served, st.now).release
    ensures ServeTables(run.delay, tables, f, served, st.now).release[key] ==
            ReleaseOf(run, Serve(st, f, served), key.phase, key.gpu)
  {
    if key.phase > 0 {
      hide ReleaseOf, InboundOf, DoneOf;
      var before := Key(key.phase - 1, key.gpu);
      ReleaseFromCells(run, st, key);
      ReleaseFromCells(run, Serve(st, f, served), key);
      InboundStep(run, st, f, served, before);
      DoneStep(st, f, served, before);
    }
  }

  lemma CellStep(run: Run, st: State, tables: Tables, f: Flow, served: nat, key: Key)
    requires run.Valid() && Keyed(run, st) && f in run.flows && 0 < served <= st.residual[f] &&
             Keyed(run, Serve(st, f, served))
    requires CellMatches(run, st, tables, Key(f.phase, f.dst)) && CellMatches(run, st, tables, key) && key.phase < 3
    ensures CellMatches(run, Serve(st, f, served), ServeTables(run.delay, tables, f, served, st.now), key)
  {
    InboundStep(run, st, f, served, key);
    DoneStep(st, f, served, key);
    ReleaseStep(run, st, tables, f, served, key);
  }

  lemma TablesStep(run: Run, st: State, tables: Tables, f: Flow, served: nat)
    requires run.Valid() && TablesMatch(run, st, tables) && f in run.flows && 0 < served <= st.residual[f]
    ensures Key(f.phase, f.dst) in tables.inbound && Key(f.phase, f.dst) in tables.barrierDone
    ensures TablesMatch(run, Serve(st, f, served), ServeTables(run.delay, tables, f, served, st.now))
  {
    assert run.HasFlow(f) && Key(f.phase, f.dst) in KeySet(run.ranks);
    assert CellMatches(run, st, tables, Key(f.phase, f.dst));
    assert Serve(st, f, served).residual.Keys == st.residual.Keys;
    forall key | key in KeySet(run.ranks)
      ensures CellMatches(run, Serve(st, f, served), ServeTables(run.delay, tables, f, served, st.now), key)
    {
      assert CellMatches(run, st, tables, key);
      CellStep(run, st, tables, f, served, key);
    }
  }

  // ------------------------------------------------------------------- one wave

  // A chosen flow not yet served is still ready, on idle ports and untouched.
  ghost predicate Waiting(run: Run, st: State, cur: State, f: Flow)
    requires Keyed(run, st) && Keyed(run, cur)
  {
    Ready(run, cur, f) && PortsIdle(cur, f) && cur.residual[f] == st.residual[f]
  }

  function ShareOf(st: State, f: Flow, atomic: bool, duration: nat): nat
    requires f in st.residual
  {
    if atomic then st.residual[f] else duration
  }

  // What a wave does to the residuals: chosen flows give up their share, all others keep theirs.
  ghost predicate WaveServed(st: State, after: State, chosen: seq<Flow>, k: nat, atomic: bool, duration: nat)
    requires k <= |chosen| && forall f | f in chosen :: f in st.residual
  {
    && after.residual.Keys == st.residual.Keys
    && (forall j | 0 <= j < k ::
        after.residual[chosen[j]] + ShareOf(st, chosen[j], atomic, duration) == st.residual[chosen[j]])
    && forall f | f in st.residual && f !in chosen :: after.residual[f] == st.residual[f]
  }

  // The transfers of the first k members of a wave.
  function Sent(st: State, chosen: seq<Flow>, k: nat, atomic: bool, duration: nat): (entries: seq<Entry>)
    requires k <= |chosen| && forall f | f in chosen :: f in st.residual
    ensures |entries| == k
  {
    seq(k, j requires 0 <= j < k =>
      var share := ShareOf(st, chosen[j], atomic, duration);
      Entry(chosen[j], st.now, st.now + share, share, st.waves))
  }

  // The first k members of the wave have been served, the others still wait.
  ghost predicate WaveSoFar(run: Run, st: State, cur: State, chosen: seq<Flow>, k: nat, atomic: bool, duration: nat,
                            waveEnd: nat) {
    && Keyed(run, st) && Keyed(run, cur) && k <= |chosen| && (forall f | f in chosen :: f in run.flows)
    && cur.now == st.now && cur.waves == st.waves && st.now <= waveEnd
    && WaveServed(st, cur, chosen, k, atomic, duration)
    && cur.schedule == st.schedule + Sent(st, chosen, k, atomic, duration)
    && (forall j | k <= j < |chosen| :: Waiting(run, st, cur, chosen[j]))
    && (forall i | 0 <= i < |cur.schedule| :: cur.schedule[i].end <= if atomic then waveEnd else st.now + duration)
  }

  lemma WaveStep(run: Run, st: State, cur: State, chosen: seq<Flow>, k: nat, atomic: bool, duration: nat, waveEnd: nat)
    requires run.Valid() && k < |chosen| && IsMatching(chosen)
    requires WaveSoFar(run, st, cur, chosen, k, atomic, duration, waveEnd)
    requires 0 < ShareOf(st, chosen[k], atomic, duration) <= cur.residual[chosen[k]] == st.residual[chosen[k]]
    requires Keyed(run, Serve(cur, chosen[k], ShareOf(st, chosen[k], atomic, duration)))
    ensures var f, served := chosen[k], ShareOf(st, chosen[k], atomic, duration);
            WaveSoFar(run, st, Serve(cur, f, served), chosen, k + 1, atomic, duration, Max(waveEnd, st.now + served))
  {
    hide Ready, PortsIdle, Waiting, Sent;
    MemberServed(st, cur, chosen, k, atomic, duration);
    MemberScheduled(st, cur, chosen, k, atomic, duration);
    OthersWait(run, st, cur, chosen, k, ShareOf(st, chosen[k], atomic, duration));
    hide WaveServed;
  }

  lemma MemberServed(st: State, cur: State, chosen: seq<Flow>, k: nat, atomic: bool, duration: nat)
    requires k < |chosen| && IsMatching(chosen) && forall f | f in chosen :: f in st.residual
    requires WaveServed(st, cur, chosen, k, atomic, duration)
    requires 0 < ShareOf(st, chosen[k], atomic, duration) <= cur.residual[chosen[k]] == st.residual[chosen[k]]
    ensures WaveServed(st, Serve(cur, chosen[k], ShareOf(st, chosen[k], atomic, duration)), chosen, k + 1, atomic,
            duration)
  {
  }

  lemma MemberScheduled(st: State, cur: State, chosen: seq<Flow>, k: nat, atomic: bool, duration: nat)
    requires k < |chosen| && (forall f | f in chosen :: f in st.residual) && chosen[k] in cur.residual
    requires ShareOf(st, chosen[k], atomic, duration) <= cur.residual[chosen[k]]
    requires cur.now == st.now && cur.waves == st.waves
    requires cur.schedule == st.schedule + Sent(st, chosen, k, atomic, duration)
    ensures Serve(cur, chosen[k], ShareOf(st, chosen[k], atomic, duration)).schedule ==
            st.schedule + Sent(st, chosen, k + 1, atomic, duration)
  {
    var share := ShareOf(st, chosen[k], atomic, duration);
    assert Sent(st, chosen, k + 1, atomic, duration) ==
           Sent(st, chosen, k, atomic, duration) + [Entry(chosen[k], st.now, st.now + share, share, st.waves)];
  }

  lemma OthersWait(run: Run, st: State, cur: State, chosen: seq<Flow>, k: nat, served: nat)
    requires run.Valid() && Keyed(run, st) && Keyed(run, cur) && k < |chosen| && IsMatching(chosen) &&
             chosen[k] in run.flows
    requires 0 < served <= cur.residual[chosen[k]] && Keyed(run, Serve(cur, chosen[k], served))
    requires forall j | k <= j < |chosen| :: Waiting(run, st, cur, chosen[j])
    ensures forall j | k < j < |chosen| :: Waiting(run, st, Serve(cur, chosen[k], served), chosen[j])
  {
    forall j | k < j < |chosen|
      ensures Waiting(run, st, Serve(cur, chosen[k], served), chosen[j])
    {
      assert Waiting(run, st, cur, chosen[j]);
      ServeLeavesOthers(run, cur, chosen[k], served, chosen[j]);
    }
  }

  lemma WaveMember(run: Run, st: State, cur: State, tables: Tables, chosen: seq<Flow>, k: nat, atomic: bool,
                   duration: nat, waveEnd: nat)
    requires Inv(run, cur) && TablesMatch(run, cur, tables)
    requires k < |chosen| && IsMatching(chosen)
    requires WaveSoFar(run, st, cur, chosen, k, atomic, duration, waveEnd)
    requires chosen[k] in st.residual && 0 < duration <= st.residual[chosen[k]]
    ensures var f, served := chosen[k], ShareOf(st, chosen[k], atomic, duration);
            && f in cur.residual && 0 < served <= cur.residual[f] && Inv(run, Serve(cur, f, served))
            && Key(f.phase, f.dst) in tables.inbound && Key(f.phase, f.dst) in tables.barrierDone && cur.now == st.now
            && TablesMatch(run, Serve(cur, f, served), ServeTables(run.delay, tables, f, served, cur.now))
            && WaveSoFar(run, st, Serve(cur, f, served), chosen, k + 1, atomic, duration, Max(waveEnd, st.now + served))
  {
    var f, served := chosen[k], ShareOf(st, chosen[k], atomic, duration);
    assert Waiting(run, st, cur, f);
    ServePreserves(run, cur, f, served);
    TablesStep(run, cur, tables, f, served);
    WaveStep(run, st, cur, chosen, k, atomic, duration, waveEnd);
  }

  lemma OpenWave(run: Run, st: State, chosen: seq<Flow>, atomic: bool, duration: nat)
    requires Keyed(run, st) && Quiet(st) && forall f | f in chosen :: f in run.flows && Ready(run, st, f)
    ensures WaveSoFar(run, st, st, chosen, 0, atomic, duration, st.now)
  {
    forall j | 0 <= j < |chosen|
      ensures Waiting(run, st, st, chosen[j])
    {
      assert chosen[j] in chosen;
    }
  }

  lemma CloseWave(run: Run, st: State, cur: State, tables: Tables, chosen: seq<Flow>, atomic: bool, duration: nat,
                  waveEnd: nat)
    requires Inv(run, cur) && TablesMatch(run, cur, tables)
    requires WaveSoFar(run, st, cur, chosen, |chosen|, atomic, duration, waveEnd)
    ensures var after := cur.(now := if atomic then waveEnd else st.now + duration, waves := st.waves + 1);
            Inv(run, after) && Quiet(after) && TablesMatch(run, after, tables) && st.now <= after.now
            && (forall f | f in chosen :: f in st.residual) && WaveServed(st, after, chosen, |chosen|, atomic, duration)
            && after.schedule == st.schedule + Sent(st, chosen, |chosen|, atomic, duration)
  {
    var after := cur.(now := if atomic then waveEnd else st.now + duration, waves := st.waves + 1);
    AdvanceKeepsInv(run, cur, after.now, after.waves);
    AdvanceKeepsTables(run, cur, tables, after.now, after.waves);
  }

  lemma AdvanceKeepsTables(run: Run, st: State, tables: Tables, now: nat, waves: nat)
    requires TablesMatch(run, st, tables)
    ensures TablesMatch(run, st.(now := now, waves := waves), tables)
  {
    forall key | key in KeySet(run.ranks)
      ensures CellMatches(run, st.(now := now, waves := waves), tables, key)
    {
      assert CellMatches(run, st, tables, key);
    }
  }

  // The wave lasts as long as the smallest chosen residual, or the quantum if that is shorter.
  ghost predicate IsDuration(st: State, chosen: seq<Flow>, quantum: Option<nat>, duration: nat)
    requires forall f | f in chosen :: f in st.residual
  {
    && (forall f | f in chosen :: duration <= st.residual[f]) && (quantum.Some? ==> duration <= quantum.value)
    && (quantum == Some(duration) || exists f :: f in chosen && st.residual[f] == duration)
  }

  method WaveDuration(st: State, chosen: seq<Flow>, quantum: Option<nat>) returns (duration: nat)
    requires chosen != [] && forall f | f in chosen :: f in st.residual
    ensures IsDuration(st, chosen, quantum, duration)
  {
    duration := st.residual[chosen[0]];
    ghost var smallest := chosen[0];
    for i := 1 to |chosen|
      invariant smallest in chosen && st.residual[smallest] == duration
      invariant forall j | 0 <= j < i :: duration <= st.residual[chosen[j]]
    {
      if st.residual[chosen[i]] < duration {
        duration, smallest := st.residual[chosen[i]], chosen[i];
      }
    }
    if quantum.Some? && quantum.value < duration {
      duration := quantum.value;
    }
  }

  method StartWave(run: Run, st: State, chosen: seq<Flow>, atomic: bool, quantum: Option<nat>) returns (duration: nat)
    requires Keyed(run, st) && Quiet(st) && chosen != [] && (quantum.Some? ==> quantum.value > 0)
    requires forall f | f in chosen :: f in run.flows && Ready(run, st, f)
    ensures (forall f | f in chosen :: f in st.residual) && 0 < duration && IsDuration(st, chosen, quantum, duration)
    ensures forall k | 0 <= k < |chosen| :: duration <= st.residual[chosen[k]]
    ensures WaveSoFar(run, st, st, chosen, 0, atomic, duration, st.now)
  {
    duration := WaveDuration(st, chosen, quantum);
    OpenWave(run, st, chosen, atomic, duration);
    ChosenPositive(run, st, chosen, quantum, duration);
  }

  // Serves one member of the wave and updates the dictionaries.
  method ServeMember(run: Run, st: State, cur: State, tables: Tables, chosen: seq<Flow>, k: nat, atomic: bool,
                     duration: nat, waveEnd: nat)
    returns (next: State, updated: Tables, end: nat)
    requires Inv(run, cur) && TablesMatch(run, cur, tables)
    requires k < |chosen| && IsMatching(chosen)
    requires WaveSoFar(run, st, cur, chosen, k, atomic, duration, waveEnd)
    requires chosen[k] in st.residual && 0 < duration <= st.residual[chosen[k]]
    ensures Inv(run, next) && TablesMatch(run, next, updated)
    ensures WaveSoFar(run, st, next, chosen, k + 1, atomic, duration, end)
  {
    hide *;
    WaveMember(run, st, cur, tables, chosen, k, atomic, duration, waveEnd);
    var f, served := chosen[k], ShareOf(st, chosen[k], atomic, duration);
    updated := ServeTables(run.delay, tables, f, served, cur.now);
    next := Serve(cur, f, served);
    end := Max(waveEnd, st.now + served);
  }

  /** One wave: every chosen flow sends the same share, the smallest chosen residual capped by the
      quantum, or all it has when atomic; the others keep their residual. */
  method ServeWave(run: Run, st: State, tables: Tables, chosen: seq<Flow>, atomic: bool, quantum: Option<nat>)
    returns (after: State, updated: Tables, ghost duration: nat)
    requires Inv(run, st) && Keyed(run, st) && Quiet(st) && TablesMatch(run, st, tables) && chosen != [] &&
             IsMatching(chosen)
    requires quantum.Some? ==> quantum.value > 0
    requires forall f | f in chosen :: f in run.flows && Ready(run, st, f)
    ensures Inv(run, after) && Quiet(after) && TablesMatch(run, after, updated)
    ensures after.waves == st.waves + 1 && st.now <= after.now && (!atomic ==> after.now == st.now + duration)
    ensures 0 < duration && IsDuration(st, chosen, quantum, duration)
    ensures WaveServed(st, after, chosen, |chosen|, atomic, duration)
    ensures after.schedule == st.schedule + Sent(st, chosen, |chosen|, atomic, duration)
  {
    hide *;
    var length := StartWave(run, st, chosen, atomic, quantum);
    var cur, waveEnd: nat := st, st.now;
    updated := tables;
    for k := 0 to |chosen|
      invariant Inv(run, cur) && TablesMatch(run, cur, updated)
      invariant WaveSoFar(run, st, cur, chosen, k, atomic, length, waveEnd)
    {
      cur, updated, waveEnd := ServeMember(run, st, cur, updated, chosen, k, atomic, length, waveEnd);
    }
    CloseWave(run, st, cur, updated, chosen, atomic, length, waveEnd);
    after := cur.(now := if atomic then waveEnd else st.now + length, waves := st.waves + 1);
    duration := length;
  }

  lemma ChosenPositive(run: Run, st: State, chosen: seq<Flow>, quantum: Option<nat>, duration: nat)
    requires Keyed(run, st) && forall f | f in chosen :: f in run.flows && Ready(run, st, f)
    requires (quantum.Some? ==> quantum.value > 0) && IsDuration(st, chosen, quantum, duration)
    ensures 0 < duration && forall k | 0 <= k < |chosen| ::
            chosen[k] in st.residual && duration <= st.residual[chosen[k]]
  {
    forall k | 0 <= k < |chosen|
      ensures chosen[k] in st.residual && duration <= st.residual[chosen[k]]
    {
      assert chosen[k] in chosen;
    }
  }

  // -------------------------------------------------------- candidates and matching

  method ReadyFlowCandidates(run: Run, st: State, tables: Tables) returns (ready: seq<Flow>)
    requires run.Valid() && TablesMatch(run, st, tables)
    ensures forall f :: f in ready <==> Ready(run, st, f)
  {
    ready := [];
    for i := 0 to |run.flows|
      invariant forall f :: f in ready <==> f in run.flows[..i] && Ready(run, st, f)
    {
      var f := run.flows[i];
      assert run.HasFlow(f) && Key(f.phase, f.src) in KeySet(run.ranks);
      assert CellMatches(run, st, tables, Key(f.phase, f.src));
      var release := tables.release[Key(f.phase, f.src)];
      if st.residual[f] > 0 && release.At? && release.time <= st.now {
        ready := ready + [f];
      }
      assert run.flows[..i + 1] == run.flows[..i] + [f];
    }
    assert run.flows[..|run.flows|] == run.flows;
  }

  /** Takes candidates in order, skipping those whose ports are taken. */
  method GreedyMaximalMatching(order: seq<Flow>) returns (chosen: seq<Flow>)
    ensures IsMatching(chosen)
    ensures forall f | f in chosen :: f in order
    ensures forall f | f in order :: exists c :: c in chosen && (c.src == f.src || c.dst == f.dst)
  {
    chosen := [];
    var usedSrc: set<nat>, usedDst: set<nat> := {}, {};
    for i := 0 to |order|
      invariant IsMatching(chosen)
      invariant forall f | f in chosen :: f in order
      invariant forall s :: s in usedSrc <==> exists c :: c in chosen && c.src == s
      invariant forall d :: d in usedDst <==> exists c :: c in chosen && c.dst == d
      invariant forall f | f in order[..i] :: exists c :: c in chosen && (c.src == f.src || c.dst == f.dst)
    {
      var f := order[i];
      ghost var before := chosen;
      if f.src !in usedSrc && f.dst !in usedDst {
        forall k | 0 <= k < |chosen|
          ensures chosen[k].src != f.src && chosen[k].dst != f.dst
        {
          assert chosen[k] in chosen;
        }
        usedSrc := usedSrc + {f.src};
        usedDst := usedDst + {f.dst};
        chosen := chosen + [f];
        assert f in chosen && forall c :: c in chosen <==> c in before || c == f;
      }
      assert order[..i + 1] == order[..i] + [f];
    }
    assert order[..|order|] == order;
  }

  // The release of k is past, or not before the candidate.
  predicate NotBefore(release: map<Key, Release>, k: Key, now: nat, next: Release)
    requires k in release
  {
    release[k].At? && release[k].time > now ==> next.At? && next.time <= release[k].time
  }

  method NextRelease(release: map<Key, Release>, ranks: nat, now: nat) returns (next: Release, ghost key: Key)
    requires forall k | k in KeySet(ranks) :: k in release
    ensures next.At? ==> next.time > now && key in KeySet(ranks) && release[key] == next
    ensures next.At? ==>
              forall k | k in KeySet(ranks) && release[k].At? && release[k].time > now :: next.time <= release[k].time
    ensures next.Never? ==> forall k | k in KeySet(ranks) && release[k].At? :: release[k].time <= now
  {
    next, key := Never, Key(0, 0);
    for p := 0 to 3
      invariant next.At? ==> next.time > now && key in KeySet(ranks) && release[key] == next
      invariant forall k | k in KeySet(ranks) && k.phase < p :: NotBefore(release, k, now, next)
    {
      for g := 0 to ranks
        invariant next.At? ==> next.time > now && key in KeySet(ranks) && release[key] == next
        invariant forall k | k in KeySet(ranks) && (k.phase < p || (k.phase == p && k.gpu < g)) ::
                  NotBefore(release, k, now, next)
      {
        assert Key(p, g) in KeySet(ranks);
        var candidate := release[Key(p, g)];
        if candidate.At? && candidate.time > now && (next.Never? || candidate.time < next.time) {
          next, key := candidate, Key(p, g);
        }
      }
    }
  }
}
