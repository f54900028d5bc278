// Whole scheduler runs.
module SchedulerRun {
  // Termination, wave count, completeness and the audit, and what the makespan means
  // against the exact oracle.

  import opened Wrappers
  import opened Transfers
  import opened EdgeColouring
  import opened ExactOracle
  import opened OracleOptimum
  import opened Replay
  import opened ReadySetScheduler
  import opened CandidateScore
  import opened ReplayAudit
  import opened Promptness
  import opened TrafficBound

  datatype Status = Completed | MaxWaveLimitExceeded

  ghost predicate Done(run: Run, st: State)
    requires Keyed(run, st)
  {
    forall f | f in run.flows :: st.residual[f] == 0
  }

  // ---------------------------------------------------------- progress measures

  /** How many waves a residual still needs: one per started quantum, or one at all. */
  function Pieces(residual: nat, quantum: Option<nat>): nat
    requires quantum.Some? ==> quantum.value > 0
    decreases residual
  {
    if residual == 0 then 0
    else if quantum.None? || residual <= quantum.value then 1
    else 1 + Pieces(residual - quantum.value, quantum)
  }

  function PiecesLeft(flows: seq<Flow>, residual: map<Flow, nat>, quantum: Option<nat>, k: nat): nat
    requires k <= |flows| && (quantum.Some? ==> quantum.value > 0) && forall f | f in flows :: f in residual
  {
    if k == 0 then 0 else PiecesLeft(flows, residual, quantum, k - 1) + Pieces(residual[flows[k - 1]], quantum)
  }

  lemma {:induction false} PiecesDrop(before: nat, after: nat, quantum: Option<nat>)
    requires (quantum.Some? ==> quantum.value > 0) && after <= before
    ensures Pieces(after, quantum) <= Pieces(before, quantum)
    ensures before > 0 && (after == 0 || (quantum.Some? && after + quantum.value == before)) ==>
              Pieces(after, quantum) < Pieces(before, quantum)
    ensures Pieces(before, quantum) == 0 <==> before == 0
    decreases before
  {
    if quantum.Some? && before > quantum.value {
      PiecesDrop(before - quantum.value, if after <= quantum.value then 0 else after - quantum.value, quantum);
    }
  }

  /** The pieces are the volume divided by the quantum, rounded up. */
  lemma {:induction false} PiecesRoundUp(residual: nat, quantum: nat)
    requires quantum > 0
    ensures var pieces := Pieces(residual, Some(quantum));
            residual <= pieces * quantum && (residual > 0 ==> (pieces - 1) * quantum < residual)
    decreases residual
  {
    if residual > quantum {
      PiecesRoundUp(residual - quantum, quantum);
      OneMore(Pieces(residual - quantum, Some(quantum)), quantum);
    }
  }

  lemma OneMore(pieces: nat, quantum: nat)
    ensures (pieces + 1) * quantum == pieces * quantum + quantum && (pieces - 1) * quantum == pieces * quantum - quantum
  {
  }

  lemma {:induction false} PiecesLeftDrop(flows: seq<Flow>, before: map<Flow, nat>, after: map<Flow, nat>,
                                          quantum: Option<nat>, k: nat, i: nat)
    requires k <= |flows| && i < |flows| && (quantum.Some? ==> quantum.value > 0)
    requires forall f | f in flows :: f in before && f in after && after[f] <= before[f]
    ensures PiecesLeft(flows, after, quantum, k) <= PiecesLeft(flows, before, quantum, k)
    ensures i < k && Pieces(after[flows[i]], quantum) < Pieces(before[flows[i]], quantum) ==>
              PiecesLeft(flows, after, quantum, k) < PiecesLeft(flows, before, quantum, k)
  {
    if k > 0 {
      PiecesLeftDrop(flows, before, after, quantum, k - 1, i);
      PiecesDrop(before[flows[k - 1]], after[flows[k - 1]], quantum);
    }
  }

  lemma {:induction false} NothingLeftMeansDone(flows: seq<Flow>, residual: map<Flow, nat>, quantum: Option<nat>,
                                                k: nat)
    requires k <= |flows| && (quantum.Some? ==> quantum.value > 0) && forall f | f in flows :: f in residual
    ensures PiecesLeft(flows, residual, quantum, k) == 0 <==> forall i | 0 <= i < k :: residual[flows[i]] == 0
  {
    if k > 0 {
      NothingLeftMeansDone(flows, residual, quantum, k - 1);
      PiecesDrop(residual[flows[k - 1]], 0, quantum);
    }
  }

  lemma {:induction false} OnePieceEach(flows: seq<Flow>, residual: map<Flow, nat>, k: nat)
    requires k <= |flows| && forall f | f in flows :: f in residual
    ensures PiecesLeft(flows, residual, None, k) <= k
  {
    if k > 0 { OnePieceEach(flows, residual, k - 1); }
  }

  // Atomic waves empty what they serve, whatever the quantum.
  function Cap(atomic: bool, quantum: Option<nat>): Option<nat> { if atomic then None else quantum }

  /** The most waves a run can need: one per flow, or one per started quantum of a flow. */
  function WaveBound(run: Run, atomic: bool, quantum: Option<nat>): nat
    requires run.Valid() && (quantum.Some? ==> quantum.value > 0)
  {
    PiecesLeft(run.flows, run.volume, Cap(atomic, quantum), |run.flows|)
  }

  function Left(run: Run, st: State, atomic: bool, quantum: Option<nat>): nat
    requires Keyed(run, st) && (quantum.Some? ==> quantum.value > 0)
  {
    PiecesLeft(run.flows, st.residual, Cap(atomic, quantum), |run.flows|)
  }

  // Some chosen flow is emptied or loses a whole quantum.
  lemma SomeFlowDrops(st: State, after: State, chosen: seq<Flow>, atomic: bool, quantum: Option<nat>, duration: nat)
    returns (f: Flow)
    requires chosen != [] && (forall x | x in chosen :: x in st.residual) && duration > 0 &&
             (quantum.Some? ==> quantum.value > 0)
    requires IsDuration(st, chosen, quantum, duration) && WaveServed(st, after, chosen, |chosen|, atomic, duration)
    ensures f in chosen && f in after.residual &&
            Pieces(after.residual[f], Cap(atomic, quantum)) < Pieces(st.residual[f], Cap(atomic, quantum))
  {
    if !atomic && quantum != Some(duration) {
      f :| f in chosen && st.residual[f] == duration;
    } else {
      f := chosen[0];
    }
    var j :| 0 <= j < |chosen| && chosen[j] == f;
    assert after.residual[f] + ShareOf(st, f, atomic, duration) == st.residual[f] && duration <= st.residual[f];
    PiecesDrop(st.residual[f], after.residual[f], Cap(atomic, quantum));
  }

  lemma ResidualsShrink(st: State, after: State, chosen: seq<Flow>, atomic: bool, duration: nat)
    requires forall x | x in chosen :: x in st.residual
    requires WaveServed(st, after, chosen, |chosen|, atomic, duration)
    ensures forall f | f in st.residual :: f in after.residual && after.residual[f] <= st.residual[f]
  {
    forall f | f in st.residual
      ensures f in after.residual && after.residual[f] <= st.residual[f]
    {
      if f in chosen {
        var j :| 0 <= j < |chosen| && chosen[j] == f;
        assert after.residual[chosen[j]] + ShareOf(st, chosen[j], atomic, duration) == st.residual[chosen[j]];
      }
    }
  }

  /** Every wave brings the remaining pieces down. */
  lemma WaveProgress(run: Run, st: State, after: State, chosen: seq<Flow>, atomic: bool, quantum: Option<nat>,
                     duration: nat)
    requires Keyed(run, st) && Keyed(run, after) && chosen != [] && (forall f | f in chosen :: f in run.flows)
    requires duration > 0 && (quantum.Some? ==> quantum.value > 0)
    requires IsDuration(st, chosen, quantum, duration) && WaveServed(st, after, chosen, |chosen|, atomic, duration)
    ensures Left(run, after, atomic, quantum) < Left(run, st, atomic, quantum)
  {
    hide Pieces;
    var f := SomeFlowDrops(st, after, chosen, atomic, quantum, duration);
    ResidualsShrink(st, after, chosen, atomic, duration);
    var i :| 0 <= i < |run.flows| && run.flows[i] == f;
    hide IsDuration, WaveServed;
    PiecesLeftDrop(run.flows, st.residual, after.residual, Cap(atomic, quantum), |run.flows|, i);
  }

  lemma DoneIffNothingLeft(run: Run, st: State, atomic: bool, quantum: Option<nat>)
    requires Keyed(run, st) && (quantum.Some? ==> quantum.value > 0)
    ensures Left(run, st, atomic, quantum) == 0 <==> Done(run, st)
  {
    NothingLeftMeansDone(run.flows, st.residual, Cap(atomic, quantum), |run.flows|);
    if Left(run, st, atomic, quantum) == 0 {
      forall f | f in run.flows
        ensures st.residual[f] == 0
      {
        var i :| 0 <= i < |run.flows| && run.flows[i] == f;
      }
    }
  }

  ghost function Ahead(release: map<Key, Release>, ranks: nat, now: nat): set<Key> {
    set k | k in KeySet(ranks) && k in release && release[k].At? && release[k].time > now
  }

  lemma AheadShrinks(release: map<Key, Release>, ranks: nat, now: nat, next: nat, key: Key)
    requires key in Ahead(release, ranks, now) && release[key].time == next
    ensures |Ahead(release, ranks, next)| < |Ahead(release, ranks, now)|
  {
    SubsetSize(Ahead(release, ranks, next) + {key}, Ahead(release, ranks, now));
  }

  // ------------------------------------------------------------------- the loop

  predicate Reorders(order: seq<Flow>, flows: seq<Flow>) {
    multiset(order) == multiset(flows)
  }

  lemma SameMembers(order: seq<Flow>, flows: seq<Flow>)
    requires Reorders(order, flows)
    ensures forall f :: f in order <==> f in flows
  {
    forall f: Flow
      ensures f in order <==> f in flows
    {
      assert f in order <==> multiset(order)[f] > 0;
      assert f in flows <==> multiset(flows)[f] > 0;
    }
  }

  /** Any selection that cannot be extended: greedy matching over some order of the eligible flows.
      The exact backend only considers candidates with a positive score. */
  method ChooseMatching(ready: seq<Flow>, exact: bool, scores: map<Flow, real>) returns (chosen: seq<Flow>)
    requires forall f | f in ready :: f in scores
    ensures IsMatching(chosen) && forall f | f in chosen :: f in ready && (exact ==> scores[f] > 0.0)
    ensures chosen == [] ==> forall f | f in ready :: exact && scores[f] <= 0.0
    ensures forall f | f in ready && (!exact || scores[f] > 0.0) :: exists c ::
            c in chosen && (c.src == f.src || c.dst == f.dst)
  {
    var eligible := [];
    for i := 0 to |ready|
      invariant forall f | f in eligible :: f in ready && (exact ==> scores[f] > 0.0)
      invariant forall j | 0 <= j < i :: ready[j] in eligible || (exact && scores[ready[j]] <= 0.0)
    {
      if !exact || scores[ready[i]] > 0.0 {
        eligible := eligible + [ready[i]];
      }
    }
    assert Reorders(eligible, eligible);
    var order :| Reorders(order, eligible);
    SameMembers(order, eligible);
    chosen := GreedyMaximalMatching(order);
  }

  lemma ReleaseAhead(run: Run, st: State, tables: Tables, f: Flow)
    requires run.Valid() && TablesMatch(run, st, tables) && f in run.flows && st.residual[f] > 0
    requires forall g | g in run.flows :: !Ready(run, st, g)
    ensures exists k ::
              k in KeySet(run.ranks) && k in tables.release && tables.release[k].At? && tables.release[k].time > st.now
  {
    var g := NeverDeadlocks(run, st, f);
    var k := Key(g.phase, g.src);
    assert run.HasFlow(g) && k in KeySet(run.ranks);
    assert CellMatches(run, st, tables, k);
  }

  lemma Idle(run: Run, st: State, tables: Tables, now: nat)
    requires Inv(run, st) && Quiet(st) && TablesMatch(run, st, tables) && st.now <= now
    ensures Inv(run, st.(now := now)) && Quiet(st.(now := now)) && TablesMatch(run, st.(now := now), tables)
  {
    AdvanceKeepsInv(run, st, now, st.waves);
    AdvanceKeepsTables(run, st, tables, now, st.waves);
  }

  method HasDemand(run: Run, st: State) returns (some: bool, ghost f: Flow)
    requires run.Valid() && Keyed(run, st)
    ensures some ==> f in run.flows && f in st.residual && st.residual[f] > 0
    ensures !some ==> Done(run, st)
  {
    some, f := false, Flow(0, 0, 0);
    for i := 0 to |run.flows|
      invariant some ==> f in run.flows && st.residual[f] > 0
      invariant !some ==> forall j | 0 <= j < i :: st.residual[run.flows[j]] == 0
    {
      if st.residual[run.flows[i]] > 0 { some, f := true, run.flows[i]; }
    }
  }

  // Flows outside the favoured set have not been touched.
  ghost predicate Untouched(run: Run, st: State, favoured: set<Flow>)
    requires run.Valid() && Keyed(run, st)
  {
    forall f | f in run.flows && f !in favoured :: st.residual[f] == run.volume[f]
  }

  ghost predicate DemandFavoured(run: Run, favoured: set<Flow>)
    requires run.Valid()
  {
    forall f | f in run.flows && run.volume[f] > 0 :: f in favoured
  }

  // The scores of one round decide about the favoured.
  ghost predicate ScoresFollow(scores: map<Flow, real>, ready: seq<Flow>, favoured: set<Flow>) {
    forall f | f in ready :: f in scores && (scores[f] > 0.0 <==> f in favoured)
  }

  // A wave of favoured flows leaves the others alone.
  lemma WaveLeavesUntouched(run: Run, st: State, after: State, chosen: seq<Flow>, atomic: bool, duration: nat,
                            favoured: set<Flow>)
    requires run.Valid() && Keyed(run, st) && Keyed(run, after) && forall f | f in chosen ::
             f in st.residual && f in favoured
    requires WaveServed(st, after, chosen, |chosen|, atomic, duration) && Untouched(run, st, favoured)
    ensures Untouched(run, after, favoured)
  {
  }

  // A favoured flow with demand is not turned down.
  lemma StallExcluded(run: Run, st: State, ready: seq<Flow>, scores: map<Flow, real>, favoured: set<Flow>)
    requires Inv(run, st) && ready != [] && ScoresFollow(scores, ready, favoured)
    requires forall f | f in ready ::
             f in run.flows && f in st.residual && st.residual[f] > 0 && f in scores && scores[f] <= 0.0
    ensures !DemandFavoured(run, favoured)
  {
    var f := ready[0];
    assert f in ready && f !in favoured;
    assert Served(st.schedule, f) + st.residual[f] == run.volume[f];
  }

  lemma ReadyFacts(run: Run, st: State, ready: seq<Flow>)
    requires run.Valid() && Keyed(run, st) && forall f :: f in ready <==> Ready(run, st, f)
    ensures forall f | f in ready :: f in run.flows && f in st.residual && st.residual[f] > 0 && Ready(run, st, f)
  {
  }

  lemma StillOpen(run: Run, st: State, f: Flow)
    requires Keyed(run, st) && f in run.flows && f in st.residual && st.residual[f] > 0
    ensures !Done(run, st)
  {
  }

  lemma FixedScoresFollow(run: Run, st: State, sc: Scoring, scores: map<Flow, real>, ready: seq<Flow>,
                          favoured: set<Flow>)
    requires Fixes(sc, run.phases == 2, run.flows, favoured)
    requires forall f | f in ready :: f in run.flows
    requires forall f | f in ready :: f in scores && Scored(sc, run.phases == 2, f, scores[f])
    ensures ScoresFollow(scores, ready, favoured)
  {
    hide Score, GlanceOk;
  }

  lemma StartsUntouched(run: Run, favoured: set<Flow>, atomic: bool, quantum: Option<nat>)
    requires run.Valid() && (quantum.Some? ==> quantum.value > 0)
    ensures Keyed(run, Initial(run)) && Untouched(run, Initial(run), favoured)
    ensures Left(run, Initial(run), atomic, quantum) == WaveBound(run, atomic, quantum)
  {
    SamePieces(run.flows, Initial(run).residual, run.volume, Cap(atomic, quantum), |run.flows|);
  }

  lemma {:induction false} SamePieces(flows: seq<Flow>, a: map<Flow, nat>, b: map<Flow, nat>, quantum: Option<nat>,
                                      k: nat)
    requires k <= |flows| && (quantum.Some? ==> quantum.value > 0)
    requires forall f | f in flows :: f in a && f in b && a[f] == b[f]
    ensures PiecesLeft(flows, a, quantum, k) == PiecesLeft(flows, b, quantum, k)
  {
    if k > 0 { SamePieces(flows, a, b, quantum, k - 1); }
  }

  /** With nothing ready, the clock moves to the next release. */
  method WaitForRelease(run: Run, st: State, sc: Scoring, tables: Tables, memory: Memory, ghost f: Flow,
                        ghost atomic: bool, ghost quantum: Option<nat>, ghost favoured: set<Flow>, ghost load: nat)
    returns (later: State)
    requires run.Valid() && Sound(run, sc, st, tables, memory) && (quantum.Some? ==> quantum.value > 0)
    requires f in run.flows && f in st.residual && st.residual[f] > 0
    requires forall g | g in run.flows :: !(Keyed(run, st) && Ready(run, st, g))
    ensures Sound(run, sc, later, tables, memory) && Keyed(run, later) && Keyed(run, st)
    ensures later.waves == st.waves && later.residual == st.residual
    ensures |Ahead(tables.release, run.ranks, later.now)| < |Ahead(tables.release, run.ranks, st.now)|
    ensures Left(run, later, atomic, quantum) == Left(run, st, atomic, quantum)
    ensures Untouched(run, st, favoured) ==> Untouched(run, later, favoured)
    ensures Prompt(run, load, st) ==> Prompt(run, load, later)
  {
    ReleaseAhead(run, st, tables, f);
    forall k | k in KeySet(run.ranks)
      ensures k in tables.release
    {
      assert CellMatches(run, st, tables, k);
    }
    var next; ghost var key;
    next, key := NextRelease(tables.release, run.ranks, st.now);
    AheadShrinks(tables.release, run.ranks, st.now, next.time, key);
    Idle(run, st, tables, next.time);
    LaterMemory(run, sc, st.now, next.time, memory);
    later := st.(now := next.time);
    SameResidualSameLeft(run, st, later, atomic, quantum, favoured);
    if Prompt(run, load, st) { WaitKeepsPrompt(run, load, st, tables, next.time); }
  }

  lemma WaitKeepsPrompt(run: Run, load: nat, st: State, tables: Tables, next: nat)
    requires Inv(run, st) && Quiet(st) && TablesMatch(run, st, tables) && Prompt(run, load, st) && st.now <= next
    requires forall g | g in run.flows :: !Ready(run, st, g)
    requires forall k | k in KeySet(run.ranks) && k in tables.release && tables.release[k].At? &&
             tables.release[k].time > st.now ::
               next <= tables.release[k].time
    ensures Prompt(run, load, st.(now := next))
  {
    hide Quiet, Prompt, Ready;
    forall f | f in run.flows && ReleaseOf(run, st, f.phase, f.src).At? &&
        ReleaseOf(run, st, f.phase, f.src).time > st.now
      ensures next <= ReleaseOf(run, st, f.phase, f.src).time
    {
      assert run.HasFlow(f) && Key(f.phase, f.src) in KeySet(run.ranks);
      assert CellMatches(run, st, tables, Key(f.phase, f.src));
    }
    IdleKeepsPrompt(run, load, st, next);
  }

  lemma SameResidualSameLeft(run: Run, st: State, later: State, atomic: bool, quantum: Option<nat>, favoured: set<Flow>)
    requires run.Valid() && Keyed(run, st) && Keyed(run, later) && later.residual == st.residual &&
             (quantum.Some? ==> quantum.value > 0)
    ensures Left(run, later, atomic, quantum) == Left(run, st, atomic, quantum)
    ensures Untouched(run, st, favoured) ==> Untouched(run, later, favoured)
  {
  }

  // No ready flow is turned down.
  ghost predicate Unrefused(run: Run, exact: bool, sc: Scoring, favoured: set<Flow>)
    requires run.Valid()
  {
    exact ==> Fixes(sc, run.phases == 2, run.flows, favoured) && DemandFavoured(run, favoured)
  }

  lemma ChoiceSaturates(run: Run, st: State, ready: seq<Flow>, scores: map<Flow, real>, chosen: seq<Flow>,
                        exact: bool, favoured: set<Flow>)
    requires Inv(run, st) && (forall f :: f in ready <==> f in run.flows && Keyed(run, st) && Ready(run, st, f))
    requires forall f | f in ready :: f in scores
    requires exact ==> ScoresFollow(scores, ready, favoured) && DemandFavoured(run, favoured)
    requires forall f | f in ready && (!exact || scores[f] > 0.0) :: exists c ::
             c in chosen && (c.src == f.src || c.dst == f.dst)
    ensures Keyed(run, st) && Saturates(run, st, chosen)
  {
    forall f | Ready(run, st, f)
      ensures exists j :: 0 <= j < |chosen| && (chosen[j].src == f.src || chosen[j].dst == f.dst)
    {
      assert f in ready && Served(st.schedule, f) + st.residual[f] == run.volume[f];
      var c :| c in chosen && (c.src == f.src || c.dst == f.dst);
      var j :| 0 <= j < |chosen| && chosen[j] == c;
    }
  }

  lemma RoundKeepsPrompt(run: Run, load: nat, st: State, next: State, chosen: seq<Flow>, duration: nat)
    requires Inv(run, st) && Inv(run, next) && Quiet(st) && 0 < duration && chosen != []
    requires forall f | f in chosen :: f in st.residual && Ready(run, st, f)
    requires WaveServed(st, next, chosen, |chosen|, false, duration) && next.now == st.now + duration
    requires next.schedule == st.schedule + Sent(st, chosen, |chosen|, false, duration)
    requires Saturates(run, st, chosen) && LoadBounds(run, load) && Prompt(run, load, st)
    ensures Prompt(run, load, next)
  {
    hide Inv, Quiet, WaveServed, Sent, Saturates, LoadBounds, Prompt, Ready;
    WaveKeepsPrompt(run, load, st, next, chosen, duration);
  }

  // What every round keeps.
  ghost predicate Sound(run: Run, sc: Scoring, st: State, tables: Tables, memory: Memory) {
    Inv(run, st) && Keyed(run, st) && Quiet(st) && TablesMatch(run, st, tables) && MemoryOk(run, sc, st.now, memory)
  }

  lemma SoundAfterWave(run: Run, sc: Scoring, before: State, st: State, tables: Tables, memory: Memory)
    requires Inv(run, st) && Quiet(st) && TablesMatch(run, st, tables)
    requires MemoryOk(run, sc, before.now, memory) && before.now <= st.now
    ensures Sound(run, sc, st, tables, memory)
  {
    LaterMemory(run, sc, before.now, st.now, memory);
  }

  /** Scores the ready flows and selects a matching; an empty selection means the exact backend found
      no positive score. */
  method ScoreAndChoose(run: Run, exact: bool, sc: Scoring, st: State, tables: Tables, memory: Memory, ready: seq<Flow>,
                        ghost favoured: set<Flow>)
    returns (chosen: seq<Flow>, remembered: Memory)
    requires run.Valid() && Sound(run, sc, st, tables, memory) && ready != []
    requires forall f :: f in ready <==> f in run.flows && Keyed(run, st) && Ready(run, st, f)
    ensures MemoryOk(run, sc, st.now, remembered) && Keyed(run, st)
    ensures IsMatching(chosen) && forall f | f in chosen :: f in run.flows && f in st.residual && Ready(run, st, f)
    ensures chosen == [] ==>
              exact && !(Fixes(sc, run.phases == 2, run.flows, favoured) && DemandFavoured(run, favoured))
    ensures exact && Fixes(sc, run.phases == 2, run.flows, favoured) ==> forall f | f in chosen :: f in favoured
    ensures Unrefused(run, exact, sc, favoured) ==> Saturates(run, st, chosen)
  {
    ghost var fixed := Fixes(sc, run.phases == 2, run.flows, favoured);
    UnrefusedMeans(run, exact, sc, favoured);
    ReadyFacts(run, st, ready);
    var scores;
    scores, remembered := ScoreCandidates(run, st, sc, tables, memory, ready);
    if fixed { FixedScoresFollow(run, st, sc, scores, ready, favoured); }
    chosen := ChooseMatching(ready, exact, scores);
    if fixed && exact { ChoiceFavoured(ready, scores, chosen, favoured); }
    hide *;
    assert ready[0] in ready;
    if chosen == [] && fixed { StallExcluded(run, st, ready, scores, favoured); }
    if Unrefused(run, exact, sc, favoured) { ChoiceSaturates(run, st, ready, scores, chosen, exact, favoured); }
  }

  lemma ChoiceFavoured(ready: seq<Flow>, scores: map<Flow, real>, chosen: seq<Flow>, favoured: set<Flow>)
    requires ScoresFollow(scores, ready, favoured)
    requires forall f | f in chosen :: f in ready && f in scores && scores[f] > 0.0
    ensures forall f | f in chosen :: f in favoured
  {
  }

  /** One round with something ready: score, choose, and serve a wave unless nothing was chosen. */
  method Round(run: Run, exact: bool, atomic: bool, quantum: Option<nat>, sc: Scoring, st: State, tables: Tables,
               memory: Memory,
               ready: seq<Flow>, ghost favoured: set<Flow>, ghost load: nat)
    returns (next: State, updated: Tables, remembered: Memory, stalled: bool)
    requires run.Valid() && Sound(run, sc, st, tables, memory) && (quantum.Some? ==> quantum.value > 0)
    requires ready != [] && forall f :: f in ready <==> f in run.flows && Keyed(run, st) && Ready(run, st, f)
    ensures Sound(run, sc, next, updated, remembered) && Keyed(run, next) && Keyed(run, st)
    ensures stalled ==> exact && next == st
    ensures !stalled ==> next.waves == st.waves + 1 && Left(run, next, atomic, quantum) < Left(run, st, atomic, quantum)
    ensures exact && Fixes(sc, run.phases == 2, run.flows, favoured) && Untouched(run, st, favoured) ==>
              Untouched(run, next, favoured)
    ensures Fixes(sc, run.phases == 2, run.flows, favoured) && DemandFavoured(run, favoured) ==> !stalled
    ensures !atomic && Unrefused(run, exact, sc, favoured) && LoadBounds(run, load) && Prompt(run, load, st) ==>
              Prompt(run, load, next)
  {
    hide *;
    SoundIsKeyed(run, sc, st, tables, memory);
    var chosen;
    chosen, remembered := ScoreAndChoose(run, exact, sc, st, tables, memory, ready, favoured);
    if chosen == [] {
      next, updated, stalled := st, tables, true;
      SoundAfterWave(run, sc, st, st, tables, remembered);
    } else {
      ghost var duration;
      next, updated, duration := ServeWave(run, st, tables, chosen, atomic, quantum);
      SoundAfterWave(run, sc, st, next, updated, remembered);
      SoundIsKeyed(run, sc, next, updated, remembered);
      WaveProgress(run, st, next, chosen, atomic, quantum, duration);
      if exact && Fixes(sc, run.phases == 2, run.flows, favoured) && Untouched(run, st, favoured) {
        WaveLeavesUntouched(run, st, next, chosen, atomic, duration, favoured);
      }
      if !atomic && Unrefused(run, exact, sc, favoured) && LoadBounds(run, load) && Prompt(run, load, st) {
        RoundKeepsPrompt(run, load, st, next, chosen, duration);
      }
      if sc.adaptive {
        remembered := UpdatePrices(run, next, sc, updated, remembered, next.now);
        SoundAfterWave(run, sc, next, next, updated, remembered);
      }
      stalled := false;
    }
  }

  lemma UnrefusedMeans(run: Run, exact: bool, sc: Scoring, favoured: set<Flow>)
    requires run.Valid()
    ensures Unrefused(run, exact, sc, favoured) <==>
            (exact ==> Fixes(sc, run.phases == 2, run.flows, favoured) && DemandFavoured(run, favoured))
  {
  }

  lemma SoundIsKeyed(run: Run, sc: Scoring, st: State, tables: Tables, memory: Memory)
    requires Sound(run, sc, st, tables, memory)
    ensures Keyed(run, st) && Inv(run, st) && Quiet(st) && TablesMatch(run, st, tables) &&
            MemoryOk(run, sc, st.now, memory)
  {
  }

  method CollectReady(run: Run, sc: Scoring, st: State, tables: Tables, memory: Memory) returns (ready: seq<Flow>)
    requires run.Valid() && Sound(run, sc, st, tables, memory)
    ensures forall f :: f in ready <==> f in run.flows && Keyed(run, st) && Ready(run, st, f)
  {
    ready := ReadyFlowCandidates(run, st, tables);
  }

  lemma StartsSound(run: Run, sc: Scoring, tables: Tables, memory: Memory)
    requires run.Valid() && TablesMatch(run, Initial(run), tables) && MemoryOk(run, sc, 0, memory)
    ensures Sound(run, sc, Initial(run), tables, memory)
  {
    InitialInv(run);
  }

  /** The scheduling loop. It ends for every scoring, matching backend and service model, and needs no
      more waves than its bound. When the scores fix a set of favoured flows, the exact backend serves
      all demand exactly if every flow with demand is favoured. */
  method RunGlobalMatchingScheduler(run: Run, exact: bool, atomic: bool, quantum: Option<nat>, maxWaves: nat,
                                    sc: Scoring, ghost favoured: set<Flow>, ghost load: nat)
    returns (st: State, status: Status, stalled: bool)
    requires run.Valid() && (quantum.Some? ==> quantum.value > 0)
    ensures Inv(run, st) && Keyed(run, st) && st.waves <= Max(1, maxWaves)
    ensures st.waves + Left(run, st, atomic, quantum) <= WaveBound(run, atomic, quantum)
    ensures stalled ==> exact && status == Completed && !Done(run, st)
    ensures Done(run, st) || stalled || st.waves == Max(1, maxWaves)
    ensures status == MaxWaveLimitExceeded <==> !Done(run, st) && st.waves == Max(1, maxWaves)
    ensures WaveBound(run, atomic, quantum) <= Max(1, maxWaves) ==> (Done(run, st) <==> !stalled)
    ensures exact && Fixes(sc, run.phases == 2, run.flows, favoured) ==> Untouched(run, st, favoured)
    ensures Fixes(sc, run.phases == 2, run.flows, favoured) && DemandFavoured(run, favoured) ==> !stalled
    ensures !atomic && Unrefused(run, exact, sc, favoured) && LoadBounds(run, load) ==> Prompt(run, load, st)
  {
    st, stalled := Initial(run), false;
    ghost var fixed := Fixes(sc, run.phases == 2, run.flows, favoured);
    StartsUntouched(run, favoured, atomic, quantum);
    StartsPrompt(run, load);
    var tables := InitialTables(run, st);
    var memory := InitialMemory(run, sc);
    StartsSound(run, sc, tables, memory);
    var maxRounds := Max(1, maxWaves);
    var pending; ghost var f: Flow;
    pending, f := HasDemand(run, st);
    hide *;
    while pending && st.waves < maxRounds && !stalled
      invariant Sound(run, sc, st, tables, memory) && Keyed(run, st)
      invariant st.waves <= maxRounds && st.waves + Left(run, st, atomic, quantum) <= WaveBound(run, atomic, quantum)
      invariant pending ==> f in run.flows && f in st.residual && st.residual[f] > 0
      invariant !pending ==> Done(run, st)
      invariant stalled ==> exact && pending && st.waves < maxRounds
      invariant exact && fixed ==> Untouched(run, st, favoured)
      invariant fixed && DemandFavoured(run, favoured) ==> !stalled
      invariant !atomic && Unrefused(run, exact, sc, favoured) && LoadBounds(run, load) ==> Prompt(run, load, st)
      decreases !stalled, maxRounds - st.waves, |Ahead(tables.release, run.ranks, st.now)|
    {
      var ready := CollectReady(run, sc, st, tables, memory);
      if ready == [] {
        st := WaitForRelease(run, st, sc, tables, memory, f, atomic, quantum, favoured, load);
      } else {
        st, tables, memory,
            stalled := Round(run, exact, atomic, quantum, sc, st, tables, memory, ready, favoured, load);
        pending, f := HasDemand(run, st);
      }
    }
    SoundIsKeyed(run, sc, st, tables, memory);
    DoneIffNothingLeft(run, st, atomic, quantum);
    if pending { StillOpen(run, st, f); }
    status := if pending && st.waves >= maxRounds then MaxWaveLimitExceeded else Completed;
  }

  ghost predicate Matches(run: Run, inst: Instance) {
    && inst.Valid() && run.Valid() && run.ranks == inst.rankCount
    && (forall f :: f in run.flows <==> IsTarget(inst, run.phases, f))
    && (forall f | f in run.flows :: run.volume[f] == Volume(inst, f))
  }

  lemma EntryPassesAudit(run: Run, st: State, e: Entry)
    requires run.Valid() && Keyed(run, st) && EntryOk(run, st, e)
    ensures e.flow in run.flows && e.served > 0 && e.end == e.start + e.served
    ensures e.flow.phase == 1 ==> Completion(st.schedule, Inbound(0, e.flow.src)) + run.delay <= e.start
    ensures e.flow.phase == 2 ==> Completion(st.schedule, Inbound(1, e.flow.src)) <= e.start
  {
  }

  lemma VolumesMetWhenDone(run: Run, inst: Instance, st: State)
    requires run.Valid() && Keyed(run, st) && Conserves(run, st) && Matches(run, inst)
    ensures Done(run, st) <==> VolumesMet(inst, run.phases, st.schedule)
  {
    forall f | f in run.flows
      ensures st.residual[f] == 0 <==> Served(st.schedule, f) == Volume(inst, f)
    {
      assert IsTarget(inst, run.phases, f);
    }
  }

  lemma RulesFromEntries(run: Run, inst: Instance, st: State)
    requires run.Valid() && Keyed(run, st) && PortsExclusive(st.schedule)
    requires forall i | 0 <= i < |st.schedule| :: EntryOk(run, st, st.schedule[i])
    requires inst.Valid() && forall f | f in run.flows :: IsTarget(inst, run.phases, f)
    ensures RulesHold(inst, run.phases, Joint, run.delay, st.schedule) && RateBounded(st.schedule)
  {
    forall i | 0 <= i < |st.schedule|
      ensures st.schedule[i].end == st.schedule[i].start + st.schedule[i].served && st.schedule[i].served > 0
      ensures IsTarget(inst, run.phases, st.schedule[i].flow)
      ensures st.schedule[i].flow.phase == 1 ==>
                Completion(st.schedule, Inbound(0, st.schedule[i].flow.src)) + run.delay <= st.schedule[i].start
      ensures st.schedule[i].flow.phase == 2 ==>
                Completion(st.schedule, Inbound(1, st.schedule[i].flow.src)) <= st.schedule[i].start
    {
      assert EntryOk(run, st, st.schedule[i]);
      EntryPassesAudit(run, st, st.schedule[i]);
    }
  }

  /** Every reachable state's schedule obeys the audit's rules at unit rate; a finished one passes the whole audit. */
  lemma ReachablePassesAudit(run: Run, inst: Instance, st: State)
    requires Inv(run, st) && Matches(run, inst)
    ensures RulesHold(inst, run.phases, Joint, run.delay, st.schedule) && RateBounded(st.schedule)
    ensures Done(run, st) <==> AuditValid(inst, run.phases, Joint, run.delay, st.schedule)
  {
    RulesFromEntries(run, inst, st);
    VolumesMetWhenDone(run, inst, st);
  }

  /** The scheduler on an instance, audited: every rule of the audit, the full audit exactly when the
      run was neither cut short nor stalled, and never a better makespan than the joint oracle. */
  method ScheduleInstance(inst: Instance, phases: nat, delay: nat, exact: bool, atomic: bool, quantum: Option<nat>,
                          maxWaves: nat, sc: Scoring, ghost favoured: set<Flow>)
    returns (schedule: seq<Entry>, makespan: nat, waves: nat, status: Status, stalled: bool, valid: bool,
        ghost run: Run)
    requires inst.Valid() && 2 <= phases <= 3 && (quantum.Some? ==> quantum.value > 0)
    ensures Matches(run, inst) && run.phases == phases && run.delay == delay
    ensures RulesHold(inst, phases, Joint, delay, schedule) && RateBounded(schedule)
    ensures makespan == Completion(schedule, Everything)
    ensures waves <= WaveBound(run, atomic, quantum) && (atomic || quantum.None? ==> waves <= |run.flows|)
    ensures valid <==> AuditValid(inst, phases, Joint, delay, schedule)
    ensures valid <==> status == Completed && !stalled
    ensures WaveBound(run, atomic, quantum) <= Max(1, maxWaves) && !exact ==> valid
    ensures exact && Fixes(sc, phases == 2, run.flows, favoured) &&
            WaveBound(run, atomic, quantum) <= Max(1, maxWaves) ==>
              (valid <==> forall f | IsTarget(inst, phases, f) :: f in favoured)
    ensures phases == 3 && valid ==> Optimum(inst, Joint, delay) <= makespan
    ensures !atomic && Unrefused(run, exact, sc, favoured) ==>
              makespan <= DueBy(delay, PortLoad(AllTraffic(inst, phases)), phases - 1)
    ensures !atomic && Unrefused(run, exact, sc, favoured) && phases == 3 ==>
              makespan <= MakespanCap(Optimum(inst, Joint, delay), delay)
  {
    hide Inv, RulesHold, RateBounded, Done, AuditValid, Fixes, Left, WaveBound, DemandFavoured, Untouched, Keyed;
    var flows := CollectRealFlows(inst, phases);
    var volume := map f | f in flows :: Volume(inst, f);
    run := Run(inst.rankCount, phases, delay, flows, volume);
    var st;
    st, status, stalled := RunGlobalMatchingScheduler(Run(inst.rankCount, phases, delay, flows, volume), exact,
        atomic, quantum, maxWaves, sc, favoured,
      PortLoad(AllTraffic(inst, phases)));
    RunMatches(run, inst, flows);
    ReachablePassesAudit(run, inst, st);
    ServedIffFavoured(run, inst, st, favoured);
    FewWaves(run, atomic, quantum);
    schedule, waves := st.schedule, st.waves;
    makespan := ReplayMakespan(schedule);
    valid := AuditSchedule(inst, phases, delay, schedule, Some(makespan));
    LoadBoundsRun(run, inst);
    if !atomic && Unrefused(run, exact, sc,
      favoured) { MakespanOnTime(run, inst, st, PortLoad(AllTraffic(inst, phases))); }
    if phases == 3 && valid {
      AuditedNeverBeatsOracle(inst, Joint, delay, schedule);
    }
  }

  /** The traffic per port bounds what any run on the instance moves. */
  lemma LoadBoundsRun(run: Run, inst: Instance)
    requires Matches(run, inst)
    ensures LoadBounds(run, PortLoad(AllTraffic(inst, run.phases)))
  {
    hide PortLoad, LoadAt;
    forall st, port | Inv(run, st)
      ensures Moved(st.schedule, port) <= PortLoad(AllTraffic(inst, run.phases))
    {
      RunWithinDemand(run, inst, st);
      MovedWithinLoad(inst, run.phases, st.schedule, port);
      PortLoadIsMax(AllTraffic(inst, run.phases));
    }
  }

  lemma RunWithinDemand(run: Run, inst: Instance, st: State)
    requires Inv(run, st) && Matches(run, inst)
    ensures WithinDemand(inst, run.phases, st.schedule)
  {
    forall f | IsTarget(inst, run.phases, f)
      ensures Served(st.schedule, f) <= Volume(inst, f)
    {
      assert Served(st.schedule, f) + st.residual[f] == run.volume[f];
    }
    forall i | 0 <= i < |st.schedule|
      ensures IsTarget(inst, run.phases, st.schedule[i].flow)
    {
      assert EntryOk(run, st, st.schedule[i]);
    }
  }

  // Six times the oracle, one more with a compute delay that can cut into a wave.
  function MakespanCap(oracle: nat, delay: nat): nat { if delay == 0 then 6 * oracle else 7 * oracle + delay }

  lemma DueRises(delay: nat, load: nat, p: nat, q: nat)
    requires p <= q < 3
    ensures DueBy(delay, load, p) <= DueBy(delay, load, q)
  {
  }

  lemma EntryOnTime(run: Run, st: State, load: nat, i: nat)
    requires Inv(run, st) && Prompt(run, load, st) && i < |st.schedule|
    ensures st.schedule[i].end <= DueBy(run.delay, load, run.phases - 1)
  {
    hide Ready, Quiet, Conserves, PortsExclusive, DueBy, WaitedFairly;
    assert EntryOk(run, st, st.schedule[i]) && run.HasFlow(st.schedule[i].flow);
    DueRises(run.delay, load, st.schedule[i].flow.phase, run.phases - 1);
  }

  lemma DueWithinCap(delay: nat, load: nat, oracle: nat)
    requires load <= oracle
    ensures DueBy(delay, load, 2) <= MakespanCap(oracle, delay)
  {
  }

  lemma LatestWithin(schedule: seq<Entry>, due: nat)
    requires forall i | 0 <= i < |schedule| :: schedule[i].end <= due
    ensures Completion(schedule, Everything) <= due
  {
  }

  lemma MatchesFacts(run: Run, inst: Instance)
    requires Matches(run, inst)
    ensures inst.Valid() && run.Valid() && 2 <= run.phases <= 3
  {
  }

  lemma MakespanOnTime(run: Run, inst: Instance, st: State, load: nat)
    requires Inv(run, st) && Matches(run, inst) && Prompt(run, load, st) &&
             load == PortLoad(AllTraffic(inst, run.phases))
    ensures Completion(st.schedule, Everything) <= DueBy(run.delay, load, run.phases - 1)
    ensures run.phases == 3 ==>
              Completion(st.schedule, Everything) <= MakespanCap(Optimum(inst, Joint, run.delay), run.delay)
  {
    MatchesFacts(run, inst);
    hide *;
    forall i: nat | i < |st.schedule|
      ensures st.schedule[i].end <= DueBy(run.delay, load, run.phases - 1)
    {
      EntryOnTime(run, st, load, i);
    }
    LatestWithin(st.schedule, DueBy(run.delay, load, run.phases - 1));
    OracleAtLeastTraffic(inst, run.delay);
    if run.phases == 3 { DueWithinCap(run.delay, load, Optimum(inst, Joint, run.delay)); }
  }

  lemma RunMatches(run: Run, inst: Instance, flows: seq<Flow>)
    requires inst.Valid() && 2 <= run.phases <= 3 && run.ranks == inst.rankCount && run.flows == flows
    requires forall f :: f in flows <==> IsTarget(inst, run.phases, f)
    requires forall i, j | 0 <= i < j < |flows| :: flows[i] != flows[j]
    requires forall f | f in flows ::
             IsTarget(inst, run.phases, f) && f in run.volume && run.volume[f] == Volume(inst, f)
    ensures Matches(run, inst)
  {
  }

  lemma FewWaves(run: Run, atomic: bool, quantum: Option<nat>)
    requires run.Valid() && (quantum.Some? ==> quantum.value > 0)
    ensures atomic || quantum.None? ==> WaveBound(run, atomic, quantum) <= |run.flows|
  {
    OnePieceEach(run.flows, run.volume, |run.flows|);
  }

  /** Untouched flows have demand, so a finished run has favoured all. */
  lemma ServedIffFavoured(run: Run, inst: Instance, st: State, favoured: set<Flow>)
    requires Inv(run, st) && Matches(run, inst)
    ensures Untouched(run, st, favoured) && Done(run, st) ==> DemandFavoured(run, favoured)
    ensures DemandFavoured(run, favoured) <==> forall f | IsTarget(inst, run.phases, f) :: f in favoured
  {
    forall f | f in run.flows
      ensures run.volume[f] > 0
    {
      assert IsTarget(inst, run.phases, f);
    }
  }

  // ------------------------------------------------------------------- the code's own scores

  /** Under the code's own scores, without penalties and with neither age nor prices in play, the exact
      backend delivers an audited schedule exactly when something speaks for every flow. */
  method ScheduleWithoutPenalties(inst: Instance, phases: nat, delay: nat, atomic: bool, quantum: Option<nat>,
                                  maxWaves: nat, sc: Scoring)
    returns (schedule: seq<Entry>, valid: bool, ghost run: Run)
    requires inst.Valid() && 2 <= phases <= 3 && (quantum.Some? ==> quantum.value > 0)
    requires NoPenalty(sc) && forall f | IsTarget(inst, phases, f) :: sc.baseWeight * sc.base(f) >= 0.0
    ensures Matches(run, inst) && (valid <==> AuditValid(inst, phases, Joint, delay, schedule))
    ensures WaveBound(run, atomic, quantum) <= Max(1, maxWaves) ==>
              (forall f | IsTarget(inst, phases, f) :: Favoured(sc, phases == 2, f)) ==> valid
    ensures WaveBound(run, atomic, quantum) <= Max(1, maxWaves) && sc.ageWeight == 0.0 && !sc.adaptive ==>
              (valid <==> forall f | IsTarget(inst, phases, f) :: Favoured(sc, phases == 2, f))
  {
    hide NoPenalty, WaveBound, Fixes, AuditValid;
    var flows := CollectRealFlows(inst, phases);
    ghost var favoured := FavouredOf(sc, phases == 2, flows);
    var makespan, waves, status, stalled;
    schedule, makespan, waves, status, stalled, valid,
        run := ScheduleInstance(inst, phases, delay, true, atomic, quantum, maxWaves, sc, favoured);
    if (sc.ageWeight == 0.0 && !sc.adaptive) || forall f | f in run.flows :: Favoured(sc, phases == 2, f) {
      SignsKnown(sc, phases == 2, run.flows);
      assert FavouredOf(sc, phases == 2, run.flows) == favoured;
    }
  }

  /** When nothing is favoured, an exact run with demand stops before its first wave, serves nothing and
      still reports completion. */
  method NothingFavouredStalls(run: Run, atomic: bool, quantum: Option<nat>, maxWaves: nat, sc: Scoring,
                               ghost f: Flow) returns (st: State, status: Status, stalled: bool)
    requires run.Valid() && (quantum.Some? ==> quantum.value > 0) && f in run.flows && run.volume[f] > 0
    requires Fixes(sc, run.phases == 2, run.flows, {})
    ensures stalled && status == Completed && st.waves == 0 && Keyed(run, st) && forall x | x in run.flows ::
            st.residual[x] == run.volume[x]
  {
    hide Fixes, Inv;
    st, status, stalled := RunGlobalMatchingScheduler(run, true, atomic, quantum, maxWaves, sc, {}, 0);
    SamePieces(run.flows, st.residual, run.volume, Cap(atomic, quantum), |run.flows|);
  }

  /** With all weights zero, a single row from rank 0 to rank 1 is refused. */
  method ZeroWeightsStall(base: Flow -> real, downstream: Key -> nat, maxWaves: nat)
    returns (st: State, status: Status, stalled: bool)
    ensures stalled && status == Completed && st.waves == 0 && Flow(0, 0, 1) in st.residual &&
            st.residual[Flow(0, 0, 1)] == 1
  {
    var sc := Scoring(0.0, 0.0, 0.0, 0.0, 0.0, base, downstream, 0.0, false, 0.0, 0.0, 0.0, 1);
    var f := Flow(0, 0, 1);
    var run := Run(2, 3, 0, [f], map[f := 1]);
    assert f in run.flows;
    SignsKnown(sc, false, run.flows);
    assert FavouredOf(sc, false, run.flows) == {};
    st, status, stalled := NothingFavouredStalls(run, false, None, maxWaves, sc, f);
  }
}
