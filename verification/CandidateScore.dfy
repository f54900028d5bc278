// Candidate scores.
module CandidateScore {
  // The weighted score of a ready flow, the prices that adapt between waves, and when the sign of
  // every score is known before the run.

  import RealArith
  import opened Transfers
  import opened Replay
  import opened ReadySetScheduler

  // ------------------------------------------------------------------- scores

  // The weights of the candidate score, the base priority of a flow and the outbound load that waits
  // behind a phase and rank, and the rule for adaptive prices.
  datatype Scoring = Scoring(residualWeight: real, barrierWeight: real, ageWeight: real, predictionWeight: real,
                             baseWeight: real,
                             base: Flow -> real, downstream: Key -> nat, confidence: real,
                             adaptive: bool, priceStep: real, priceDecay: real, priceClip: real, budget: nat)

  // What the score sees of a ready flow.
  datatype Glance = Glance(remaining: nat, maxResidual: nat, inbound: nat, waited: nat, now: nat, price: real)

  function AtLeastOne(x: real): (y: real)
    ensures y >= 1.0
  {
    if x >= 1.0 then x else 1.0
  }

  function Downstream(sc: Scoring, f: Flow): nat {
    if f.phase < 2 then sc.downstream(Key(f.phase + 1, f.dst)) else 0
  }

  function Urgency(sc: Scoring, f: Flow, g: Glance): real {
    Downstream(sc, f) as real / AtLeastOne(g.inbound as real)
  }

  function Age(g: Glance): real { g.waited as real / AtLeastOne(AtLeastOne((g.now + 1) as real)) }

  // Only return traffic in a runtime look-ahead earns the forecast bonus.
  function Bonus(sc: Scoring, lookahead: bool, f: Flow, g: Glance): real {
    if lookahead && f.phase == 1
      then sc.confidence * sc.downstream(Key(2, f.dst)) as real / AtLeastOne(g.maxResidual as real) else 0.0
  }

  /** The candidate score: base priority, residual share, downstream pressure, age, forecast and price. */
  function Score(sc: Scoring, lookahead: bool, f: Flow, g: Glance): real
    requires g.maxResidual > 0
  {
    sc.baseWeight * sc.base(f)
    + sc.residualWeight * (g.remaining as real / g.maxResidual as real)
    + sc.barrierWeight * Urgency(sc, f, g)
    + sc.ageWeight * Age(g)
    + sc.predictionWeight * Bonus(sc, lookahead, f, g)
    + (if f.phase < 2 then g.price else 0.0)
  }

  predicate PricesSafe(sc: Scoring) {
    sc.adaptive ==> 0.0 <= sc.priceDecay <= 1.0 && sc.priceStep >= 0.0 && sc.priceClip >= 0.0
  }

  // The glances a run can take.
  predicate GlanceOk(sc: Scoring, g: Glance) {
    0 < g.remaining <= g.maxResidual && (!sc.adaptive ==> g.price == 0.0) && (PricesSafe(sc) ==> g.price >= 0.0)
  }

  // No weight works against a flow.
  predicate NoPenalty(sc: Scoring) {
    sc.residualWeight >= 0.0 && sc.barrierWeight >= 0.0 && sc.ageWeight >= 0.0 && sc.predictionWeight >= 0.0 &&
        sc.confidence >= 0.0 && PricesSafe(sc)
  }

  // Whether something other than age and price speaks for f.
  predicate Favoured(sc: Scoring, lookahead: bool, f: Flow) {
    || sc.baseWeight * sc.base(f) > 0.0
    || sc.residualWeight > 0.0
    || (sc.barrierWeight > 0.0 && Downstream(sc, f) > 0)
    || (sc.predictionWeight > 0.0 && lookahead && f.phase == 1 && sc.confidence > 0.0 &&
        sc.downstream(Key(2, f.dst)) > 0)
  }

  // Whatever a run sees, the score of f is positive exactly if it is favoured.
  ghost predicate Fixes(sc: Scoring, lookahead: bool, flows: seq<Flow>, favoured: set<Flow>) {
    forall f, g | f in flows && GlanceOk(sc, g) :: Score(sc, lookahead, f, g) > 0.0 <==> f in favoured
  }

  lemma TermSign(weight: real, x: real)
    requires weight >= 0.0 && x >= 0.0
    ensures weight * x >= 0.0 && (weight * x > 0.0 <==> weight > 0.0 && x > 0.0)
  {
    RealArith.NonNegativeProduct(weight, x);
    if weight > 0.0 && x > 0.0 { RealArith.PositiveProduct(weight, x); }
  }

  lemma QuotientSign(x: real, y: real)
    requires x >= 0.0 && y > 0.0
    ensures x / y >= 0.0 && (x / y > 0.0 <==> x > 0.0)
  {
    if x / y == 0.0 { assert x == x / y * y; }
  }

  lemma BonusSign(sc: Scoring, lookahead: bool, f: Flow, g: Glance)
    requires sc.confidence >= 0.0
    ensures Bonus(sc, lookahead, f, g) >= 0.0
    ensures Bonus(sc, lookahead, f, g) > 0.0 <==>
              lookahead && f.phase == 1 && sc.confidence > 0.0 && sc.downstream(Key(2, f.dst)) > 0
  {
    var load := sc.downstream(Key(2, f.dst)) as real;
    TermSign(sc.confidence, load);
    QuotientSign(sc.confidence * load, AtLeastOne(g.maxResidual as real));
  }

  /** Without penalties the score is positive exactly when something speaks for the flow; waiting and
      prices can only help. */
  lemma ScorePositive(sc: Scoring, lookahead: bool, f: Flow, g: Glance)
    requires NoPenalty(sc) && GlanceOk(sc, g) && sc.baseWeight * sc.base(f) >= 0.0
    ensures Favoured(sc, lookahead, f) ==> Score(sc, lookahead, f, g) > 0.0
    ensures !Favoured(sc, lookahead, f) && sc.ageWeight == 0.0 && !sc.adaptive ==> Score(sc, lookahead, f, g) == 0.0
  {
    hide Bonus;
    QuotientSign(g.remaining as real, g.maxResidual as real);
    TermSign(sc.residualWeight, g.remaining as real / g.maxResidual as real);
    QuotientSign(Downstream(sc, f) as real, AtLeastOne(g.inbound as real));
    TermSign(sc.barrierWeight, Urgency(sc, f, g));
    QuotientSign(g.waited as real, AtLeastOne(AtLeastOne((g.now + 1) as real)));
    TermSign(sc.ageWeight, Age(g));
    BonusSign(sc, lookahead, f, g);
    TermSign(sc.predictionWeight, Bonus(sc, lookahead, f, g));
  }

  ghost predicate NoBasePenalty(sc: Scoring, flows: seq<Flow>) {
    forall f | f in flows :: sc.baseWeight * sc.base(f) >= 0.0
  }

  function FavouredOf(sc: Scoring, lookahead: bool, flows: seq<Flow>): set<Flow> {
    set f | f in flows && Favoured(sc, lookahead, f)
  }

  /** So without penalties, and with neither age nor prices in play or all flows favoured, the sign of
      every score is known before the run. */
  lemma SignsKnown(sc: Scoring, lookahead: bool, flows: seq<Flow>)
    requires NoPenalty(sc) && NoBasePenalty(sc, flows)
    requires (sc.ageWeight == 0.0 && !sc.adaptive) || forall f | f in flows :: Favoured(sc, lookahead, f)
    ensures Fixes(sc, lookahead, flows, FavouredOf(sc, lookahead, flows))
  {
    forall f, g | f in flows && GlanceOk(sc, g)
      ensures Score(sc, lookahead, f, g) > 0.0 <==> f in FavouredOf(sc, lookahead, flows)
    {
      ScorePositive(sc, lookahead, f, g);
    }
  }

  // What the loop remembers for scoring: since when a flow is ready, and the price of a rank.
  datatype Memory = Memory(readySince: map<Flow, nat>, prices: map<Key, real>)

  ghost predicate MemoryOk(run: Run, sc: Scoring, now: nat, memory: Memory) {
    && (forall f | f in memory.readySince :: memory.readySince[f] <= now)
    && (forall key | key in KeySet(run.ranks) :: key in memory.prices && (PricesSafe(sc) ==> memory.prices[key] >= 0.0))
  }

  function NextPrice(sc: Scoring, price: real, pressure: nat, remaining: nat): real {
    var value := if pressure == 0 then 0.0 else pressure as real / AtLeastOne(remaining as real);
    var updated := (1.0 - sc.priceDecay) * price + sc.priceStep * value;
    var capped := if updated < sc.priceClip then updated else sc.priceClip;
    if -sc.priceClip > capped then -sc.priceClip else capped
  }

  /** With a decay between 0 and 1, and no negative step or clip, prices never turn negative. */
  lemma PriceNonNegative(sc: Scoring, price: real, pressure: nat, remaining: nat)
    requires sc.adaptive && PricesSafe(sc) && price >= 0.0
    ensures NextPrice(sc, price, pressure, remaining) >= 0.0
  {
    QuotientSign(pressure as real, AtLeastOne(remaining as real));
    TermSign(1.0 - sc.priceDecay, price);
    TermSign(sc.priceStep, if pressure == 0 then 0.0 else pressure as real / AtLeastOne(remaining as real));
  }

  method UpdatePrices(run: Run, st: State, sc: Scoring, tables: Tables, memory: Memory, now: nat)
    returns (updated: Memory)
    requires TablesMatch(run, st, tables) && MemoryOk(run, sc, now, memory) && sc.adaptive
    ensures MemoryOk(run, sc, now, updated) && updated.readySince == memory.readySince
  {
    updated := memory;
    for i := 0 to Max(1, sc.budget)
      invariant MemoryOk(run, sc, now, updated) && updated.readySince == memory.readySince
    {
      for phase := 0 to 2
        invariant MemoryOk(run, sc, now, updated) && updated.readySince == memory.readySince
      {
        for gpu := 0 to run.ranks
          invariant MemoryOk(run, sc, now, updated) && updated.readySince == memory.readySince
        {
          var key := Key(phase, gpu);
          assert key in KeySet(run.ranks);
          assert CellMatches(run, st, tables, key);
          var price, pressure := updated.prices[key], sc.downstream(Key(phase + 1, gpu));
          if PricesSafe(sc) { PriceNonNegative(sc, price, pressure, tables.inbound[key]); }
          updated := updated.(prices := updated.prices[key := NextPrice(sc, price, pressure, tables.inbound[key])]);
        }
      }
    }
  }

  method LargestResidual(run: Run, st: State) returns (largest: nat)
    requires Keyed(run, st)
    ensures largest > 0 && forall f | f in run.flows :: st.residual[f] <= largest
  {
    largest := 1;
    var found := false;
    for i := 0 to |run.flows|
      invariant largest > 0 && (!found ==> largest == 1)
      invariant forall j | 0 <= j < i :: st.residual[run.flows[j]] <= if found then largest else 0
    {
      var value := st.residual[run.flows[i]];
      if value > 0 && (!found || value > largest) {
        largest, found := value, true;
      }
    }
  }

  // What the loop sees of a ready flow.
  method Look(run: Run, st: State, sc: Scoring, tables: Tables, memory: Memory, largest: nat, f: Flow)
    returns (g: Glance)
    requires run.Valid() && TablesMatch(run, st, tables) && MemoryOk(run, sc, st.now, memory)
    requires f in run.flows && f in memory.readySince && 0 < st.residual[f] <= largest
    ensures GlanceOk(sc, g)
  {
    assert run.HasFlow(f);
    var key := Key(f.phase, f.dst);
    assert key in KeySet(run.ranks) && CellMatches(run, st, tables, key);
    var price := if sc.adaptive && f.phase < 2 then memory.prices[key] else 0.0;
    g := Glance(st.residual[f], largest, tables.inbound[key], st.now - memory.readySince[f], st.now, price);
  }

  // The score follows from some glance at the flow.
  ghost predicate Scored(sc: Scoring, lookahead: bool, f: Flow, score: real) {
    exists g :: GlanceOk(sc, g) && score == Score(sc, lookahead, f, g)
  }

  /** Scores the ready flows from the dictionaries, noting since when each has been ready. */
  method ScoreCandidates(run: Run, st: State, sc: Scoring, tables: Tables, memory: Memory, ready: seq<Flow>)
    returns (scores: map<Flow, real>, updated: Memory)
    requires run.Valid() && TablesMatch(run, st, tables) && MemoryOk(run, sc, st.now, memory)
    requires forall f | f in ready :: f in run.flows && st.residual[f] > 0
    ensures MemoryOk(run, sc, st.now, updated)
    ensures forall f | f in ready :: f in scores && Scored(sc, run.phases == 2, f, scores[f])
  {
    var largest := LargestResidual(run, st);
    hide TablesMatch, Score, GlanceOk, Scored;
    scores, updated := map[], memory;
    for i := 0 to |ready|
      invariant MemoryOk(run, sc, st.now, updated)
      invariant forall j | 0 <= j < i :: ready[j] in scores && Scored(sc, run.phases == 2, ready[j], scores[ready[j]])
    {
      var f := ready[i];
      assert f in ready;
      if f !in updated.readySince {
        updated := updated.(readySince := updated.readySince[f := st.now]);
      }
      var g := Look(run, st, sc, tables, updated, largest, f);
      var score := ScoreSeen(sc, run.phases == 2, f, g);
      scores := scores[f := score];
    }
  }

  method ScoreSeen(sc: Scoring, lookahead: bool, f: Flow, g: Glance) returns (score: real)
    requires GlanceOk(sc, g)
    ensures score == Score(sc, lookahead, f, g) && Scored(sc, lookahead, f, score)
  {
    score := Score(sc, lookahead, f, g);
  }

  lemma LaterMemory(run: Run, sc: Scoring, now: nat, later: nat, memory: Memory)
    requires MemoryOk(run, sc, now, memory) && now <= later
    ensures MemoryOk(run, sc, later, memory)
  {
  }

  method InitialMemory(run: Run, ghost sc: Scoring) returns (memory: Memory)
    ensures MemoryOk(run, sc, 0, memory)
  {
    memory := Memory(map[], map key | key in KeySet(run.ranks) :: 0.0);
  }
}
