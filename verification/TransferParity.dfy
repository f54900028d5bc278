// Transfer parity after aggregation.
module TransferParity {
  // Executed transfers against the expected ones, the rows of every edge added up.

  datatype Phase = P0 | P1
  datatype Role = HiddenStates | RoutingProbs
  datatype Edge = Edge(phase: Phase, role: Role, src: nat, dst: nat)
  datatype Transfer = Transfer(edge: Edge, rows: nat)

  function RowsOn(t: Transfer, e: Edge): nat { if t.edge == e then t.rows else 0 }

  // ------------------------------------------------------------- totals of a counter

  /** Rows moved over one edge by a bag of transfers. */
  ghost function EdgeTotal(bag: multiset<Transfer>, e: Edge): nat
    decreases |bag|
  {
    if bag == multiset{} then 0 else
      var t :| t in bag;
      RowsOn(t, e) + EdgeTotal(bag - multiset{t}, e)
  }

  lemma EitherOrder(bag: multiset<Transfer>, t: Transfer, u: Transfer)
    ensures bag - multiset{t} - multiset{u} == bag - multiset{u} - multiset{t}
  {
  }

  /** Which transfer is counted first does not matter. */
  lemma {:induction false} CountAnyFirst(bag: multiset<Transfer>, t: Transfer, e: Edge)
    requires t in bag
    ensures EdgeTotal(bag, e) == RowsOn(t, e) + EdgeTotal(bag - multiset{t}, e)
    decreases |bag|
  {
    hide RowsOn;
    var first :| first in bag && EdgeTotal(bag, e) == RowsOn(first, e) + EdgeTotal(bag - multiset{first}, e);
    if first != t {
      hide EdgeTotal;
      CountAnyFirst(bag - multiset{first}, t, e);
      CountAnyFirst(bag - multiset{t}, first, e);
      EitherOrder(bag, first, t);
    }
  }

  lemma {:induction false} CountTogether(a: multiset<Transfer>, b: multiset<Transfer>, e: Edge)
    ensures EdgeTotal(a + b, e) == EdgeTotal(a, e) + EdgeTotal(b, e)
    decreases |b|
  {
    if b == multiset{} {
      assert a + b == a;
    } else {
      var t :| t in b;
      CountTogether(a, b - multiset{t}, e);
      CountAnyFirst(b, t, e);
      CountAnyFirst(a + b, t, e);
      assert a + b - multiset{t} == a + (b - multiset{t});
    }
  }

  function Copies(t: Transfer, n: nat): multiset<Transfer> { multiset{}[t := n] }

  lemma {:induction false} CountCopies(t: Transfer, n: nat, e: Edge)
    ensures EdgeTotal(Copies(t, n), e) == RowsOn(t, e) * n
  {
    var all := Copies(t, n);
    if n == 0 {
      assert all == multiset{};
    } else {
      CountCopies(t, n - 1, e);
      CountAnyFirst(all, t, e);
      assert all - multiset{t} == Copies(t, n - 1);
      Increment(RowsOn(t, e), n);
    }
  }

  lemma Increment(x: nat, n: nat)
    requires n > 0
    ensures x * n == x + x * (n - 1)
  {
  }

  ghost predicate Occurs(bag: multiset<Transfer>, e: Edge) {
    exists t :: t in bag && t.edge == e
  }

  lemma {:induction false} NoTotalUnlessOccurs(bag: multiset<Transfer>, e: Edge)
    requires !Occurs(bag, e)
    ensures EdgeTotal(bag, e) == 0
    decreases |bag|
  {
    if bag != multiset{} {
      var t :| t in bag;
      CountAnyFirst(bag, t, e);
      NoTotalUnlessOccurs(bag - multiset{t}, e);
    }
  }

  lemma AtLeastOwnRows(bag: multiset<Transfer>, t: Transfer)
    requires t in bag
    ensures EdgeTotal(bag, t.edge) >= t.rows
  {
    CountAnyFirst(bag, t, t.edge);
  }

  // --------------------------------------------------------------------- aggregation

  // One transfer per edge that occurs, carrying all its rows.
  ghost predicate Aggregates(out: multiset<Transfer>, bag: multiset<Transfer>) {
    forall t :: out[t] == if Occurs(bag, t.edge) && t.rows == EdgeTotal(bag, t.edge) then 1 else 0
  }

  // The grouping dictionary holds the total of every edge met so far.
  ghost predicate Grouped(grouped: map<Edge, nat>, done: multiset<Transfer>) {
    forall e :: EdgeGrouped(grouped, done, e)
  }

  ghost predicate EdgeGrouped(grouped: map<Edge, nat>, done: multiset<Transfer>, e: Edge) {
    (e in grouped <==> Occurs(done, e)) && (e in grouped ==> grouped[e] == EdgeTotal(done, e))
  }

  lemma OccursWith(done: multiset<Transfer>, more: multiset<Transfer>, e: Edge)
    ensures Occurs(done + more, e) <==> Occurs(done, e) || Occurs(more, e)
  {
    if Occurs(done, e) {
      var u :| u in done && u.edge == e;
      assert u in done + more;
    }
    if Occurs(more, e) {
      var u :| u in more && u.edge == e;
      assert u in done + more;
    }
  }

  lemma CopiesOccur(t: Transfer, n: nat, e: Edge)
    requires n > 0
    ensures Occurs(Copies(t, n), e) <==> e == t.edge
  {
    assert t in Copies(t, n);
  }

  lemma CopiesAdded(done: multiset<Transfer>, more: multiset<Transfer>, t: Transfer, n: nat, e: Edge)
    requires n > 0 && more == Copies(t, n)
    ensures Occurs(done + more, e) <==> Occurs(done, e) || e == t.edge
    ensures EdgeTotal(done + more, e) == EdgeTotal(done, e) + RowsOn(t, e) * n
  {
    OccursWith(done, more, e);
    CopiesOccur(t, n, e);
    CountTogether(done, more, e);
    CountCopies(t, n, e);
  }

  lemma GroupStepAt(grouped: map<Edge, nat>, done: multiset<Transfer>, t: Transfer, n: nat, total: nat, e: Edge)
    requires EdgeGrouped(grouped, done, e) && n > 0
    requires total == (if t.edge in grouped then grouped[t.edge] else 0) + t.rows * n
    ensures EdgeGrouped(grouped[t.edge := total], done + Copies(t, n), e)
  {
    if !Occurs(done, e) { NoTotalUnlessOccurs(done, e); }
    CopiesAdded(done, Copies(t, n), t, n, e);
  }

  lemma GroupStep(grouped: map<Edge, nat>, done: multiset<Transfer>, t: Transfer, n: nat, total: nat)
    requires Grouped(grouped, done) && n > 0
    requires total == (if t.edge in grouped then grouped[t.edge] else 0) + t.rows * n
    ensures Grouped(grouped[t.edge := total], done + Copies(t, n))
  {
    var grouped', next := grouped[t.edge := total], done + Copies(t, n);
    forall e
      ensures EdgeGrouped(grouped', next, e)
    {
      GroupStepAt(grouped, done, t, n, total, e);
    }
  }

  lemma TakeCopies(rest: multiset<Transfer>, done: multiset<Transfer>, t: Transfer)
    ensures rest[t := 0] + (done + Copies(t, rest[t])) == rest + done
    ensures t in rest ==> |rest[t := 0]| < |rest|
  {
    assert rest == rest[t := 0] + Copies(t, rest[t]);
    assert t in rest ==> t in Copies(t, rest[t]);
  }

  // Adds up the rows of every edge, visiting the distinct transfers of the counter in any order.
  method GroupRows(counter: multiset<Transfer>) returns (grouped: map<Edge, nat>)
    ensures Grouped(grouped, counter)
  {
    grouped := map[];
    var rest := counter;
    ghost var done: multiset<Transfer> := multiset{};
    while rest != multiset{}
      invariant rest + done == counter && Grouped(grouped, done)
      decreases |rest|
    {
      var t :| t in rest;
      var multiplicity := rest[t];
      var total := (if t.edge in grouped then grouped[t.edge] else 0) + t.rows * multiplicity;
      GroupStep(grouped, done, t, multiplicity, total);
      TakeCopies(rest, done, t);
      grouped := grouped[t.edge := total];
      done := done + Copies(t, multiplicity);
      rest := rest[t := 0];
    }
    assert done == counter;
  }

  method EmitTotals(grouped: map<Edge, nat>) returns (out: multiset<Transfer>)
    ensures forall t: Transfer :: out[t] == if t.edge in grouped && t.rows == grouped[t.edge] then 1 else 0
  {
    out := multiset{};
    var edges := grouped.Keys;
    while edges != {}
      invariant edges <= grouped.Keys
      invariant forall t: Transfer :: out[t] ==
                  if t.edge in grouped && t.edge !in edges && t.rows == grouped[t.edge] then 1 else 0
      decreases |edges|
    {
      var e :| e in edges;
      out := out + multiset{Transfer(e, grouped[e])};
      edges := edges - {e};
    }
  }

  /** One transfer per edge, with the rows of all its transfers. */
  method Aggregate(counter: multiset<Transfer>) returns (out: multiset<Transfer>)
    ensures Aggregates(out, counter)
  {
    var grouped := GroupRows(counter);
    out := EmitTotals(grouped);
    forall t: Transfer
      ensures out[t] == if Occurs(counter, t.edge) && t.rows == EdgeTotal(counter, t.edge) then 1 else 0
    {
      assert EdgeGrouped(grouped, counter, t.edge);
    }
  }

  /** The aggregate is determined by the bag. */
  lemma AggregateUnique(out: multiset<Transfer>, out': multiset<Transfer>, bag: multiset<Transfer>)
    requires Aggregates(out, bag) && Aggregates(out', bag)
    ensures out == out'
  {
    forall t: Transfer
      ensures out[t] == out'[t]
    {
    }
  }

  ghost predicate SameTotals(a: multiset<Transfer>, b: multiset<Transfer>) {
    forall e :: (Occurs(a, e) <==> Occurs(b, e)) && EdgeTotal(a, e) == EdgeTotal(b, e)
  }

  ghost predicate OnePerEdge(bag: multiset<Transfer>) {
    && (forall t | t in bag :: bag[t] == 1)
    && (forall t, u | t in bag && u in bag && t.edge == u.edge :: t == u)
  }

  lemma OnlyEntry(bag: multiset<Transfer>, t: Transfer)
    requires OnePerEdge(bag) && t in bag
    ensures EdgeTotal(bag, t.edge) == t.rows
  {
    CountAnyFirst(bag, t, t.edge);
    NoTotalUnlessOccurs(bag - multiset{t}, t.edge);
  }

  lemma AggregateKeepsTotals(out: multiset<Transfer>, bag: multiset<Transfer>)
    requires Aggregates(out, bag)
    ensures OnePerEdge(out) && SameTotals(out, bag)
  {
    forall e
      ensures (Occurs(out, e) <==> Occurs(bag, e)) && EdgeTotal(out, e) == EdgeTotal(bag, e)
    {
      if Occurs(bag, e) {
        var t := Transfer(e, EdgeTotal(bag, e));
        assert out[t] == 1;
        OnlyEntry(out, t);
      } else {
        assert forall t | t in out :: Occurs(bag, t.edge);
        NoTotalUnlessOccurs(out, e);
        NoTotalUnlessOccurs(bag, e);
      }
    }
  }

  /** A bag is the aggregate of another exactly when it has one transfer per edge and both have
      the same edges and totals. */
  lemma AggregatesIff(out: multiset<Transfer>, bag: multiset<Transfer>)
    ensures Aggregates(out, bag) <==> OnePerEdge(out) && SameTotals(out, bag)
  {
    if Aggregates(out, bag) {
      AggregateKeepsTotals(out, bag);
    }
    if OnePerEdge(out) && SameTotals(out, bag) {
      forall t: Transfer
        ensures out[t] == if Occurs(bag, t.edge) && t.rows == EdgeTotal(bag, t.edge) then 1 else 0
      {
        if Occurs(out, t.edge) {
          var u :| u in out && u.edge == t.edge;
          OnlyEntry(out, u);
        }
      }
    }
  }

  /** Aggregating an aggregate changes nothing. */
  lemma AggregationIdempotent(out: multiset<Transfer>, bag: multiset<Transfer>)
    requires Aggregates(out, bag)
    ensures Aggregates(out, out)
  {
    AggregatesIff(out, bag);
    AggregatesIff(out, out);
  }

  /** Splitting a transfer into pieces over the same edge does not change the aggregate. */
  lemma AggregationIgnoresBuckets(out: multiset<Transfer>, rest: multiset<Transfer>, e: Edge, a: nat, b: nat)
    requires Aggregates(out, rest + multiset{Transfer(e, a + b)})
    ensures Aggregates(out, rest + multiset{Transfer(e, a), Transfer(e, b)})
  {
    var whole, pieces := multiset{Transfer(e, a + b)}, multiset{Transfer(e, a), Transfer(e, b)};
    AggregatesIff(out, rest + whole);
    forall d
      ensures (Occurs(rest + whole, d) <==> Occurs(rest + pieces, d)) &&
              EdgeTotal(rest + whole, d) == EdgeTotal(rest + pieces, d)
    {
      CountTogether(rest, whole, d);
      CountTogether(rest, pieces, d);
      SplitTotal(e, a, b, d);
      SameEdges(rest, whole, pieces, d);
    }
    assert SameTotals(out, rest + pieces);
    AggregatesIff(out, rest + pieces);
  }

  lemma SingleTotal(t: Transfer, d: Edge)
    ensures EdgeTotal(multiset{t}, d) == RowsOn(t, d)
  {
    CountAnyFirst(multiset{t}, t, d);
    assert multiset{t} - multiset{t} == multiset{};
  }

  lemma SplitTotal(e: Edge, a: nat, b: nat, d: Edge)
    ensures EdgeTotal(multiset{Transfer(e, a + b)}, d) == EdgeTotal(multiset{Transfer(e, a), Transfer(e, b)}, d)
  {
    var t, u := Transfer(e, a), Transfer(e, b);
    SingleTotal(Transfer(e, a + b), d);
    SingleTotal(t, d);
    SingleTotal(u, d);
    assert multiset{t, u} == multiset{t} + multiset{u};
    CountTogether(multiset{t}, multiset{u}, d);
  }

  lemma SameEdges(rest: multiset<Transfer>, a: multiset<Transfer>, b: multiset<Transfer>, d: Edge)
    requires Occurs(a, d) <==> Occurs(b, d)
    ensures Occurs(rest + a, d) <==> Occurs(rest + b, d)
  {
    if Occurs(rest + a, d) { OccursEither(rest, a, b, d); }
    if Occurs(rest + b, d) { OccursEither(rest, b, a, d); }
  }

  lemma OccursEither(rest: multiset<Transfer>, a: multiset<Transfer>, b: multiset<Transfer>, d: Edge)
    requires Occurs(rest + a, d) && (Occurs(a, d) ==> Occurs(b, d))
    ensures Occurs(rest + b, d)
  {
    var t :| t in rest + a && t.edge == d;
    if t in rest {
      assert t in rest + b;
    } else {
      assert t in a;
      var u :| u in b && u.edge == d;
      assert u in rest + b;
    }
  }

  // --------------------------------------------------------- expectation from the truth

  datatype TruthPhase = Dispatch | Return | OtherPhase
  datatype TruthTask = TruthTask(phase: TruthPhase, src: nat, dst: nat, rows: nat)

  function Expected(task: TruthTask): multiset<Transfer> {
    match task.phase
    case Dispatch => multiset{Transfer(Edge(P0, HiddenStates, task.src, task.dst), task.rows),
                              Transfer(Edge(P0, RoutingProbs, task.src, task.dst), task.rows)}
    case Return => multiset{Transfer(Edge(P1, HiddenStates, task.src, task.dst), task.rows)}
    case OtherPhase => multiset{}
  }

  function ExpectedUpTo(tasks: seq<TruthTask>, k: nat): multiset<Transfer>
    requires k <= |tasks|
  {
    if k == 0 then multiset{} else ExpectedUpTo(tasks, k - 1) + Expected(tasks[k - 1])
  }

  lemma Appended(rows: seq<Transfer>, t: Transfer)
    ensures multiset(rows + [t]) == multiset(rows) + multiset{t}
  {
  }

  lemma DispatchPair(t: Transfer, u: Transfer)
    ensures multiset{t, u} == multiset{t} + multiset{u}
  {
  }

  method AppendExpected(rows: seq<Transfer>, task: TruthTask) returns (more: seq<Transfer>)
    ensures multiset(more) == multiset(rows) + Expected(task)
  {
    more := rows;
    if task.phase == Dispatch {
      var hidden, probs := Transfer(Edge(P0, HiddenStates, task.src, task.dst), task.rows),
          Transfer(Edge(P0, RoutingProbs, task.src, task.dst), task.rows);
      Appended(more, hidden);
      more := more + [hidden];
      Appended(more, probs);
      more := more + [probs];
      DispatchPair(hidden, probs);
    } else if task.phase == Return {
      var hidden := Transfer(Edge(P1, HiddenStates, task.src, task.dst), task.rows);
      Appended(more, hidden);
      more := more + [hidden];
    }
  }

  method ExpectedFromTruth(tasks: seq<TruthTask>) returns (counter: multiset<Transfer>)
    ensures counter == ExpectedUpTo(tasks, |tasks|)
  {
    var rows: seq<Transfer> := [];
    for k := 0 to |tasks|
      invariant multiset(rows) == ExpectedUpTo(tasks, k)
    {
      rows := AppendExpected(rows, tasks[k]);
    }
    counter := multiset(rows);
  }

  predicate Counted(t: TruthTask) { t.phase != OtherPhase }

  predicate SameLane(t: TruthTask, u: TruthTask) { t.phase == u.phase && t.src == u.src && t.dst == u.dst }

  // At most one counted task per phase and pair of ranks.
  predicate DistinctLanes(tasks: seq<TruthTask>, k: nat)
    requires k <= |tasks|
  {
    forall i, j | 0 <= i < j < k && Counted(tasks[i]) && Counted(tasks[j]) :: !SameLane(tasks[i], tasks[j])
  }

  lemma {:induction false} ExpectedComesFrom(tasks: seq<TruthTask>, k: nat, t: Transfer)
    requires k <= |tasks| && t in ExpectedUpTo(tasks, k)
    ensures exists i :: 0 <= i < k && t in Expected(tasks[i])
  {
    if t in Expected(tasks[k - 1]) {
    } else {
      ExpectedComesFrom(tasks, k - 1, t);
    }
  }

  lemma EdgeTellsLane(a: TruthTask, b: TruthTask, t: Transfer, u: Transfer)
    requires t in Expected(a) && u in Expected(b)
    ensures Counted(a) && Counted(b) && (t.edge == u.edge ==> SameLane(a, b))
  {
  }

  lemma JoinOnePerEdge(a: multiset<Transfer>, b: multiset<Transfer>)
    requires OnePerEdge(a) && OnePerEdge(b) && forall t, u | t in a && u in b :: t.edge != u.edge
    ensures OnePerEdge(a + b)
  {
    forall t | t in a + b
      ensures (a + b)[t] == 1
    {
      assert !(t in a && t in b);
    }
  }

  lemma ExpectedOfOne(task: TruthTask)
    ensures OnePerEdge(Expected(task))
    ensures Counted(task) ==> exists t :: t in Expected(task)
  {
    if task.phase == Dispatch {
      assert Transfer(Edge(P0, HiddenStates, task.src, task.dst), task.rows) in Expected(task);
    }
    if task.phase == Return {
      assert Transfer(Edge(P1, HiddenStates, task.src, task.dst), task.rows) in Expected(task);
    }
  }

  lemma {:induction false} ExpectedOnePerEdge(tasks: seq<TruthTask>, k: nat)
    requires k <= |tasks| && DistinctLanes(tasks, k)
    ensures OnePerEdge(ExpectedUpTo(tasks, k))
  {
    if k > 0 {
      ExpectedOnePerEdge(tasks, k - 1);
      ExpectedOfOne(tasks[k - 1]);
      forall t, u | t in ExpectedUpTo(tasks, k - 1) && u in Expected(tasks[k - 1])
        ensures t.edge != u.edge
      {
        LaterLaneDiffers(tasks, k, t, u);
      }
      JoinOnePerEdge(ExpectedUpTo(tasks, k - 1), Expected(tasks[k - 1]));
    }
  }

  lemma LaterLaneDiffers(tasks: seq<TruthTask>, k: nat, t: Transfer, u: Transfer)
    requires 0 < k <= |tasks| && DistinctLanes(tasks, k) && t in ExpectedUpTo(tasks, k - 1) &&
             u in Expected(tasks[k - 1])
    ensures t.edge != u.edge
  {
    ExpectedComesFrom(tasks, k - 1, t);
    var i :| 0 <= i < k - 1 && t in Expected(tasks[i]);
    EdgeTellsLane(tasks[i], tasks[k - 1], t, u);
  }

  lemma {:induction false} ExpectedHolds(tasks: seq<TruthTask>, k: nat, i: nat, t: Transfer)
    requires i < k <= |tasks| && t in Expected(tasks[i])
    ensures t in ExpectedUpTo(tasks, k)
  {
    hide Expected;
    if i < k - 1 { ExpectedHolds(tasks, k - 1, i, t); }
  }

  function MainTransfer(task: TruthTask): Transfer {
    Transfer(Edge(if task.phase == Dispatch then P0 else P1, HiddenStates, task.src, task.dst), task.rows)
  }

  lemma MainTransferExpected(task: TruthTask)
    requires Counted(task)
    ensures MainTransfer(task) in Expected(task)
  {
  }

  lemma CollideAt(tasks: seq<TruthTask>, i: nat, j: nat, t: Transfer, u: Transfer)
    requires i < j < |tasks| && t in Expected(tasks[i]) && u in Expected(tasks[j]) && t.edge == u.edge
    ensures !OnePerEdge(ExpectedUpTo(tasks, j + 1))
  {
    ExpectedHolds(tasks, j, i, t);
    TwoOnOneEdge(ExpectedUpTo(tasks, j), Expected(tasks[j]), t, u);
  }

  lemma {:induction false} PrefixOnePerEdge(tasks: seq<TruthTask>, k: nat, j: nat)
    requires j <= k <= |tasks| && OnePerEdge(ExpectedUpTo(tasks, k))
    ensures OnePerEdge(ExpectedUpTo(tasks, j))
  {
    hide Expected, OnePerEdge;
    if j < k {
      PartOnePerEdge(ExpectedUpTo(tasks, k - 1), Expected(tasks[k - 1]), ExpectedUpTo(tasks, k));
      PrefixOnePerEdge(tasks, k - 1, j);
    }
  }

  // Two counted tasks on one lane put two transfers on one edge.
  lemma SharedLaneCollides(tasks: seq<TruthTask>, i: nat, j: nat)
    requires i < j < |tasks| && Counted(tasks[i]) && Counted(tasks[j]) && SameLane(tasks[i], tasks[j])
    ensures !OnePerEdge(ExpectedUpTo(tasks, j + 1))
  {
    MainTransferExpected(tasks[i]);
    MainTransferExpected(tasks[j]);
    CollideAt(tasks, i, j, MainTransfer(tasks[i]), MainTransfer(tasks[j]));
  }

  lemma LanesDiffer(tasks: seq<TruthTask>, i: nat, j: nat)
    requires i < j < |tasks| && Counted(tasks[i]) && Counted(tasks[j]) && OnePerEdge(ExpectedUpTo(tasks, j + 1))
    ensures !SameLane(tasks[i], tasks[j])
  {
    if SameLane(tasks[i], tasks[j]) { SharedLaneCollides(tasks, i, j); }
  }

  lemma TwoOnOneEdge(a: multiset<Transfer>, b: multiset<Transfer>, t: Transfer, u: Transfer)
    requires t in a && u in b && t.edge == u.edge
    ensures !OnePerEdge(a + b)
  {
    assert t in a + b && u in a + b;
    assert t == u ==> (a + b)[t] >= 2;
  }

  lemma PartOnePerEdge(a: multiset<Transfer>, b: multiset<Transfer>, whole: multiset<Transfer>)
    requires whole == a + b && OnePerEdge(whole)
    ensures OnePerEdge(a)
  {
    forall t | t in a
      ensures a[t] == 1
    {
      assert t in whole;
    }
    forall t, u | t in a && u in a && t.edge == u.edge
      ensures t == u
    {
      assert t in whole && u in whole;
    }
  }

  lemma OnePerEdgeNeedsDistinctLanes(tasks: seq<TruthTask>)
    requires OnePerEdge(ExpectedUpTo(tasks, |tasks|))
    ensures DistinctLanes(tasks, |tasks|)
  {
    hide ExpectedUpTo, OnePerEdge, Counted, SameLane;
    forall i: nat, j: nat | i < j < |tasks| && Counted(tasks[i]) && Counted(tasks[j])
      ensures !SameLane(tasks[i], tasks[j])
    {
      PrefixOnePerEdge(tasks, |tasks|, j + 1);
      LanesDiffer(tasks, i, j);
    }
  }

  lemma ExpectedOnePerEdgeIff(tasks: seq<TruthTask>)
    ensures OnePerEdge(ExpectedUpTo(tasks, |tasks|)) <==> DistinctLanes(tasks, |tasks|)
  {
    if DistinctLanes(tasks, |tasks|) {
      ExpectedOnePerEdge(tasks, |tasks|);
    } else if OnePerEdge(ExpectedUpTo(tasks, |tasks|)) {
      OnePerEdgeNeedsDistinctLanes(tasks);
    }
  }

  lemma {:induction false} ExpectedPositive(tasks: seq<TruthTask>, k: nat, t: Transfer)
    requires k <= |tasks| && t in ExpectedUpTo(tasks, k) && forall i | 0 <= i < k :: tasks[i].rows > 0
    ensures t.rows > 0
  {
    ExpectedComesFrom(tasks, k, t);
  }

  ghost predicate TotalsAgree(a: multiset<Transfer>, b: multiset<Transfer>) {
    forall e :: EdgeTotal(a, e) == EdgeTotal(b, e)
  }

  lemma PositiveTotalsShowEdges(a: multiset<Transfer>, b: multiset<Transfer>)
    requires (forall t | t in a :: t.rows > 0) && (forall t | t in b :: t.rows > 0) && TotalsAgree(a, b)
    ensures SameTotals(a, b)
  {
    forall e
      ensures Occurs(a, e) <==> Occurs(b, e)
    {
      if Occurs(a, e) {
        var t :| t in a && t.edge == e;
        AtLeastOwnRows(a, t);
        if !Occurs(b, e) { NoTotalUnlessOccurs(b, e); }
      } else if Occurs(b, e) {
        var t :| t in b && t.edge == e;
        AtLeastOwnRows(b, t);
        NoTotalUnlessOccurs(a, e);
      }
    }
  }

  /** The final comparison succeeds exactly when no two truth tasks share a lane and expected and
      executed transfers have the same edges and the same rows on each. */
  lemma ParityExactly(tasks: seq<TruthTask>, executed: multiset<Transfer>, aggregate: multiset<Transfer>)
    requires Aggregates(aggregate, executed)
    ensures aggregate == ExpectedUpTo(tasks, |tasks|) <==>
            DistinctLanes(tasks, |tasks|) && SameTotals(ExpectedUpTo(tasks, |tasks|), executed)
  {
    var expected := ExpectedUpTo(tasks, |tasks|);
    ExpectedOnePerEdgeIff(tasks);
    AggregatesIff(expected, executed);
    if Aggregates(expected, executed) { AggregateUnique(aggregate, expected, executed); }
  }

  /** When no transfer is empty, agreeing rows on every edge are enough. */
  lemma ParityIffTotalsAgree(tasks: seq<TruthTask>, executed: multiset<Transfer>, aggregate: multiset<Transfer>)
    requires Aggregates(aggregate, executed)
    requires (forall i | 0 <= i < |tasks| :: tasks[i].rows > 0) && (forall t | t in executed :: t.rows > 0)
    ensures aggregate == ExpectedUpTo(tasks, |tasks|) <==>
            DistinctLanes(tasks, |tasks|) && TotalsAgree(ExpectedUpTo(tasks, |tasks|), executed)
  {
    var expected := ExpectedUpTo(tasks, |tasks|);
    ParityExactly(tasks, executed, aggregate);
    forall t | t in expected
      ensures t.rows > 0
    {
      ExpectedPositive(tasks, |tasks|, t);
    }
    if TotalsAgree(expected, executed) { PositiveTotalsShowEdges(expected, executed); }
  }

  /** Two dispatch tasks on one pair of ranks: whatever was executed, the comparison fails. */
  lemma SplitTruthNeverMatches(r: nat, s: nat, executed: multiset<Transfer>, aggregate: multiset<Transfer>)
    requires Aggregates(aggregate, executed)
    ensures aggregate != ExpectedUpTo([TruthTask(Dispatch, 0, 1, r), TruthTask(Dispatch, 0, 1, s)], 2)
  {
    var tasks := [TruthTask(Dispatch, 0, 1, r), TruthTask(Dispatch, 0, 1, s)];
    ParityExactly(tasks, executed, aggregate);
    assert Counted(tasks[0]) && Counted(tasks[1]) && SameLane(tasks[0], tasks[1]);
  }
}
