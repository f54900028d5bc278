// Hot-path eligibility.
module Eligibility {
  // The verdict over per-rank execution counts.

  import opened Wrappers

  datatype Field =
    | SelectedP0 | SelectedP1 | PredictionP0 | NoneHeavy | RealP0 | RealP1
    | ShadowDispatch | ShadowCombine | FinalizeDispatch | FinalizeCombine
    | ShadowAgreement | ShadowPlanBuild | ShadowCollective | RawBuild | PairedBuild | Predict

  const FIELDS: seq<Field> := [
    SelectedP0, SelectedP1, PredictionP0, NoneHeavy, RealP0, RealP1,
    ShadowDispatch, ShadowCombine, FinalizeDispatch, FinalizeCombine,
    ShadowAgreement, ShadowPlanBuild, ShadowCollective, RawBuild, PairedBuild, Predict]

  const SHADOW_FIELDS: seq<Field> := [ShadowDispatch, ShadowCombine, ShadowAgreement, ShadowPlanBuild, ShadowCollective]

  datatype Summary = Summary(rank: Option<int>, counts: map<Field, int>, rawByLayer: map<string, int>)

  datatype Strategy = IndependentAsync | ZeroRawAsync | OtherStrategy

  datatype Contract = Contract(world: Option<int>, warmup: Option<int>, measure: Option<int>,
                               selected: Option<seq<string>>, prediction: seq<string>, strategy: Strategy)

  // ------------------------------------------------------------------- what is required

  predicate Available(c: Contract) {
    c.world.Some? && c.warmup.Some? && c.measure.Some? && c.selected.Some?
  }

  function Forwards(c: Contract): int
    requires Available(c)
  {
    c.warmup.value + c.measure.value
  }

  function PerRank(c: Contract, f: Field): int
    requires Available(c)
  {
    Forwards(c) * (if f == PredictionP0 then |c.prediction| else |c.selected.value|)
  }

  // A count that must be present and exact.
  predicate Exact(s: Summary, f: Field, expected: int) {
    f in s.counts && s.counts[f] == expected
  }

  predicate RawBounded(s: Summary, c: Contract)
    requires Available(c)
  {
    && RawBuild in s.counts && s.counts[RawBuild] <= PerRank(c, RawBuild)
    && forall l | l in c.selected.value :: LayerCount(s, l) <= Forwards(c)
  }

  function LayerCount(s: Summary, layer: string): int {
    if layer in s.rawByLayer then s.rawByLayer[layer] else 0
  }

  // The counts of one rank meet the contract.
  predicate RankMeets(s: Summary, c: Contract)
    requires Available(c)
  {
    && (forall f | f in FIELDS :: f in s.counts)
    && Exact(s, SelectedP0, PerRank(c, SelectedP0)) && Exact(s, SelectedP1, PerRank(c, SelectedP1))
    && Exact(s, PredictionP0, PerRank(c, PredictionP0))
    && (c.strategy == ZeroRawAsync ==> RawBounded(s, c))
    && (c.strategy != OtherStrategy ==> StrategyMeets(s, c))
  }

  predicate StrategyMeets(s: Summary, c: Contract)
    requires Available(c)
  {
    && Exact(s, RealP0, PerRank(c, RealP0)) && Exact(s, RealP1, PerRank(c, RealP1))
    && (forall f | f in SHADOW_FIELDS :: Exact(s, f, 0))
    && Exact(s, FinalizeDispatch, PerRank(c, FinalizeDispatch)) &&
        Exact(s, FinalizeCombine, PerRank(c, FinalizeCombine))
  }

  // Value read for a field, zero when it is missing.
  function CountOf(s: Summary, f: Field): int { if f in s.counts then s.counts[f] else 0 }

  function SumOf(summaries: seq<Summary>, f: Field): int {
    if summaries == [] then 0 else SumOf(summaries[..|summaries| - 1], f) + CountOf(summaries[|summaries| - 1], f)
  }

  predicate DistinctRanks(summaries: seq<Summary>) {
    && (forall i | 0 <= i < |summaries| :: summaries[i].rank.Some?)
    && (forall i, j | 0 <= i < j < |summaries| :: summaries[i].rank != summaries[j].rank)
  }

  /** The declared meaning of eligibility: no sum over all ranks except the none-heavy one. */
  predicate Eligible(summaries: seq<Summary>, c: Contract) {
    && Available(c)
    && DistinctRanks(summaries) && |summaries| == c.world.value
    && (forall s | s in summaries :: RankMeets(s, c))
    && SumOf(summaries, NoneHeavy) <= 0
  }

  // ---------------------------------------------------------------- sums are redundant

  lemma {:induction false} ExactSum(summaries: seq<Summary>, f: Field, expected: int)
    requires forall s | s in summaries :: Exact(s, f, expected)
    ensures SumOf(summaries, f) == expected * |summaries|
  {
    if summaries != [] {
      var rest := summaries[..|summaries| - 1];
      assert forall s | s in rest :: s in summaries;
      assert summaries[|summaries| - 1] in summaries;
      ExactSum(rest, f, expected);
      Distribute(expected, |summaries|);
    }
  }

  lemma {:induction false} BoundedSum(summaries: seq<Summary>, f: Field, bound: int)
    requires forall s | s in summaries :: f in s.counts && s.counts[f] <= bound
    ensures SumOf(summaries, f) <= bound * |summaries|
  {
    if summaries != [] {
      var rest := summaries[..|summaries| - 1];
      assert forall s | s in rest :: s in summaries;
      assert summaries[|summaries| - 1] in summaries;
      BoundedSum(rest, f, bound);
      Distribute(bound, |summaries|);
    }
  }

  lemma Distribute(x: int, n: nat)
    requires n > 0
    ensures x * n == x * (n - 1) + x
  {
  }

  // ------------------------------------------------------------------ per-rank checks

  predicate AllHave(ordered: seq<Summary>, f: Field) {
    forall s | s in ordered :: f in s.counts
  }

  predicate AllExact(ordered: seq<Summary>, f: Field, expected: int) {
    forall s | s in ordered :: Exact(s, f, expected)
  }

  method SumField(ordered: seq<Summary>, f: Field) returns (sum: int)
    ensures sum == SumOf(ordered, f)
  {
    sum := 0;
    for i := 0 to |ordered|
      invariant sum == SumOf(ordered[..i], f)
    {
      assert ordered[..i + 1][..i] == ordered[..i];
      sum := sum + CountOf(ordered[i], f);
    }
    assert ordered[..|ordered|] == ordered;
  }

  // One field of every rank against its expected value, then its sum over all ranks.
  method CheckExact(ordered: seq<Summary>, f: Field, expected: int, expectedAll: int) returns (ok: bool)
    ensures ok <==> (forall s | s in ordered :: Exact(s, f, expected)) && SumOf(ordered, f) == expectedAll
  {
    ok := true;
    var missing := false;
    for i := 0 to |ordered|
      invariant ok <==> forall s | s in ordered[..i] :: Exact(s, f, expected)
      invariant missing ==> !ok
    {
      assert forall s | s in ordered[..i + 1] :: s in ordered[..i] || s == ordered[i];
      assert ordered[i] in ordered[..i + 1] && forall s | s in ordered[..i] :: s in ordered[..i + 1];
      if f !in ordered[i].counts {
        missing := true;
        ok := false;
      } else if ordered[i].counts[f] != expected {
        ok := false;
      }
    }
    assert ordered[..|ordered|] == ordered;
    if !missing {
      var sum := SumField(ordered, f);
      if sum != expectedAll {
        ok := false;
      }
    }
  }

  method CheckEach(ordered: seq<Summary>, f: Field, expected: int) returns (ok: bool)
    ensures ok <==> AllExact(ordered, f, expected)
  {
    ok := true;
    for i := 0 to |ordered|
      invariant ok <==> forall s | s in ordered[..i] :: Exact(s, f, expected)
    {
      assert forall s | s in ordered[..i + 1] :: s in ordered[..i] || s == ordered[i];
      assert ordered[i] in ordered[..i + 1] && forall s | s in ordered[..i] :: s in ordered[..i + 1];
      if !Exact(ordered[i], f, expected) {
        ok := false;
      }
    }
    assert ordered[..|ordered|] == ordered;
  }

  method CheckPresent(ordered: seq<Summary>, f: Field) returns (ok: bool)
    ensures ok <==> AllHave(ordered, f)
  {
    ok := true;
    for i := 0 to |ordered|
      invariant ok <==> forall s | s in ordered[..i] :: f in s.counts
    {
      assert forall s | s in ordered[..i + 1] :: s in ordered[..i] || s == ordered[i];
      assert ordered[i] in ordered[..i + 1] && forall s | s in ordered[..i] :: s in ordered[..i + 1];
      if f !in ordered[i].counts {
        ok := false;
      }
    }
    assert ordered[..|ordered|] == ordered;
  }

  method CheckLayers(s: Summary, layers: seq<string>, forwards: int) returns (ok: bool)
    ensures ok <==> forall l | l in layers :: LayerCount(s, l) <= forwards
  {
    ok := true;
    for i := 0 to |layers|
      invariant ok <==> forall l | l in layers[..i] :: LayerCount(s, l) <= forwards
    {
      assert forall l | l in layers[..i + 1] :: l in layers[..i] || l == layers[i];
      assert layers[i] in layers[..i + 1] && forall l | l in layers[..i] :: l in layers[..i + 1];
      if LayerCount(s, layers[i]) > forwards {
        ok := false;
      }
    }
    assert layers[..|layers|] == layers;
  }

  method CheckRaw(ordered: seq<Summary>, c: Contract) returns (ok: bool)
    requires Available(c)
    ensures ok <==>
              (forall s | s in ordered :: RawBounded(s, c)) &&
              SumOf(ordered, RawBuild) <= PerRank(c, RawBuild) * c.world.value
  {
    ok := true;
    var missing := false;
    for i := 0 to |ordered|
      invariant ok <==> forall s | s in ordered[..i] :: RawBounded(s, c)
      invariant missing ==> !ok
    {
      assert forall s | s in ordered[..i + 1] :: s in ordered[..i] || s == ordered[i];
      assert ordered[i] in ordered[..i + 1] && forall s | s in ordered[..i] :: s in ordered[..i + 1];
      var layersOk := CheckLayers(ordered[i], c.selected.value, Forwards(c));
      if !layersOk {
        ok := false;
      }
      if RawBuild !in ordered[i].counts {
        missing := true;
        ok := false;
      } else if ordered[i].counts[RawBuild] > PerRank(c, RawBuild) {
        ok := false;
      }
    }
    assert ordered[..|ordered|] == ordered;
    if !missing {
      var sum := SumField(ordered, RawBuild);
      if sum > PerRank(c, RawBuild) * c.world.value {
        ok := false;
      }
    }
  }

  method CheckFields(ordered: seq<Summary>, fields: seq<Field>) returns (ok: bool)
    ensures ok <==> forall f | f in fields :: AllHave(ordered, f)
  {
    ok := true;
    for i := 0 to |fields|
      invariant ok <==> forall f | f in fields[..i] :: AllHave(ordered, f)
    {
      assert forall f | f in fields[..i + 1] :: f in fields[..i] || f == fields[i];
      assert fields[i] in fields[..i + 1] && forall f | f in fields[..i] :: f in fields[..i + 1];
      var present := CheckPresent(ordered, fields[i]);
      if !present {
        ok := false;
      }
    }
    assert fields[..|fields|] == fields;
  }

  method CheckZero(ordered: seq<Summary>, fields: seq<Field>) returns (ok: bool)
    ensures ok <==> forall f | f in fields :: AllExact(ordered, f, 0)
  {
    ok := true;
    for i := 0 to |fields|
      invariant ok <==> forall f | f in fields[..i] :: AllExact(ordered, f, 0)
    {
      assert forall f | f in fields[..i + 1] :: f in fields[..i] || f == fields[i];
      assert fields[i] in fields[..i + 1] && forall f | f in fields[..i] :: f in fields[..i + 1];
      var zero := CheckEach(ordered, fields[i], 0);
      if !zero {
        ok := false;
      }
    }
    assert fields[..|fields|] == fields;
  }

  method CheckStrategy(ordered: seq<Summary>, c: Contract) returns (ok: bool)
    requires Available(c)
    ensures ok <==> forall s | s in ordered :: StrategyMeets(s, c)
  {
    var real0 := CheckEach(ordered, RealP0, PerRank(c, RealP0));
    var real1 := CheckEach(ordered, RealP1, PerRank(c, RealP1));
    var shadow := CheckZero(ordered, SHADOW_FIELDS);
    var dispatch := CheckEach(ordered, FinalizeDispatch, PerRank(c, FinalizeDispatch));
    var combine := CheckEach(ordered, FinalizeCombine, PerRank(c, FinalizeCombine));
    ok := real0 && real1 && shadow && dispatch && combine;
  }

  // -------------------------------------------------------------- one summary per rank

  predicate Indexes(byRank: map<int, Summary>, summaries: seq<Summary>) {
    && (forall r: int | r in byRank :: byRank[r] in summaries && byRank[r].rank == Some(r))
    && (forall s | s in summaries && s.rank.Some? :: s.rank.value in byRank)
  }

  method CollectRanks(summaries: seq<Summary>) returns (byRank: map<int, Summary>, clean: bool)
    ensures Indexes(byRank, summaries) && (clean <==> DistinctRanks(summaries))
  {
    byRank, clean := map[], true;
    for i := 0 to |summaries|
      invariant Indexes(byRank, summaries[..i])
      invariant clean <==> DistinctRanks(summaries[..i])
    {
      var s := summaries[i];
      assert summaries[..i + 1] == summaries[..i] + [s];
      if s.rank.None? {
        assert summaries[..i + 1][i].rank.None?;
        clean := false;
      } else {
        if s.rank.value in byRank {
          RepeatedRank(summaries[..i], s, byRank);
          clean := false;
        } else {
          FreshRank(summaries[..i], s, byRank);
        }
        byRank := byRank[s.rank.value := s];
      }
    }
    assert summaries[..|summaries|] == summaries;
  }

  lemma RepeatedRank(before: seq<Summary>, s: Summary, byRank: map<int, Summary>)
    requires Indexes(byRank, before) && s.rank.Some? && s.rank.value in byRank
    ensures !DistinctRanks(before + [s])
  {
    var r: int := s.rank.value;
    var kept := byRank[r];
    assert kept in before && kept.rank == Some(r);
    var j :| 0 <= j < |before| && before[j] == kept;
    assert (before + [s])[j].rank == (before + [s])[|before|].rank;
  }

  lemma FreshRank(before: seq<Summary>, s: Summary, byRank: map<int, Summary>)
    requires Indexes(byRank, before) && s.rank.Some? && s.rank.value !in byRank
    ensures DistinctRanks(before + [s]) <==> DistinctRanks(before)
  {
    var after := before + [s];
    if DistinctRanks(before) {
      forall i, j | 0 <= i < j < |after|
        ensures after[i].rank != after[j].rank
      {
        assert after[i] in before;
      }
    }
    if DistinctRanks(after) {
      forall i, j | 0 <= i < j < |before|
        ensures before[i].rank.Some? && before[j].rank.Some? && before[i].rank != before[j].rank
      {
        assert after[i] == before[i] && after[j] == before[j];
      }
      assert forall i | 0 <= i < |before| :: after[i] == before[i];
    }
  }

  predicate KeptBeyond(byRank: map<int, Summary>, rest: set<int>, s: Summary) {
    exists r :: r in byRank && r !in rest && byRank[r] == s
  }

  lemma KeepOne(byRank: map<int, Summary>, rest: set<int>, r: int, s: Summary)
    requires r in rest && r in byRank
    ensures KeptBeyond(byRank, rest - {r}, s) <==> KeptBeyond(byRank, rest, s) || s == byRank[r]
  {
    if KeptBeyond(byRank, rest, s) {
      var q :| q in byRank && q !in rest && byRank[q] == s;
      assert q !in rest - {r};
    }
    assert r !in rest - {r};
  }

  method AnyRank(ranks: set<int>) returns (r: int)
    requires ranks != {}
    ensures r in ranks
  {
    assert (forall q: int :: q !in ranks) ==> ranks == {};
    r :| r in ranks;
  }

  // The summaries kept, one per rank, whatever the order of the ranks.
  method Kept(byRank: map<int, Summary>) returns (ordered: seq<Summary>)
    ensures |ordered| == |byRank| && forall s :: s in ordered <==> KeptBeyond(byRank, {}, s)
  {
    ordered := [];
    var rest: set<int> := byRank.Keys;
    while rest != {}
      invariant rest <= byRank.Keys && |ordered| + |rest| == |byRank.Keys|
      invariant forall s :: s in ordered <==> KeptBeyond(byRank, rest, s)
      decreases |rest|
    {
      var r := AnyRank(rest);
      forall s
        ensures KeptBeyond(byRank, rest - {r}, s) <==> KeptBeyond(byRank, rest, s) || s == byRank[r]
      {
        KeepOne(byRank, rest, r, s);
      }
      ordered := ordered + [byRank[r]];
      rest := rest - {r};
    }
  }

  // ------------------------------------------------------------------------ the verdict

  predicate ContractMet(ordered: seq<Summary>, c: Contract)
    requires Available(c)
  {
    forall s | s in ordered :: RankMeets(s, c)
  }

  method CheckContract(ordered: seq<Summary>, c: Contract, present: bool) returns (ok: bool)
    requires Available(c) && (present <==> forall f | f in FIELDS :: AllHave(ordered, f))
    ensures |ordered| == c.world.value ==> (ok && present <==> ContractMet(ordered, c))
  {
    var world := c.world.value;
    var selected0 := CheckExact(ordered, SelectedP0, PerRank(c, SelectedP0), PerRank(c, SelectedP0) * world);
    var selected1 := CheckExact(ordered, SelectedP1, PerRank(c, SelectedP1), PerRank(c, SelectedP1) * world);
    var prediction := CheckExact(ordered, PredictionP0, PerRank(c, PredictionP0), PerRank(c, PredictionP0) * world);
    ok := selected0 && selected1 && prediction;
    if c.strategy == ZeroRawAsync {
      var raw := CheckRaw(ordered, c);
      ok := ok && raw;
    }
    if c.strategy != OtherStrategy {
      var strategy := CheckStrategy(ordered, c);
      ok := ok && strategy;
    }
    if |ordered| == world {
      SumsRedundant(ordered, c);
    }
  }

  /** With one summary per rank of the world, the per-rank checks already decide the sums. */
  lemma SumsRedundant(ordered: seq<Summary>, c: Contract)
    requires Available(c) && |ordered| == c.world.value
    ensures forall f: Field :: (forall s | s in ordered :: Exact(s, f, PerRank(c, f))) ==>
              SumOf(ordered, f) == PerRank(c, f) * c.world.value
    ensures (forall s | s in ordered :: RawBounded(s, c)) ==>
              SumOf(ordered, RawBuild) <= PerRank(c, RawBuild) * c.world.value
  {
    forall f: Field | forall s | s in ordered :: Exact(s, f, PerRank(c, f))
      ensures SumOf(ordered, f) == PerRank(c, f) * c.world.value
    {
      ExactSum(ordered, f, PerRank(c, f));
    }
    if forall s | s in ordered :: RawBounded(s, c) {
      BoundedSum(ordered, RawBuild, PerRank(c, RawBuild));
    }
  }

  // ------------------------------------------------------- a sum in any order of the ranks

  lemma {:induction false} SumConcat(a: seq<Summary>, b: seq<Summary>, f: Field)
    ensures SumOf(a + b, f) == SumOf(a, f) + SumOf(b, f)
  {
    if b == [] {
      assert a + b == a;
    } else {
      SumConcat(a, b[..|b| - 1], f);
      assert (a + b)[..|a + b| - 1] == a + b[..|b| - 1];
    }
  }

  lemma SumWithout(a: seq<Summary>, i: nat, f: Field)
    requires i < |a|
    ensures SumOf(a, f) == SumOf(a[..i] + a[i + 1..], f) + CountOf(a[i], f)
  {
    assert a == a[..i] + [a[i]] + a[i + 1..];
    SumConcat(a[..i] + [a[i]], a[i + 1..], f);
    SumConcat(a[..i], [a[i]], f);
    SumConcat(a[..i], a[i + 1..], f);
    assert [a[i]][..0] == [];
  }

  lemma MoveToEnd(b: seq<Summary>, i: nat)
    requires i < |b|
    ensures multiset(b[..i] + b[i + 1..]) == multiset(b) - multiset{b[i]}
  {
    assert b == b[..i] + [b[i]] + b[i + 1..];
  }

  lemma {:induction false} SumAnyOrder(a: seq<Summary>, b: seq<Summary>, f: Field)
    requires multiset(a) == multiset(b)
    ensures SumOf(a, f) == SumOf(b, f)
    decreases |a|
  {
    if a == [] {
      assert |multiset(b)| == 0;
    } else {
      var last := |a| - 1;
      assert a[last] in multiset(b);
      var i: nat :| i < |b| && b[i] == a[last];
      MoveToEnd(a, last);
      MoveToEnd(b, i);
      SumWithout(a, last, f);
      SumWithout(b, i, f);
      SumAnyOrder(a[..last] + a[last + 1..], b[..i] + b[i + 1..], f);
    }
  }

  lemma {:induction false} NoRoomToRepeat(a: seq<Summary>, b: seq<Summary>)
    requires |a| == |b| && (forall i, j | 0 <= i < j < |a| :: a[i] != a[j]) && forall i | 0 <= i < |a| :: a[i] in b
    ensures multiset(a) == multiset(b)
    decreases |a|
  {
    if a == [] {
    } else {
      var last := |a| - 1;
      var i: nat :| i < |b| && b[i] == a[last];
      var rest, others := a[..last], b[..i] + b[i + 1..];
      MoveToEnd(b, i);
      assert a == rest + [a[last]];
      forall k | 0 <= k < |rest|
        ensures rest[k] in others
      {
        assert a[k] in b && a[k] != a[last];
      }
      NoRoomToRepeat(rest, others);
    }
  }

  lemma KeptAll(summaries: seq<Summary>, byRank: map<int, Summary>, s: Summary)
    requires DistinctRanks(summaries) && Indexes(byRank, summaries) && s in summaries
    ensures KeptBeyond(byRank, {}, s)
  {
    var r := s.rank.value;
    assert byRank[r] in summaries && byRank[r].rank == s.rank;
    assert byRank[r] == s;
  }

  lemma KeptSameSum(summaries: seq<Summary>, ordered: seq<Summary>, byRank: map<int, Summary>, f: Field)
    requires DistinctRanks(summaries) && Indexes(byRank, summaries) && |ordered| == |byRank|
    requires forall s :: s in ordered <==> KeptBeyond(byRank, {}, s)
    ensures |ordered| == |summaries| && SumOf(ordered, f) == SumOf(summaries, f)
    ensures forall s :: s in ordered <==> s in summaries
  {
    forall s | s in summaries
      ensures s in ordered
    {
      KeptAll(summaries, byRank, s);
    }
    OneEach(summaries, byRank);
    NoRoomToRepeat(summaries, ordered);
    SumAnyOrder(summaries, ordered, f);
  }

  function Ranks(summaries: seq<Summary>): set<int> {
    set s | s in summaries && s.rank.Some? :: s.rank.value
  }

  lemma {:induction false} RanksCount(summaries: seq<Summary>)
    requires DistinctRanks(summaries)
    ensures |Ranks(summaries)| == |summaries|
  {
    if summaries != [] {
      var rest, last := summaries[..|summaries| - 1], summaries[|summaries| - 1];
      assert summaries == rest + [last];
      assert forall k | 0 <= k < |rest| :: rest[k] == summaries[k];
      RanksCount(rest);
      assert Ranks(summaries) == Ranks(rest) + {last.rank.value};
    }
  }

  // As many ranks as summaries.
  lemma OneEach(summaries: seq<Summary>, byRank: map<int, Summary>)
    requires DistinctRanks(summaries) && Indexes(byRank, summaries)
    ensures |byRank| == |summaries|
  {
    RanksCount(summaries);
    forall r: int
      ensures r in byRank <==> r in Ranks(summaries)
    {
      if r in byRank {
        assert byRank[r] in summaries && byRank[r].rank == Some(r);
      }
      if r in Ranks(summaries) {
        var s :| s in summaries && s.rank == Some(r);
        assert s.rank.value in byRank;
      }
    }
    assert byRank.Keys == Ranks(summaries);
  }

  /** The verdict is exactly the declared eligibility: ranks distinct and as many as the world,
      every field present, every rank meeting its contract. */
  method AggregateHotpath(summaries: seq<Summary>, c: Contract) returns (eligible: bool)
    ensures eligible <==> Eligible(summaries, c)
  {
    var byRank, distinct := CollectRanks(summaries);
    var clean := distinct;
    if c.world.Some? && |byRank| != c.world.value {
      clean := false;
    }
    var ordered := Kept(byRank);
    var present := CheckFields(ordered, FIELDS);
    clean := clean && present;
    var counted := CheckPresent(ordered, NoneHeavy);
    var noneHeavy := SumField(ordered, NoneHeavy);
    if counted && noneHeavy > 0 {
      clean := false;
    }
    if distinct {
      KeptSameSum(summaries, ordered, byRank, NoneHeavy);
    }
    if !Available(c) {
      return false;
    }
    var met := CheckContract(ordered, c, present);
    eligible := clean && met;
  }
}
