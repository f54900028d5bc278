// Exhaustive matching.
module ExactMatching {
  // The search for a maximum-weight matching of sources and destinations.

  import opened Wrappers
  import opened Totals

  // The destination of every source, if it has one.
  type Matching = seq<Option<nat>>

  predicate Distinct(m: Matching) {
    forall i, j | 0 <= i < j < |m| && m[i].Some? :: m[i] != m[j]
  }

  // Every chosen pair has a positive weight and a free destination; at is the first source.
  predicate Admissible(w: Weight, m: Matching, at: nat, dests: nat, used: set<nat>) {
    && Distinct(m)
    && forall k | 0 <= k < |m| && m[k].Some? :: m[k].value < dests && m[k].value !in used && w(at + k, m[k].value) > 0
  }

  function PairWeight(w: Weight, src: nat, dst: Option<nat>): int {
    if dst.Some? then w(src, dst.value) else 0
  }

  function WeightOf(w: Weight, m: Matching, at: nat): int {
    if m == [] then 0 else PairWeight(w, at, m[0]) + WeightOf(w, m[1..], at + 1)
  }

  /** Best choice for the sources from at on: skip the first one, or try each free destination. */
  function Search(w: Weight, at: nat, sources: nat, dests: nat, used: set<nat>): (best: Matching)
    requires at <= sources
    ensures |best| == sources - at
    decreases sources - at, dests + 1
  {
    if at == sources then [] else TryDestinations(w, at, sources, dests, used, dests)
  }

  function TryDestinations(w: Weight, at: nat, sources: nat, dests: nat, used: set<nat>, d: nat): (best: Matching)
    requires at < sources && d <= dests
    ensures |best| == sources - at
    decreases sources - at, d
  {
    if d == 0 then [None] + Search(w, at + 1, sources, dests, used) else
      var best := TryDestinations(w, at, sources, dests, used, d - 1);
      if d - 1 in used || w(at, d - 1) <= 0 then best else
        var candidate := [Some(d - 1)] + Search(w, at + 1, sources, dests, used + {d - 1});
        if WeightOf(w, candidate, at) > WeightOf(w, best, at) then candidate else best
  }

  lemma WeightCons(w: Weight, head: Option<nat>, tail: Matching, at: nat)
    ensures WeightOf(w, [head] + tail, at) == PairWeight(w, at, head) + WeightOf(w, tail, at + 1)
  {
    assert ([head] + tail)[1..] == tail;
  }

  lemma AdmissibleCons(w: Weight, head: Option<nat>, tail: Matching, at: nat, dests: nat, used: set<nat>)
    requires head.Some? ==> head.value < dests && head.value !in used && w(at, head.value) > 0
    requires Admissible(w, tail, at + 1, dests, if head.Some? then used + {head.value} else used)
    ensures Admissible(w, [head] + tail, at, dests, used)
  {
    var m := [head] + tail;
    forall k | 0 <= k < |m| && m[k].Some?
      ensures m[k].value < dests && m[k].value !in used && w(at + k, m[k].value) > 0
    {
      if k > 0 { assert m[k] == tail[k - 1]; assert at + k == at + 1 + (k - 1); }
    }
    forall i, j | 0 <= i < j < |m| && m[i].Some?
      ensures m[i] != m[j]
    {
      assert m[j] == tail[j - 1];
      if i > 0 { assert m[i] == tail[i - 1]; }
    }
  }

  /** The search returns a matching of positive pairs with free destinations. */
  lemma {:induction false} SearchAdmissible(w: Weight, at: nat, sources: nat, dests: nat, used: set<nat>)
    requires at <= sources
    ensures Admissible(w, Search(w, at, sources, dests, used), at, dests, used)
    decreases sources - at, dests + 1
  {
    if at < sources { TryAdmissible(w, at, sources, dests, used, dests); }
  }

  lemma {:induction false} TryAdmissible(w: Weight, at: nat, sources: nat, dests: nat, used: set<nat>, d: nat)
    requires at < sources && d <= dests
    ensures Admissible(w, TryDestinations(w, at, sources, dests, used, d), at, dests, used)
    decreases sources - at, d
  {
    hide Admissible, WeightOf;
    if d == 0 {
      SearchAdmissible(w, at + 1, sources, dests, used);
      AdmissibleCons(w, None, Search(w, at + 1, sources, dests, used), at, dests, used);
    } else {
      TryAdmissible(w, at, sources, dests, used, d - 1);
      if d - 1 !in used && w(at, d - 1) > 0 {
        SearchAdmissible(w, at + 1, sources, dests, used + {d - 1});
        AdmissibleCons(w, Some(d - 1), Search(w, at + 1, sources, dests, used + {d - 1}), at, dests, used);
      }
    }
  }

  lemma AdmissibleTail(w: Weight, m: Matching, at: nat, dests: nat, used: set<nat>)
    requires m != [] && Admissible(w, m, at, dests, used)
    ensures Admissible(w, m[1..], at + 1, dests, if m[0].Some? then used + {m[0].value} else used)
  {
    var tail := m[1..];
    forall k | 0 <= k < |tail| && tail[k].Some?
      ensures tail[k].value < dests && tail[k].value !in (if m[0].Some? then used + {m[0].value} else used) &&
              w(at + 1 + k, tail[k].value) > 0
    {
      assert tail[k] == m[k + 1] && at + 1 + k == at + (k + 1);
    }
    forall i, j | 0 <= i < j < |tail| && tail[i].Some?
      ensures tail[i] != tail[j]
    {
      assert tail[i] == m[i + 1] && tail[j] == m[j + 1];
    }
  }

  /** No matching of positive pairs is heavier than the one the search returns. */
  lemma {:induction false} SearchOptimal(w: Weight, at: nat, sources: nat, dests: nat, used: set<nat>, m: Matching)
    requires at <= sources && |m| == sources - at && Admissible(w, m, at, dests, used)
    ensures WeightOf(w, m, at) <= WeightOf(w, Search(w, at, sources, dests, used), at)
    decreases sources - at, dests + 1
  {
    if at < sources {
      TryOptimal(w, at, sources, dests, used, dests, m);
    }
  }

  // Tried destinations cannot beat the best so far.
  lemma {:induction false} TryOptimal(w: Weight, at: nat, sources: nat, dests: nat, used: set<nat>, d: nat, m: Matching)
    requires at < sources && d <= dests && |m| == sources - at && Admissible(w, m, at, dests, used)
    requires m[0].Some? ==> m[0].value < d
    ensures WeightOf(w, m, at) <= WeightOf(w, TryDestinations(w, at, sources, dests, used, d), at)
    decreases sources - at, d
  {
    AdmissibleTail(w, m, at, dests, used);
    if d == 0 {
      SearchOptimal(w, at + 1, sources, dests, used, m[1..]);
      WeightCons(w, None, Search(w, at + 1, sources, dests, used), at);
    } else if m[0] == Some(d - 1) {
      assert d - 1 !in used && w(at + 0, d - 1) > 0;
      SearchOptimal(w, at + 1, sources, dests, used + {d - 1}, m[1..]);
      WeightCons(w, Some(d - 1), Search(w, at + 1, sources, dests, used + {d - 1}), at);
    } else {
      TryOptimal(w, at, sources, dests, used, d - 1, m);
    }
  }

  // Whether m is a heaviest matching of sources and destinations.
  ghost predicate MaximumWeight(w: Weight, sources: nat, dests: nat, m: Matching) {
    && |m| == sources && Admissible(w, m, 0, dests, {})
    && forall other: Matching | |other| == sources && Admissible(w, other, 0, dests, {}) ::
        WeightOf(w, other, 0) <= WeightOf(w, m, 0)
  }

  lemma SearchIsMaximum(w: Weight, sources: nat, dests: nat)
    ensures MaximumWeight(w, sources, dests, Search(w, 0, sources, dests, {}))
  {
    SearchAdmissible(w, 0, sources, dests, {});
    forall other: Matching | |other| == sources && Admissible(w, other, 0, dests, {})
      ensures WeightOf(w, other, 0) <= WeightOf(w, Search(w, 0, sources, dests, {}), 0)
    {
      SearchOptimal(w, 0, sources, dests, {}, other);
    }
  }

  lemma {:induction false} NothingChosen(w: Weight, m: Matching, at: nat)
    requires forall k | 0 <= k < |m| :: m[k].None?
    ensures WeightOf(w, m, at) == 0
  {
    if m != [] { NothingChosen(w, m[1..], at + 1); }
  }

  lemma {:induction false} OneChosen(w: Weight, m: Matching, at: nat, i: nat)
    requires i < |m| && m[i].Some? && forall k | 0 <= k < |m| && k != i :: m[k].None?
    ensures WeightOf(w, m, at) == w(at + i, m[i].value)
  {
    if i == 0 {
      NothingChosen(w, m[1..], at + 1);
    } else {
      OneChosen(w, m[1..], at + 1, i - 1);
    }
  }

  /** A heaviest matching is only empty when no pair has a positive weight. */
  lemma MaximumNotEmpty(w: Weight, sources: nat, dests: nat, m: Matching, i: nat, d: nat)
    requires MaximumWeight(w, sources, dests, m) && i < sources && d < dests && w(i, d) > 0
    ensures exists k :: 0 <= k < |m| && m[k].Some?
  {
    var single: Matching := seq(sources, k requires 0 <= k < sources => if k == i then Some(d) else None);
    OneChosen(w, single, 0, i);
    assert Admissible(w, single, 0, dests, {});
    if forall k | 0 <= k < |m| :: m[k].None? { NothingChosen(w, m, 0); }
  }
}
