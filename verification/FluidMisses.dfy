// Missed horizons.
module FluidMisses {
  // On every pattern with a path of four entries peeling heaviest matchings overshoots the optimal
  // horizon, first for some choice among them and then for every choice.

  import opened Wrappers
  import opened Totals
  import opened Transfers
  import opened ExactMatching
  import opened FluidDecomposition
  import opened FluidPatterns

  // ------------------------------------------------------------------- where it fails

  // One row on each of the given entries.
  function Ones(n: nat, on: set<(nat, nat)>): (m: Matrix)
    ensures Square(m, n)
  {
    seq(n, i requires 0 <= i < n => seq(n, j requires 0 <= j < n => if (i, j) in on then 1 else 0))
  }

  function NoPairs(n: nat): (m: Matching)
    ensures |m| == n && forall k | 0 <= k < n :: m[k].None?
  {
    seq(n, _ => None)
  }

  // Weights of at most one, positive only in the given rows or columns, cannot outweigh their number.
  lemma {:induction false} CoverBound(w: Weight, m: Matching, at: nat, rows: set<nat>, cols: set<nat>)
    requires Distinct(m) && forall i: nat, j: nat :: w(i, j) <= 1
    requires forall k | 0 <= k < |m| && m[k].Some? && w(at + k, m[k].value) > 0 :: at + k in rows || m[k].value in cols
    ensures WeightOf(w, m, at) <= |rows| + |cols|
  {
    if m != [] {
      var tail := m[1..];
      var rows', cols' := rows, cols;
      if m[0].Some? && w(at, m[0].value) > 0 {
        if at in rows { rows' := rows - {at}; } else { assert at + 0 == at; cols' := cols - {m[0].value}; }
      }
      forall i, j | 0 <= i < j < |tail| && tail[i].Some?
        ensures tail[i] != tail[j]
      {
        assert tail[i] == m[i + 1] && tail[j] == m[j + 1];
      }
      forall k | 0 <= k < |tail| && tail[k].Some? && w(at + 1 + k, tail[k].value) > 0
        ensures at + 1 + k in rows' || tail[k].value in cols'
      {
        assert m[k + 1] == tail[k] && at + (k + 1) == at + 1 + k;
      }
      CoverBound(w, tail, at + 1, rows', cols');
    }
  }

  // The wave that serves one row of each of its entries.
  ghost predicate UnitWave(n: nat, on: set<(nat, nat)>, m: Matching) {
    && |m| == n && Distinct(m) && (exists k :: 0 <= k < n && m[k].Some?)
    && forall k: nat | k < n && m[k].Some? :: m[k].value < n && (k, m[k].value) in on
  }

  lemma UnitFits(n: nat, on: set<(nat, nat)>, m: Matching, rows: set<nat>, cols: set<nat>)
    requires UnitWave(n, on, m) && WeightOf(Residual(Ones(n, on)), m, 0) == |rows| + |cols|
    requires forall i: nat, j: nat | (i, j) in on :: i in rows || j in cols
    ensures Fits(Ones(n, on), Wave(m, 1))
  {
    var r := Ones(n, on);
    var w := Residual(r);
    assert Admissible(w, m, 0, n, {}) by {
      forall k | 0 <= k < n && m[k].Some?
        ensures w(0 + k, m[k].value) > 0
      {
        assert r[k][m[k].value] == 1;
      }
    }
    forall other: Matching | |other| == n && Admissible(w, other, 0, n, {})
      ensures WeightOf(w, other, 0) <= WeightOf(w, m, 0)
    {
      forall k: nat | k < |other| && other[k].Some? && w(0 + k, other[k].value) > 0
        ensures 0 + k in rows || other[k].value in cols
      {
        assert (k, other[k].value) in on;
      }
      CoverBound(w, other, 0, rows, cols);
    }
    var k :| 0 <= k < n && m[k].Some?;
    assert r[k][m[k].value] == 1;
  }

  lemma UnitServe(n: nat, on: set<(nat, nat)>, m: Matching, left: set<(nat, nat)>)
    requires UnitWave(n, on, m) && left <= on
    requires forall i: nat, j: nat | (i, j) in on && i < n && j < n :: (i, j) in left <==> m[i] != Some(j)
    ensures Serves(Ones(n, on), Wave(m, 1)) && Serve(Ones(n, on), Wave(m, 1)) == Ones(n, left)
  {
    var r, w := Ones(n, on), Wave(m, 1);
    forall i | 0 <= i < n && m[i].Some?
      ensures r[i][m[i].value] == 1
    {
    }
    var next, target := Serve(r, w), Ones(n, left);
    forall i: nat | i < n
      ensures next[i] == target[i]
    {
      forall j: nat | j < n
        ensures next[i][j] == target[i][j]
      {
        assert next[i][j] == r[i][j] - ServedAt(w, i, j);
      }
    }
  }

  // A first wave of two entries off the centre, then the two entries at the centre one by one.
  ghost predicate Misses(n: nat, a: (nat, nat), b: (nat, nat), c: (nat, nat), d: (nat, nat)) {
    && a.0 < n && a.1 < n && b.0 < n && b.1 < n && c.0 < n && c.1 < n && d.0 < n && d.1 < n
    && a.0 != b.0 && a.1 != b.1 && c != d
    && a != c && a != d && b != c && b != d
    && a.0 != a.1 && b.0 != b.1 && c.0 != c.1 && d.0 != d.1
  }

  function Pair(n: nat, a: (nat, nat)): (m: Matching)
    requires a.0 < n
    ensures |m| == n
  {
    NoPairs(n)[a.0 := Some(a.1)]
  }

  function TwoPairs(n: nat, a: (nat, nat), b: (nat, nat)): (m: Matching)
    requires a.0 < n && b.0 < n
    ensures |m| == n
  {
    Pair(n, a)[b.0 := Some(b.1)]
  }

  lemma PairWeighs(n: nat, on: set<(nat, nat)>, a: (nat, nat))
    requires a in on && a.0 < n && a.1 < n
    ensures WeightOf(Residual(Ones(n, on)), Pair(n, a), 0) == 1
  {
    NothingChosen(Residual(Ones(n, on)), NoPairs(n), 0);
    WeightUpdate(Residual(Ones(n, on)), NoPairs(n), 0, a.0, a.1);
  }

  lemma TwoPairsWeigh(n: nat, on: set<(nat, nat)>, a: (nat, nat), b: (nat, nat))
    requires a in on && a.0 < n && a.1 < n && b in on && b.0 < n && b.1 < n && a.0 != b.0
    ensures WeightOf(Residual(Ones(n, on)), TwoPairs(n, a, b), 0) == 2
  {
    PairWeighs(n, on, a);
    WeightUpdate(Residual(Ones(n, on)), Pair(n, a), 0, b.0, b.1);
  }

  // The single entry c is peeled off ones that share a row or a column with it.
  lemma PeelOne(n: nat, on: set<(nat, nat)>, c: (nat, nat), rows: set<nat>, cols: set<nat>)
    requires c in on && c.0 < n && c.1 < n && |rows| + |cols| == 1
    requires forall i: nat, j: nat | (i, j) in on :: i in rows || j in cols
    ensures Fits(Ones(n, on), Wave(Pair(n, c), 1)) && Serves(Ones(n, on), Wave(Pair(n, c), 1))
    ensures Serve(Ones(n, on), Wave(Pair(n, c), 1)) == Ones(n, on - {c})
  {
    var m := Pair(n, c);
    assert m[c.0] == Some(c.1);
    PairWeighs(n, on, c);
    UnitFits(n, on, m, rows, cols);
    UnitServe(n, on, m, on - {c});
  }

  lemma TwoPairsWave(n: nat, on: set<(nat, nat)>, a: (nat, nat), b: (nat, nat))
    requires a in on && a.0 < n && a.1 < n && b in on && b.0 < n && b.1 < n && a.0 != b.0 && a.1 != b.1
    ensures UnitWave(n, on, TwoPairs(n, a, b))
    ensures forall i: nat, j: nat | i < n :: TwoPairs(n, a, b)[i] == Some(j) <==> (i, j) in {a, b}
  {
    var m := TwoPairs(n, a, b);
    assert m[a.0] == Some(a.1) && m[b.0] == Some(b.1);
    assert forall k | 0 <= k < n && k != a.0 && k != b.0 :: m[k].None?;
  }

  lemma PeelTwo(n: nat, on: set<(nat, nat)>, a: (nat, nat), b: (nat, nat), rows: set<nat>, cols: set<nat>)
    requires a in on && a.0 < n && a.1 < n && b in on && b.0 < n && b.1 < n && a.0 != b.0 && a.1 != b.1
    requires |rows| + |cols| == 2 && forall i: nat, j: nat | (i, j) in on :: i in rows || j in cols
    ensures Fits(Ones(n, on), Wave(TwoPairs(n, a, b), 1)) && Serves(Ones(n, on), Wave(TwoPairs(n, a, b), 1))
    ensures Serve(Ones(n, on), Wave(TwoPairs(n, a, b), 1)) == Ones(n, on - {a, b})
  {
    hide Ones, Fits, Serves, Serve, TwoPairs;
    var m := TwoPairs(n, a, b);
    TwoPairsWave(n, on, a, b);
    TwoPairsWeigh(n, on, a, b);
    UnitFits(n, on, m, rows, cols);
    UnitServe(n, on, m, on - {a, b});
  }

  lemma OnesDiagonal(n: nat, on: set<(nat, nat)>)
    requires forall i: nat, j: nat | (i, j) in on :: i != j
    ensures ZeroDiagonal(Ones(n, on)) && Canonical(Ones(n, on)) == Ones(n, on)
  {
    var r := Ones(n, on);
    forall i: nat | i < n
      ensures Canonical(r)[i] == r[i]
    {
    }
  }

  /** The run of three unit waves over four entries: first the outer two, then the centre ones. */
  lemma ThreeWaves(n: nat, a: (nat, nat), b: (nat, nat), c: (nat, nat), d: (nat, nat), rows: set<nat>, cols: set<nat>,
                   centreRows: set<nat>, centreCols: set<nat>)
    returns (states: seq<Matrix>, waves: seq<Wave>)
    requires Misses(n, a, b, c, d) && |rows| + |cols| == 2 && |centreRows| + |centreCols| == 1
    requires forall i: nat, j: nat | (i, j) in {a, b, c, d} :: i in rows || j in cols
    requires forall i: nat, j: nat | (i, j) in {c, d} :: i in centreRows || j in centreCols
    ensures Decomposes(Ones(n, {a, b, c, d}), states, waves) && Heaviest(states, waves) && Emitted(waves, |waves|) == 3
    ensures waves == [Wave(TwoPairs(n, a, b), 1), Wave(Pair(n, c), 1), Wave(Pair(n, d), 1)]
  {
    hide Fits, Serves, Serve, Ones, Canonical, TwoPairs, Pair, Heaviest, Run;
    var all: set<(nat, nat)> := {a, b, c, d};
    var w1, w2, w3 := Wave(TwoPairs(n, a, b), 1), Wave(Pair(n, c), 1), Wave(Pair(n, d), 1);
    PeelTwo(n, all, a, b, rows, cols);
    assert all - {a, b} == {c, d};
    PeelOne(n, {c, d}, c, centreRows, centreCols);
    assert {c, d} - {c} == {d};
    PeelOne(n, {d}, d, centreRows, centreCols);
    assert {d} - {d} == {};
    OnesDiagonal(n, all);
    states, waves := StartRun(n, all);
    ExtendRun(states, waves, w1, Ones(n, {c, d}));
    states, waves := states + [Ones(n, {c, d})], waves + [w1];
    ExtendRun(states, waves, w2, Ones(n, {d}));
    states, waves := states + [Ones(n, {d})], waves + [w2];
    ExtendRun(states, waves, w3, Ones(n, {}));
    states, waves := states + [Ones(n, {})], waves + [w3];
    NothingLeft(n);
    assert Emitted(waves, 0) == 0 && Emitted(waves, 1) == 1 && Emitted(waves, 2) == 2;
  }

  lemma StartRun(n: nat, on: set<(nat, nat)>) returns (states: seq<Matrix>, waves: seq<Wave>)
    requires ZeroDiagonal(Ones(n, on))
    ensures states == [Ones(n, on)] && waves == [] && Run(states, waves) && Heaviest(states, waves)
  {
    states, waves := [Ones(n, on)], [];
  }

  lemma NothingLeft(n: nat)
    ensures Drained(Ones(n, {}))
  {
  }

  // No port takes part in all three waves, so none is as loaded as the run is long.
  lemma ThreeWavesMiss(n: nat, a: (nat, nat), b: (nat, nat), c: (nat, nat), d: (nat, nat), states: seq<Matrix>,
                       waves: seq<Wave>)
    requires Misses(n, a, b, c, d) && Decomposes(Ones(n, {a, b, c, d}), states, waves)
    requires waves == [Wave(TwoPairs(n, a, b), 1), Wave(Pair(n, c), 1), Wave(Pair(n, d), 1)]
    requires c.0 == d.0 ==> c.0 != a.0 && c.0 != b.0
    requires c.1 == d.1 ==> c.1 != a.1 && c.1 != b.1
    ensures PortLoad(Ones(n, {a, b, c, d})) < Emitted(waves, |waves|)
  {
    hide Run, Drained, Ones, PortLoad;
    CertificateHoldsIff(Ones(n, {a, b, c, d}), states, waves);
    forall port: Port | port.rank < n
      ensures !(Busy(waves[0], port) && Busy(waves[1], port) && Busy(waves[2], port))
    {
      BusyPairs(n, a, b, port);
      BusyPair(n, c, port);
      BusyPair(n, d, port);
    }
  }

  lemma BusyPair(n: nat, a: (nat, nat), port: Port)
    requires a.0 < n
    ensures Busy(Wave(Pair(n, a), 1), port) <==> port == Send(a.0) || port == Recv(a.1)
  {
    var m := Pair(n, a);
    assert m[a.0] == Some(a.1);
  }

  lemma BusyPairs(n: nat, a: (nat, nat), b: (nat, nat), port: Port)
    requires a.0 < n && b.0 < n && a.0 != b.0
    ensures Busy(Wave(TwoPairs(n, a, b), 1), port) <==> port in {Send(a.0), Recv(a.1), Send(b.0), Recv(b.1)}
  {
    var m := TwoPairs(n, a, b);
    assert m[a.0] == Some(a.1) && m[b.0] == Some(b.1);
  }

  ghost predicate MissesOn(pattern: Matrix, matrix: Matrix, states: seq<Matrix>, waves: seq<Wave>)
    requires Square(pattern, |pattern|)
  {
    && Decomposes(matrix, states, waves) && Heaviest(states, waves) && Within(matrix, pattern)
    && PortLoad(matrix) < Emitted(waves, |waves|)
  }

  lemma OnesWithin(pattern: Matrix, on: set<(nat, nat)>)
    requires Square(pattern, |pattern|) && forall i: nat, j: nat | (i, j) in on :: Edge(pattern, i, j)
    ensures Within(Ones(|pattern|, on), pattern)
  {
  }

  /** On every pattern with a path of four entries, one row on each of them makes a heaviest-matching
      run take 3 where 2 suffice. */
  lemma FourPathMisses(pattern: Matrix) returns (matrix: Matrix, states: seq<Matrix>, waves: seq<Wave>)
    requires Square(pattern, |pattern|) && HasFourPath(pattern)
    ensures MissesOn(pattern, matrix, states, waves) && Emitted(waves, |waves|) == 3
  {
    hide Heaviest, Decomposes, Ones, PortLoad;
    var n := |pattern|;
    if r: nat, i: nat, i': nat, j: nat, j': nat :| ThroughRecv(pattern, r, i, i', j, j') {
      matrix := Ones(n, {(i, j), (i', j'), (i, r), (i', r)});
      states, waves := ThreeWaves(n, (i, j), (i', j'), (i, r), (i', r), {i, i'}, {}, {}, {r});
      ThreeWavesMiss(n, (i, j), (i', j'), (i, r), (i', r), states, waves);
      OnesWithin(pattern, {(i, j), (i', j'), (i, r), (i', r)});
    } else {
      var s: nat, j: nat, j': nat, i: nat, i': nat :| ThroughSend(pattern, s, j, j', i, i');
      matrix := Ones(n, {(i, j), (i', j'), (s, j), (s, j')});
      states, waves := ThreeWaves(n, (i, j), (i', j'), (s, j), (s, j'), {}, {j, j'}, {s}, {});
      ThreeWavesMiss(n, (i, j), (i', j'), (s, j), (s, j'), states, waves);
      OnesWithin(pattern, {(i, j), (i', j'), (s, j), (s, j')});
    }
  }

  // However ties are broken, every matrix on the pattern is decomposed within its optimal horizon.
  ghost predicate AlwaysOptimal(pattern: Matrix)
    requires Square(pattern, |pattern|)
  {
    forall matrix, states, waves | Decomposes(matrix, states, waves) && Heaviest(states, waves) &&
        Within(matrix, pattern) ::
      Emitted(waves, |waves|) == PortLoad(matrix)
  }

  /** The certificate holds for all traffic on a pattern exactly when the pattern has no path of
      four entries. */
  lemma OptimalIffShortPaths(pattern: Matrix)
    requires Square(pattern, |pattern|)
    ensures AlwaysOptimal(pattern) <==> !HasFourPath(pattern)
  {
    hide HasFourPath, PortLoad, Run, Drained, Heaviest, Within;
    if !HasFourPath(pattern) {
      forall matrix, states, waves | Decomposes(matrix, states, waves) && Heaviest(states, waves) &&
          Within(matrix, pattern)
        ensures Emitted(waves, |waves|) == PortLoad(matrix)
      {
        HeaviestRunIsMaximal(matrix, states, waves);
        ShortPathsOptimal(pattern, matrix, states, waves);
      }
    } else {
      var matrix, states, waves := FourPathMisses(pattern);
    }
  }

  lemma HeaviestRunIsMaximal(matrix: Matrix, states: seq<Matrix>, waves: seq<Wave>)
    requires Decomposes(matrix, states, waves) && Heaviest(states, waves)
    ensures AllMaximal(states, waves)
  {
    hide Fits, Maximal, Drained;
    forall k | 0 <= k < |waves|
      ensures Maximal(states[k], waves[k])
    {
      HeaviestIsMaximal(states[k], waves[k]);
    }
  }

  // ------------------------------------------------------------------- where no tie-breaking helps

  // The outer entries carry two rows, those at the centre one.
  function Heavy(n: nat, a: (nat, nat), b: (nat, nat), c: (nat, nat), d: (nat, nat)): (m: Matrix)
    ensures Square(m, n)
  {
    MatrixSum(Ones(n, {a, b, c, d}), Ones(n, {a, b}))
  }

  predicate OnPort(e: (nat, nat), port: Port) {
    match port
    case Send(r) => e.0 == r
    case Recv(r) => e.1 == r
  }

  // The centre entries, and no others, are on the centre port, and each touches an outer one.
  ghost predicate Centred(n: nat, a: (nat, nat), b: (nat, nat), c: (nat, nat), d: (nat, nat), centre: Port) {
    && Misses(n, a, b, c, d) && centre.rank < n && OnPort(c, centre) && OnPort(d, centre) && !OnPort(a, centre) &&
        !OnPort(b, centre)
    && (c.0 == a.0 || c.1 == a.1) && (d.0 == b.0 || d.1 == b.1)
  }

  // Rows or columns that cover the four entries.
  ghost predicate Covers(a: (nat, nat), b: (nat, nat), c: (nat, nat), d: (nat, nat), rows: set<nat>, cols: set<nat>) {
    |rows| + |cols| == 2 && forall i: nat, j: nat | (i, j) in {a, b, c, d} :: i in rows || j in cols
  }

  lemma {:induction false} WeightsAdd(w: Weight, u: Weight, v: Weight, m: Matching, at: nat)
    requires forall i: nat, j: nat :: w(i, j) == u(i, j) + v(i, j)
    ensures WeightOf(w, m, at) == WeightOf(u, m, at) + WeightOf(v, m, at)
  {
    if m != [] { WeightsAdd(w, u, v, m[1..], at + 1); }
  }

  lemma HeavyWeight(n: nat, a: (nat, nat), b: (nat, nat), c: (nat, nat), d: (nat, nat), m: Matching)
    ensures WeightOf(Residual(Heavy(n, a, b, c, d)), m, 0) ==
            WeightOf(Residual(Ones(n, {a, b, c, d})), m, 0) + WeightOf(Residual(Ones(n, {a, b})), m, 0)
  {
    WeightsAdd(Residual(Heavy(n, a, b, c, d)), Residual(Ones(n, {a, b, c, d})), Residual(Ones(n, {a, b})), m, 0);
  }

  lemma FourBound(n: nat, a: (nat, nat), b: (nat, nat), c: (nat, nat), d: (nat, nat), rows: set<nat>, cols: set<nat>,
                  m: Matching)
    requires Covers(a, b, c, d, rows, cols) && |m| == n && Distinct(m)
    ensures WeightOf(Residual(Ones(n, {a, b, c, d})), m, 0) <= 2
  {
    var four := Residual(Ones(n, {a, b, c, d}));
    forall k: nat | k < |m| && m[k].Some? && four(0 + k, m[k].value) > 0
      ensures 0 + k in rows || m[k].value in cols
    {
      assert (k, m[k].value) in {a, b, c, d};
    }
    CoverBound(four, m, 0, rows, cols);
  }

  lemma TwoBound(n: nat, missing: (nat, nat), other: (nat, nat), m: Matching)
    requires |m| == n && Distinct(m) && missing.0 < n && m[missing.0] != Some(missing.1)
    ensures WeightOf(Residual(Ones(n, {missing, other})), m, 0) <= 1
  {
    var two := Residual(Ones(n, {missing, other}));
    forall k: nat | k < |m| && m[k].Some? && two(0 + k, m[k].value) > 0
      ensures 0 + k in {other.0} || m[k].value in {}
    {
      assert (k, m[k].value) in {missing, other};
    }
    CoverBound(two, m, 0, {other.0}, {});
  }

  // A matching without one of the outer entries weighs at most three.
  lemma LightWithoutOuter(n: nat, a: (nat, nat), b: (nat, nat), c: (nat, nat), d: (nat, nat), rows: set<nat>,
                          cols: set<nat>, m: Matching)
    requires Misses(n, a, b, c, d) && Covers(a, b, c, d, rows, cols) && |m| == n && Distinct(m)
    requires m[a.0] != Some(a.1) || m[b.0] != Some(b.1)
    ensures WeightOf(Residual(Heavy(n, a, b, c, d)), m, 0) <= 3
  {
    MissesInRange(n, a, b, c, d);
    hide Heavy, Ones, Residual, Covers, Misses, Distinct;
    HeavyWeight(n, a, b, c, d, m);
    FourBound(n, a, b, c, d, rows, cols, m);
    if m[a.0] != Some(a.1) {
      TwoBound(n, a, b, m);
    } else {
      assert {b, a} == {a, b};
      TwoBound(n, b, a, m);
    }
  }

  lemma OuterPairAdmissible(n: nat, a: (nat, nat), b: (nat, nat), c: (nat, nat), d: (nat, nat))
    requires Misses(n, a, b, c, d)
    ensures Admissible(Residual(Heavy(n, a, b, c, d)), TwoPairs(n, a, b), 0, n, {})
    ensures WeightOf(Residual(Heavy(n, a, b, c, d)), TwoPairs(n, a, b), 0) == 4
  {
    TwoPairsWave(n, {a, b}, a, b);
    HeavyWeight(n, a, b, c, d, TwoPairs(n, a, b));
    TwoPairsWeigh(n, {a, b, c, d}, a, b);
    TwoPairsWeigh(n, {a, b}, a, b);
    var m := TwoPairs(n, a, b);
    forall k: nat | k < n && m[k].Some?
      ensures Residual(Heavy(n, a, b, c, d))(0 + k, m[k].value) > 0
    {
      assert (k, m[k].value) in {a, b};
    }
  }

  // Every heaviest matching takes both outer entries.
  lemma OuterFirst(n: nat, a: (nat, nat), b: (nat, nat), c: (nat, nat), d: (nat, nat), rows: set<nat>, cols: set<nat>,
                   m: Matching)
    requires Misses(n, a, b, c, d) && Covers(a, b, c, d, rows, cols) &&
             MaximumWeight(Residual(Heavy(n, a, b, c, d)), n, n, m)
    ensures m[a.0] == Some(a.1) && m[b.0] == Some(b.1)
  {
    MissesInRange(n, a, b, c, d);
    hide Heavy, Residual, Misses, Covers;
    OuterPairAdmissible(n, a, b, c, d);
    assert WeightOf(Residual(Heavy(n, a, b, c, d)), TwoPairs(n, a, b), 0) <=
           WeightOf(Residual(Heavy(n, a, b, c, d)), m, 0);
    if m[a.0] != Some(a.1) || m[b.0] != Some(b.1) { LightWithoutOuter(n, a, b, c, d, rows, cols, m); }
  }

  lemma MissesInRange(n: nat, a: (nat, nat), b: (nat, nat), c: (nat, nat), d: (nat, nat))
    requires Misses(n, a, b, c, d)
    ensures a.0 < n && a.1 < n && b.0 < n && b.1 < n && a.0 != b.0 && a.1 != b.1
  {
  }

  lemma HeavyEntries(n: nat, a: (nat, nat), b: (nat, nat), c: (nat, nat), d: (nat, nat), i: nat, j: nat)
    requires Misses(n, a, b, c, d) && i < n && j < n
    ensures Heavy(n, a, b, c, d)[i][j] ==
              if (i, j) == a || (i, j) == b then 2 else if (i, j) == c || (i, j) == d then 1 else 0
  {
  }

  // So the first wave serves two rows and leaves the centre idle.
  lemma FirstWaveIdlesCentre(n: nat, a: (nat, nat), b: (nat, nat), c: (nat, nat), d: (nat, nat), rows: set<nat>,
                             cols: set<nat>, centre: Port, w: Wave)
    requires Centred(n, a, b, c, d, centre) && Covers(a, b, c, d, rows, cols) && Fits(Heavy(n, a, b, c, d), w)
    ensures !Busy(w, centre) && w.quantum == 2
  {
    var r := Heavy(n, a, b, c, d);
    OuterFirst(n, a, b, c, d, rows, cols, w.matching);
    var i := SmallestUsedUp(r, w);
    hide MaximumWeight;
    forall k: nat | k < n && w.matching[k].Some?
      ensures (k, w.matching[k].value) == a || (k, w.matching[k].value) == b
    {
      OnlyOuter(n, a, b, c, d, centre, w, k);
    }
    HeavyEntries(n, a, b, c, d, i, w.matching[i].value);
  }

  lemma OnlyOuter(n: nat, a: (nat, nat), b: (nat, nat), c: (nat, nat), d: (nat, nat), centre: Port, w: Wave, k: nat)
    requires Centred(n, a, b, c, d, centre) && Serves(Heavy(n, a, b, c, d), w) && w.quantum > 0 && k < n &&
             w.matching[k].Some?
    requires w.matching[a.0] == Some(a.1) && w.matching[b.0] == Some(b.1)
    ensures (k, w.matching[k].value) == a || (k, w.matching[k].value) == b
  {
    HeavyEntries(n, a, b, c, d, k, w.matching[k].value);
  }

  lemma CentreLoad(n: nat, a: (nat, nat), b: (nat, nat), c: (nat, nat), d: (nat, nat), centre: Port)
    requires Centred(n, a, b, c, d, centre)
    ensures LoadAt(Heavy(n, a, b, c, d), centre) >= 2
  {
    var r := Heavy(n, a, b, c, d);
    HeavyEntries(n, a, b, c, d, c.0, c.1);
    HeavyEntries(n, a, b, c, d, d.0, d.1);
    match centre
    case Send(s) => RowTwo(r, s, c.1, d.1, n);
    case Recv(e) => ColTwo(r, e, c.0, d.0, n);
  }

  lemma OuterLoad(n: nat, a: (nat, nat), b: (nat, nat))
    requires a.0 < n && a.1 < n && b.0 < n && b.1 < n && a.0 != b.0 && a.1 != b.1 && a.0 != a.1 && b.0 != b.1
    ensures PortLoad(Ones(n, {a, b})) <= 1
  {
    hide Fits, Serves, Serve, Ones, Canonical, TwoPairs, Run, PortLoad;
    var w := Wave(TwoPairs(n, a, b), 1);
    PeelTwo(n, {a, b}, a, b, {a.0, b.0}, {});
    assert {a, b} - {a, b} == {};
    OnesDiagonal(n, {a, b});
    var states, waves := StartRun(n, {a, b});
    ExtendRun(states, waves, w, Ones(n, {}));
    NothingLeft(n);
    CertificateHoldsIff(Ones(n, {a, b}), states + [Ones(n, {})], waves + [w]);
    assert Emitted(waves + [w], 0) == 0 && Emitted(waves + [w], 1) == 1;
  }

  lemma HeavyLoad(n: nat, a: (nat, nat), b: (nat, nat), c: (nat, nat), d: (nat, nat))
    requires Misses(n, a, b, c, d) && PortLoad(Ones(n, {a, b, c, d})) <= 2
    ensures PortLoad(Heavy(n, a, b, c, d)) <= 3
  {
    hide Ones, LoadAt, PortLoad;
    OuterLoad(n, a, b);
    var four, two := Ones(n, {a, b, c, d}), Ones(n, {a, b});
    PortLoadIsMax(four);
    PortLoadIsMax(two);
    PortLoadIsMax(Heavy(n, a, b, c, d));
    if PortLoad(Heavy(n, a, b, c, d)) > 0 {
      var port: Port :| port.rank < n && LoadAt(Heavy(n, a, b, c, d), port) == PortLoad(Heavy(n, a, b, c, d));
      LoadAtSum(four, two, port);
    }
  }

  lemma HeavyMisses(n: nat, a: (nat, nat), b: (nat, nat), c: (nat, nat), d: (nat, nat), rows: set<nat>,
                    cols: set<nat>, centre: Port, states: seq<Matrix>, waves: seq<Wave>)
    requires Centred(n, a, b, c, d, centre) && Covers(a, b, c, d, rows, cols)
    requires Decomposes(Heavy(n, a, b, c, d), states, waves) && Heaviest(states, waves) &&
             Canonical(Heavy(n, a, b, c, d)) == Heavy(n, a, b, c, d)
    ensures Emitted(waves, |waves|) >= 4
  {
    hide LoadAt, Busy, Fits, Heavy, Run, Canonical, Drained, Covers;
    CentreLoad(n, a, b, c, d, centre);
    BusyForItsLoad(Heavy(n, a, b, c, d), states, waves, centre);
    if waves != [] {
      assert Fits(states[0], waves[0]);
      FirstWaveIdlesCentre(n, a, b, c, d, rows, cols, centre, waves[0]);
      IdleFirst(waves, centre, |waves|);
    }
  }

  lemma HeavyCanonical(n: nat, a: (nat, nat), b: (nat, nat), c: (nat, nat), d: (nat, nat))
    requires Misses(n, a, b, c, d)
    ensures Canonical(Heavy(n, a, b, c, d)) == Heavy(n, a, b, c, d)
  {
    var r := Heavy(n, a, b, c, d);
    forall i: nat | i < n
      ensures Canonical(r)[i] == r[i]
    {
      HeavyEntries(n, a, b, c, d, i, i);
    }
  }

  lemma HeavyWithin(pattern: Matrix, a: (nat, nat), b: (nat, nat), c: (nat, nat), d: (nat, nat))
    requires Square(pattern, |pattern|) && Misses(|pattern|, a, b, c, d)
    requires forall i: nat, j: nat | (i, j) in {a, b, c, d} :: Edge(pattern, i, j)
    ensures Within(Heavy(|pattern|, a, b, c, d), pattern)
  {
    forall i: nat, j: nat | Edge(Heavy(|pattern|, a, b, c, d), i, j)
      ensures Edge(pattern, i, j)
    {
      HeavyEntries(|pattern|, a, b, c, d, i, j);
    }
  }

  // Every heaviest run on the matrix overshoots.
  ghost predicate AlwaysMisses(matrix: Matrix)
    requires Square(matrix, |matrix|)
  {
    forall states, waves | Decomposes(matrix, states, waves) && Heaviest(states, waves) ::
        PortLoad(matrix) < Emitted(waves, |waves|)
  }

  lemma HeavyAlwaysMisses(n: nat, a: (nat, nat), b: (nat, nat), c: (nat, nat), d: (nat, nat), rows: set<nat>,
                          cols: set<nat>, centre: Port)
    requires Centred(n, a, b, c, d, centre) && Covers(a, b, c, d, rows, cols) && PortLoad(Ones(n, {a, b, c, d})) <= 2
    ensures AlwaysMisses(Heavy(n, a, b, c, d))
  {
    hide Heavy, PortLoad, Decomposes, Heaviest, Canonical, Ones, Covers;
    HeavyLoad(n, a, b, c, d);
    HeavyCanonical(n, a, b, c, d);
    forall states, waves | Decomposes(Heavy(n, a, b, c, d), states, waves) && Heaviest(states, waves)
      ensures PortLoad(Heavy(n, a, b, c, d)) < Emitted(waves, |waves|)
    {
      HeavyMisses(n, a, b, c, d, rows, cols, centre, states, waves);
    }
  }

  /** On every pattern with a path of four entries there is traffic that no choice among heaviest
      matchings serves within the optimal horizon: two rows on the outer entries, one on the others. */
  lemma FourPathForcesMiss(pattern: Matrix) returns (matrix: Matrix)
    requires Square(pattern, |pattern|) && HasFourPath(pattern)
    ensures Square(matrix, |matrix|) && Within(matrix, pattern) && AlwaysMisses(matrix)
  {
    hide Heaviest, Decomposes, Ones, PortLoad, Heavy, AlwaysMisses, Within;
    var n := |pattern|;
    if r: nat, i: nat, i': nat, j: nat, j': nat :| ThroughRecv(pattern, r, i, i', j, j') {
      matrix := Heavy(n, (i, j), (i', j'), (i, r), (i', r));
      var states, waves := ThreeWaves(n, (i, j), (i', j'), (i, r), (i', r), {i, i'}, {}, {}, {r});
      ThreeWavesMiss(n, (i, j), (i', j'), (i, r), (i', r), states, waves);
      HeavyAlwaysMisses(n, (i, j), (i', j'), (i, r), (i', r), {i, i'}, {}, Recv(r));
      HeavyWithin(pattern, (i, j), (i', j'), (i, r), (i', r));
    } else {
      var s: nat, j: nat, j': nat, i: nat, i': nat :| ThroughSend(pattern, s, j, j', i, i');
      matrix := Heavy(n, (i, j), (i', j'), (s, j), (s, j'));
      var states, waves := ThreeWaves(n, (i, j), (i', j'), (s, j), (s, j'), {}, {j, j'}, {s}, {});
      ThreeWavesMiss(n, (i, j), (i', j'), (s, j), (s, j'), states, waves);
      HeavyAlwaysMisses(n, (i, j), (i', j'), (s, j), (s, j'), {}, {j, j'}, Send(s));
      HeavyWithin(pattern, (i, j), (i', j'), (s, j), (s, j'));
    }
  }
}
