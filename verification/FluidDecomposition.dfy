// The fluid crossbar reference: matchings peeled off a matrix.
module FluidDecomposition {
  import opened Wrappers
  import opened Totals
  import opened Transfers
  import opened ExactMatching

  datatype Wave = Wave(matching: Matching, quantum: nat)

  // ------------------------------------------------------------------- one wave

  function Canonical(m: Matrix): (r: Matrix)
    requires Square(m, |m|)
    ensures Square(r, |m|)
  {
    seq(|m|, i requires 0 <= i < |m| => seq(|m|, j requires 0 <= j < |m| => if i == j then 0 else m[i][j]))
  }

  function Residual(r: Matrix): Weight
    requires Square(r, |r|)
  {
    (i: nat, j: nat) => if i < |r| && j < |r| then r[i][j] else 0
  }

  // A wave serves a heaviest matching until its smallest entry is used up.
  ghost predicate Fits(r: Matrix, w: Wave) {
    && Square(r, |r|) && MaximumWeight(Residual(r), |r|, |r|, w.matching)
    && w.quantum > 0
    && (forall i | 0 <= i < |r| && w.matching[i].Some? :: w.quantum <= r[i][w.matching[i].value])
    && exists i :: 0 <= i < |r| && w.matching[i].Some? && w.quantum == r[i][w.matching[i].value]
  }

  // What fitting says about the served entries alone.
  predicate Serves(r: Matrix, w: Wave) {
    && Square(r, |r|) && |w.matching| == |r| && Distinct(w.matching)
    && forall i | 0 <= i < |r| && w.matching[i].Some? ::
        w.matching[i].value < |r| && w.quantum <= r[i][w.matching[i].value]
  }

  lemma FitsServes(r: Matrix, w: Wave)
    requires Fits(r, w)
    ensures Serves(r, w)
  {
  }

  function Serve(r: Matrix, w: Wave): (next: Matrix)
    requires Serves(r, w)
    ensures Square(next, |r|)
  {
    seq(|r|, i requires 0 <= i < |r| => seq(|r|, j requires 0 <= j < |r| => r[i][j] - ServedAt(w, i, j)))
  }

  function ServedAt(w: Wave, i: nat, j: nat): nat
    requires i < |w.matching|
  {
    if w.matching[i] == Some(j) then w.quantum else 0
  }

  // Whether the wave keeps a port busy.
  predicate Busy(w: Wave, port: Port) {
    match port
    case Send(r) => r < |w.matching| && w.matching[r].Some?
    case Recv(r) => exists i :: 0 <= i < |w.matching| && w.matching[i] == Some(r)
  }

  predicate ZeroDiagonal(r: Matrix)
    requires Square(r, |r|)
  {
    forall i | 0 <= i < |r| :: r[i][i] == 0
  }

  lemma {:induction false} RowDrop(r: Matrix, w: Wave, src: nat, cols: nat)
    requires Serves(r, w) && ZeroDiagonal(r) && src < |r| && cols <= |r|
    ensures RemoteRowSum(Serve(r, w), src, cols) +
            (if w.matching[src].Some? && w.matching[src].value < cols then w.quantum else 0) ==
                RemoteRowSum(r, src, cols)
  {
    if cols > 0 { RowDrop(r, w, src, cols - 1); }
  }

  predicate Reaches(w: Wave, dst: nat, rows: nat)
    requires rows <= |w.matching|
  {
    exists i :: 0 <= i < rows && w.matching[i] == Some(dst)
  }

  lemma ReachStep(w: Wave, dst: nat, rows: nat)
    requires rows < |w.matching| && Distinct(w.matching)
    ensures Reaches(w, dst, rows + 1) <==> Reaches(w, dst, rows) || w.matching[rows] == Some(dst)
    ensures !(Reaches(w, dst, rows) && w.matching[rows] == Some(dst))
  {
    if Reaches(w, dst, rows) {
      var i :| 0 <= i < rows && w.matching[i] == Some(dst);
      assert i < rows + 1;
    }
  }

  lemma {:induction false} ColDrop(r: Matrix, w: Wave, dst: nat, rows: nat)
    requires Serves(r, w) && ZeroDiagonal(r) && dst < |r| && rows <= |r|
    ensures RemoteColSum(Serve(r, w), dst, rows) + (if Reaches(w, dst, rows) then w.quantum else 0) ==
            RemoteColSum(r, dst, rows)
  {
    hide Reaches;
    if rows > 0 {
      ColDrop(r, w, dst, rows - 1);
      ReachStep(w, dst, rows - 1);
    } else {
      NoRows(w, dst);
    }
  }

  lemma NoRows(w: Wave, dst: nat)
    ensures !Reaches(w, dst, 0)
  {
  }

  /** A wave takes its quantum off the load of every port it keeps busy, and nothing off the others. */
  lemma LoadDrop(r: Matrix, w: Wave, port: Port)
    requires Serves(r, w) && ZeroDiagonal(r) && port.rank < |r|
    ensures LoadAt(Serve(r, w), port) + (if Busy(w, port) then w.quantum else 0) == LoadAt(r, port)
  {
    match port
    case Send(i) => RowDrop(r, w, i, |r|);
    case Recv(j) => ColDrop(r, w, j, |r|);
  }

  // ------------------------------------------------------------------ progress

  function Entries(row: seq<nat>, k: nat): nat
    requires k <= |row|
  {
    if k == 0 then 0 else Entries(row, k - 1) + (if row[k - 1] > 0 then 1 else 0)
  }

  function PositiveEntries(r: Matrix, n: nat): nat
    requires n <= |r|
  {
    if n == 0 then 0 else PositiveEntries(r, n - 1) + Entries(r[n - 1], |r[n - 1]|)
  }

  lemma {:induction false} EntriesDrop(row: seq<nat>, next: seq<nat>, k: nat, j: nat)
    requires |row| == |next| && k <= |row| && forall i | 0 <= i < |row| :: next[i] <= row[i]
    requires j < |row|
    ensures Entries(next, k) <= Entries(row, k)
    ensures j < k && row[j] > 0 && next[j] == 0 ==> Entries(next, k) < Entries(row, k)
  {
    if k > 0 { EntriesDrop(row, next, k - 1, j); }
  }

  lemma {:induction false} PositiveEntriesDrop(r: Matrix, next: Matrix, n: nat, i: nat, j: nat)
    requires Square(r, |r|) && Square(next, |r|) && n <= |r| && i < |r| && j < |r|
    requires forall a, b | 0 <= a < |r| && 0 <= b < |r| :: next[a][b] <= r[a][b]
    ensures PositiveEntries(next, n) <= PositiveEntries(r, n)
    ensures i < n && r[i][j] > 0 && next[i][j] == 0 ==> PositiveEntries(next, n) < PositiveEntries(r, n)
  {
    if n > 0 {
      PositiveEntriesDrop(r, next, n - 1, i, j);
      EntriesDrop(r[n - 1], next[n - 1], |r|, j);
    }
  }

  lemma SmallestUsedUp(r: Matrix, w: Wave) returns (i: nat)
    requires Fits(r, w)
    ensures Serves(r, w) && i < |r| && w.matching[i].Some? && w.quantum == r[i][w.matching[i].value] && w.quantum > 0
  {
    FitsServes(r, w);
    hide MaximumWeight;
    i :| 0 <= i < |r| && w.matching[i].Some? && w.quantum == r[i][w.matching[i].value];
  }

  lemma WaveUsesUpAnEntry(r: Matrix, w: Wave)
    requires Fits(r, w)
    ensures Serves(r, w) && PositiveEntries(Serve(r, w), |r|) < PositiveEntries(r, |r|)
  {
    hide Fits, MaximumWeight, PositiveEntries;
    var i := SmallestUsedUp(r, w);
    PositiveEntriesDrop(r, Serve(r, w), |r|, i, w.matching[i].value);
  }

  // ---------------------------------------------------------------------- the run

  ghost predicate Run(states: seq<Matrix>, waves: seq<Wave>) {
    && |states| == |waves| + 1
    && (forall k | 0 <= k < |states| :: Square(states[k], |states[0]|) && ZeroDiagonal(states[k]))
    && forall k | 0 <= k < |waves| :: Step(states[k], waves[k], states[k + 1])
  }

  // A wave serves some matching for its quantum.
  ghost predicate Step(r: Matrix, w: Wave, next: Matrix) {
    Serves(r, w) && w.quantum > 0 && next == Serve(r, w)
  }

  // Every wave serves a heaviest matching of what was left.
  ghost predicate Heaviest(states: seq<Matrix>, waves: seq<Wave>) {
    |states| == |waves| + 1 && forall k | 0 <= k < |waves| :: Fits(states[k], waves[k])
  }

  predicate Drained(r: Matrix)
    requires Square(r, |r|)
  {
    forall i, j | 0 <= i < |r| && 0 <= j < |r| :: r[i][j] == 0
  }

  method SomeEntry(r: Matrix) returns (found: bool, i: nat, j: nat)
    requires Square(r, |r|)
    ensures found ==> i < |r| && j < |r| && r[i][j] > 0
    ensures !found ==> Drained(r)
  {
    found, i, j := false, 0, 0;
    for a := 0 to |r|
      invariant forall x, y | 0 <= x < a && 0 <= y < |r| :: r[x][y] == 0
    {
      for b := 0 to |r|
        invariant forall x, y | 0 <= x < a && 0 <= y < |r| :: r[x][y] == 0
        invariant forall y | 0 <= y < b :: r[a][y] == 0
      {
        if r[a][b] > 0 {
          return true, a, b;
        }
      }
    }
  }

  method SmallestServed(r: Matrix, matching: Matching) returns (quantum: nat)
    requires Square(r, |r|) && |matching| == |r| && Admissible(Residual(r), matching, 0, |r|, {})
    requires exists i :: 0 <= i < |r| && matching[i].Some?
    ensures quantum > 0
    ensures forall i | 0 <= i < |r| && matching[i].Some? :: quantum <= r[i][matching[i].value]
    ensures exists i :: 0 <= i < |r| && matching[i].Some? && quantum == r[i][matching[i].value]
  {
    quantum := 0;
    ghost var at := 0;
    for i := 0 to |r|
      invariant quantum == 0 <==> forall k | 0 <= k < i :: matching[k].None?
      invariant forall k | 0 <= k < i && matching[k].Some? :: quantum <= r[k][matching[k].value]
      invariant quantum > 0 ==> 0 <= at < i && matching[at].Some? && quantum == r[at][matching[at].value]
    {
      if matching[i].Some? {
        assert Residual(r)(0 + i, matching[i].value) > 0;
        var value := r[i][matching[i].value];
        if quantum == 0 || value < quantum {
          quantum, at := value, i;
        }
      }
    }
  }

  // The whole entry served so far, and what remains.
  function ServedUpTo(waves: seq<Wave>, i: nat, j: nat, k: nat): nat
    requires k <= |waves| && forall a | 0 <= a < |waves| :: i < |waves[a].matching|
  {
    if k == 0 then 0 else ServedUpTo(waves, i, j, k - 1) + ServedAt(waves[k - 1], i, j)
  }

  function Emitted(waves: seq<Wave>, k: nat): nat
    requires k <= |waves|
  {
    if k == 0 then 0 else Emitted(waves, k - 1) + waves[k - 1].quantum
  }

  lemma ExtendRun(states: seq<Matrix>, waves: seq<Wave>, w: Wave, next: Matrix)
    requires Run(states, waves) && Step(states[|waves|], w, next)
    ensures Run(states + [next], waves + [w])
    ensures Heaviest(states, waves) && Fits(states[|waves|], w) ==> Heaviest(states + [next], waves + [w])
  {
    hide Fits;
    var states', waves' := states + [next], waves + [w];
    var r := states[|waves|];
    forall i | 0 <= i < |r|
      ensures next[i][i] == 0
    {
      assert r[i][i] == 0;
    }
    forall k | 0 <= k < |waves'|
      ensures Step(states'[k], waves'[k], states'[k + 1])
    {
      if k < |waves| { assert Step(states[k], waves[k], states[k + 1]); }
    }
    if Heaviest(states, waves) && Fits(r, w) {
      forall k | 0 <= k < |waves'|
        ensures Fits(states'[k], waves'[k])
      {
        if k < |waves| { assert Fits(states[k], waves[k]); }
      }
    }
  }

  lemma CanonicalZeroDiagonal(m: Matrix)
    requires Square(m, |m|)
    ensures ZeroDiagonal(Canonical(m))
  {
  }

  /** Peels off heaviest matchings until nothing is left, one used-up entry or more a wave. */
  method DecomposeFluidMatrix(matrix: Matrix) returns (waves: seq<Wave>, ghost states: seq<Matrix>)
    requires Square(matrix, |matrix|)
    ensures Run(states, waves) && states[0] == Canonical(matrix) && Drained(states[|waves|])
    ensures Heaviest(states, waves)
    ensures |waves| <= PositiveEntries(Canonical(matrix), |matrix|)
  {
    var residual := Canonical(matrix);
    CanonicalZeroDiagonal(matrix);
    hide Fits, Serves, Drained, Canonical, PositiveEntries;
    waves, states := [], [residual];
    var left: bool, i: nat, j: nat := SomeEntry(residual);
    while left
      invariant Run(states, waves) && Heaviest(states, waves) && states[0] == Canonical(matrix) &&
                residual == states[|waves|] && |residual| == |matrix|
      invariant left ==> i < |residual| && j < |residual| && residual[i][j] > 0
      invariant !left ==> Drained(residual)
      invariant |waves| + PositiveEntries(residual, |residual|) <= PositiveEntries(Canonical(matrix), |matrix|)
      decreases PositiveEntries(residual, |residual|)
    {
      var w, next := PeelWave(residual, i, j);
      ExtendRun(states, waves, w, next);
      waves, states := waves + [w], states + [next];
      residual := next;
      left, i, j := SomeEntry(residual);
    }
  }

  method PeelWave(residual: Matrix, i: nat, j: nat) returns (w: Wave, next: Matrix)
    requires Square(residual, |residual|) && i < |residual| && j < |residual| && residual[i][j] > 0
    ensures Step(residual, w, next) && Fits(residual, w) &&
            PositiveEntries(next, |next|) < PositiveEntries(residual, |residual|)
  {
    var n := |residual|;
    var matching := Search(Residual(residual), 0, n, n, {});
    SearchIsMaximum(Residual(residual), n, n);
    MaximumNotEmpty(Residual(residual), n, n, matching, i, j);
    var quantum := SmallestServed(residual, matching);
    w := Wave(matching, quantum);
    WaveUsesUpAnEntry(residual, w);
    next := Serve(residual, w);
  }

  // ------------------------------------------------------------------ the certificate

  lemma CellDrop(r: Matrix, w: Wave, next: Matrix, i: nat, j: nat)
    requires Step(r, w, next) && i < |r| && j < |r|
    ensures |next| == |r| == |next[i]| && |w.matching| == |r| && next[i][j] + ServedAt(w, i, j) == r[i][j]
  {
  }

  /** Together the waves serve every remote entry exactly. */
  lemma {:induction false} CoverageHolds(states: seq<Matrix>, waves: seq<Wave>, i: nat, j: nat, k: nat)
    requires Run(states, waves) && k <= |waves| && i < |states[0]| && j < |states[0]|
    requires forall a | 0 <= a < |waves| :: i < |waves[a].matching|
    ensures states[k][i][j] + ServedUpTo(waves, i, j, k) == states[0][i][j]
  {
    hide Step;
    if k > 0 {
      CoverageHolds(states, waves, i, j, k - 1);
      assert Step(states[k - 1], waves[k - 1], states[k]);
      CellDrop(states[k - 1], waves[k - 1], states[k], i, j);
    }
  }

  // Time during which the first k waves keep a port busy.
  function BusyTime(waves: seq<Wave>, port: Port, k: nat): nat
    requires k <= |waves|
  {
    if k == 0 then 0 else BusyTime(waves, port, k - 1) + (if Busy(waves[k - 1], port) then waves[k - 1].quantum else 0)
  }

  lemma {:induction false} LoadSpent(states: seq<Matrix>, waves: seq<Wave>, port: Port, k: nat)
    requires Run(states, waves) && k <= |waves| && port.rank < |states[0]|
    ensures LoadAt(states[k], port) + BusyTime(waves, port, k) == LoadAt(states[0], port)
  {
    hide LoadAt, Busy, Serves;
    if k > 0 {
      LoadSpent(states, waves, port, k - 1);
      assert Step(states[k - 1], waves[k - 1], states[k]);
      LoadDrop(states[k - 1], waves[k - 1], port);
    }
  }

  lemma {:induction false} BusyAtMostEmitted(waves: seq<Wave>, port: Port, k: nat)
    requires k <= |waves| && forall a | 0 <= a < |waves| :: waves[a].quantum > 0
    ensures BusyTime(waves, port, k) <= Emitted(waves, k)
    ensures BusyTime(waves, port, k) == Emitted(waves, k) <==> forall a | 0 <= a < k :: Busy(waves[a], port)
  {
    hide Busy;
    if k > 0 { BusyAtMostEmitted(waves, port, k - 1); }
  }

  lemma {:induction false} DrainedRow(r: Matrix, i: nat, k: nat)
    requires Square(r, |r|) && Drained(r) && i < |r| && k <= |r|
    ensures RemoteRowSum(r, i, k) == 0 && RemoteColSum(r, i, k) == 0
  {
    if k > 0 { DrainedRow(r, i, k - 1); }
  }

  lemma {:induction false} CanonicalRow(m: Matrix, i: nat, k: nat)
    requires Square(m, |m|) && i < |m| && k <= |m|
    ensures RemoteRowSum(Canonical(m), i, k) == RemoteRowSum(m, i, k) &&
            RemoteColSum(Canonical(m), i, k) == RemoteColSum(m, i, k)
  {
    if k > 0 { CanonicalRow(m, i, k - 1); }
  }

  // A complete run keeps each port busy for exactly its load.
  lemma BusyForItsLoad(matrix: Matrix, states: seq<Matrix>, waves: seq<Wave>, port: Port)
    requires Square(matrix, |matrix|) && Run(states, waves) && states[0] == Canonical(matrix) &&
             Drained(states[|waves|])
    requires port.rank < |matrix|
    ensures BusyTime(waves, port, |waves|) == LoadAt(matrix, port)
    ensures BusyTime(waves, port, |waves|) <= Emitted(waves, |waves|)
    ensures BusyTime(waves, port, |waves|) == Emitted(waves, |waves|) <==>
              forall a | 0 <= a < |waves| :: Busy(waves[a], port)
  {
    LoadSpent(states, waves, port, |waves|);
    DrainedRow(states[|waves|], port.rank, |matrix|);
    CanonicalRow(matrix, port.rank, |matrix|);
    forall a | 0 <= a < |waves|
      ensures waves[a].quantum > 0
    {
      assert Step(states[a], waves[a], states[a + 1]);
    }
    BusyAtMostEmitted(waves, port, |waves|);
  }

  /** However the matchings are chosen, the emitted horizon is never below the optimal one, so idle
      time is never reported; the certificate, which asks for the reverse bound, holds exactly
      when some port is busy in every wave. */
  lemma CertificateHoldsIff(matrix: Matrix, states: seq<Matrix>, waves: seq<Wave>)
    requires Square(matrix, |matrix|) && Run(states, waves) && states[0] == Canonical(matrix) &&
             Drained(states[|waves|])
    ensures PortLoad(matrix) <= Emitted(waves, |waves|)
    ensures Emitted(waves, |waves|) <= PortLoad(matrix) <==>
            waves == [] || exists port: Port :: port.rank < |matrix| && forall a | 0 <= a < |waves| ::
                Busy(waves[a], port)
  {
    hide LoadAt, Busy, Run;
    PortLoadIsMax(matrix);
    forall port: Port | port.rank < |matrix|
      ensures LoadAt(matrix, port) <= Emitted(waves, |waves|)
      ensures LoadAt(matrix, port) == Emitted(waves, |waves|) <==> forall a | 0 <= a < |waves| :: Busy(waves[a], port)
    {
      BusyForItsLoad(matrix, states, waves, port);
    }
    if waves != [] { FirstWaveEmits(states, waves); }
  }

  lemma {:induction false} EmittedGrows(waves: seq<Wave>, k: nat)
    requires 0 < k <= |waves|
    ensures Emitted(waves, k) >= waves[0].quantum
  {
    if k > 1 { EmittedGrows(waves, k - 1); }
  }

  lemma FirstWaveEmits(states: seq<Matrix>, waves: seq<Wave>)
    requires Run(states, waves) && waves != []
    ensures Emitted(waves, |waves|) > 0
  {
    assert Step(states[0], waves[0], states[1]);
    EmittedGrows(waves, |waves|);
  }

  // ------------------------------------------------------------- where the reference loses

  // Rank 0 sends one row to each of the others, which exchange two rows.
  const STAR: Matrix := [[0, 1, 1], [0, 0, 2], [0, 2, 0]]

  lemma StarLoads(m: Matrix)
    requires m == STAR
    ensures Square(m, 3) && PortLoad(m) == 3 && LoadAt(m, Send(0)) == 2
  {
    assert RemoteRowSum(m, 0, 1) == 0 && RemoteRowSum(m, 0, 2) == 1 && RemoteRowSum(m, 0, 3) == 2;
    assert RemoteRowSum(m, 1, 1) == 0 && RemoteRowSum(m, 1, 2) == 0 && RemoteRowSum(m, 1, 3) == 2;
    assert RemoteRowSum(m, 2, 1) == 0 && RemoteRowSum(m, 2, 2) == 2 && RemoteRowSum(m, 2, 3) == 2;
    assert RemoteColSum(m, 0, 1) == 0 && RemoteColSum(m, 0, 2) == 0 && RemoteColSum(m, 0, 3) == 0;
    assert RemoteColSum(m, 1, 1) == 1 && RemoteColSum(m, 1, 2) == 1 && RemoteColSum(m, 1, 3) == 3;
    assert RemoteColSum(m, 2, 1) == 1 && RemoteColSum(m, 2, 2) == 3 && RemoteColSum(m, 2, 3) == 3;
    assert PortLoadUpTo(m, 1) == 2 && PortLoadUpTo(m, 2) == 3 && PortLoadUpTo(m, 3) == 3;
  }

  lemma WeightOfThree(w: Weight, a: Option<nat>, b: Option<nat>, c: Option<nat>)
    ensures WeightOf(w, [a, b, c], 0) == PairWeight(w, 0, a) + PairWeight(w, 1, b) + PairWeight(w, 2, c)
  {
    assert [a, b, c][1..] == [b, c] && [b, c][1..] == [c] && [c][1..] == [];
    assert WeightOf(w, [c], 2) == PairWeight(w, 2, c);
    assert WeightOf(w, [b, c], 1) == PairWeight(w, 1, b) + PairWeight(w, 2, c);
  }

  // Residual weights of the star.
  predicate StarWeights(r: Weight) {
    && r(0, 0) == 0 && r(0, 1) == 1 && r(0, 2) == 1
    && r(1, 0) == 0 && r(1, 1) == 0 && r(1, 2) == 2
    && r(2, 0) == 0 && r(2, 1) == 2 && r(2, 2) == 0
  }

  predicate Positive(r: Weight, src: nat, dst: Option<nat>) {
    dst.Some? ==> dst.value < 3 && r(src, dst.value) > 0
  }

  lemma StarChoice(r: Weight, a: Option<nat>, b: Option<nat>, c: Option<nat>)
    requires StarWeights(r) && Positive(r, 0, a) && Positive(r, 1, b) && Positive(r, 2, c)
    requires (a.Some? ==> a != b && a != c) && (b.Some? ==> b != c)
    requires PairWeight(r, 0, a) + PairWeight(r, 1, b) + PairWeight(r, 2, c) >= 4
    ensures a.None? && b == Some(2) && c == Some(1)
  {
    assert b.Some? ==> b == Some(2);
    assert c.Some? ==> c == Some(1);
    assert a.Some? ==> a == Some(1) || a == Some(2);
  }

  lemma HeaviestOfStar(r: Weight, m: Matching)
    requires StarWeights(r) && MaximumWeight(r, 3, 3, m)
    ensures m[0].None? && m[1] == Some(2) && m[2] == Some(1)
  {
    var a, b, c := m[0], m[1], m[2];
    assert m == [a, b, c];
    WeightOfThree(r, a, b, c);
    AdmissiblePairs(r, m);
    var heavy: Matching := [None, Some(2), Some(1)];
    HeavyAdmissible(r, heavy);
    WeightOfThree(r, None, Some(2), Some(1));
    assert WeightOf(r, heavy, 0) <= WeightOf(r, m, 0);
    StarChoice(r, a, b, c);
  }

  lemma HeavyAdmissible(r: Weight, heavy: Matching)
    requires StarWeights(r) && heavy == [None, Some(2), Some(1)]
    ensures Admissible(r, heavy, 0, 3, {})
  {
  }

  lemma AdmissiblePairs(r: Weight, m: Matching)
    requires |m| == 3 && Admissible(r, m, 0, 3, {})
    ensures Positive(r, 0, m[0]) && Positive(r, 1, m[1]) && Positive(r, 2, m[2])
    ensures (m[0].Some? ==> m[0] != m[1] && m[0] != m[2]) && (m[1].Some? ==> m[1] != m[2])
  {
    forall k: nat | k < 3
      ensures Positive(r, k, m[k])
    {
      if m[k].Some? { assert r(0 + k, m[k].value) > 0; }
    }
  }

  // The heaviest matching of the star leaves rank 0 idle.
  lemma StarFirstWave(m: Matrix, w: Wave)
    requires m == STAR && Fits(m, w)
    ensures !Busy(w, Send(0)) && w.quantum == 2
  {
    var i := SmallestUsedUp(m, w);
    HeaviestOfStar(Residual(m), w.matching);
  }

  lemma {:induction false} IdleFirst(waves: seq<Wave>, port: Port, k: nat)
    requires 0 < k <= |waves| && !Busy(waves[0], port)
    ensures waves[0].quantum + BusyTime(waves, port, k) <= Emitted(waves, k)
  {
    hide Busy;
    if k > 1 {
      IdleFirst(waves, port, k - 1);
    } else {
      assert BusyTime(waves, port, 0) == 0 && Emitted(waves, 0) == 0;
    }
  }

  /** Peeling the heaviest matchings can miss the optimal horizon: on the star it is 3, but every
      run takes at least 4, and the certificate fails. */
  lemma StarNotOptimal(matrix: Matrix, states: seq<Matrix>, waves: seq<Wave>)
    requires matrix == STAR && Run(states, waves) && Heaviest(states, waves)
    requires states[0] == matrix && Drained(states[|waves|])
    ensures PortLoad(matrix) == 3 && Emitted(waves, |waves|) >= 4
  {
    hide LoadAt, Busy, Fits, Serves, PortLoad, Drained;
    StarLoads(matrix);
    StarIsCanonical(matrix);
    BusyForItsLoad(matrix, states, waves, Send(0));
    if waves != [] {
      assert Fits(states[0], waves[0]);
      StarFirstWave(matrix, waves[0]);
      IdleFirst(waves, Send(0), |waves|);
    }
  }

  lemma StarIsCanonical(m: Matrix)
    requires m == STAR
    ensures Canonical(m) == m
  {
    forall i: nat | i < 3
      ensures Canonical(m)[i] == m[i]
    {
      assert i == 0 || i == 1 || i == 2;
    }
  }
}
