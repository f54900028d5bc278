// Optimal patterns.
module FluidPatterns {
  // Those without a path of four positive entries: a port that a wave leaves idle has all its
  // traffic with one busier port.

  import opened Wrappers
  import opened Totals
  import opened Transfers
  import opened ExactMatching
  import opened FluidDecomposition

  // ------------------------------------------------------------------- patterns

  predicate Edge(m: Matrix, i: nat, j: nat)
    requires Square(m, |m|)
  {
    i < |m| && j < |m| && i != j && m[i][j] > 0
  }

  // Two senders to d, each with a further destination.
  predicate ThroughRecv(m: Matrix, d: nat, i: nat, i': nat, j: nat, j': nat)
    requires Square(m, |m|)
  {
    Edge(m, i, d) && Edge(m, i', d) && Edge(m, i, j) && Edge(m, i', j') && i != i' && j != j' && j != d && j' != d
  }

  // Two destinations of s, each with a further sender.
  predicate ThroughSend(m: Matrix, s: nat, j: nat, j': nat, i: nat, i': nat)
    requires Square(m, |m|)
  {
    Edge(m, s, j) && Edge(m, s, j') && Edge(m, i, j) && Edge(m, i', j') && j != j' && i != i' && i != s && i' != s
  }

  ghost predicate HasFourPath(m: Matrix)
    requires Square(m, |m|)
  {
    || (exists d: nat, i: nat, i': nat, j: nat, j': nat :: ThroughRecv(m, d, i, i', j, j'))
    || (exists s: nat, j: nat, j': nat, i: nat, i': nat :: ThroughSend(m, s, j, j', i, i'))
  }

  // All remote traffic of m lies on entries that are positive in the pattern.
  ghost predicate Within(m: Matrix, pattern: Matrix)
    requires Square(m, |m|) && Square(pattern, |pattern|)
  {
    |m| == |pattern| && forall i: nat, j: nat | Edge(m, i, j) :: Edge(pattern, i, j)
  }

  lemma FourPathWithin(m: Matrix, pattern: Matrix)
    requires Square(m, |m|) && Square(pattern, |pattern|) && Within(m, pattern) && HasFourPath(m)
    ensures HasFourPath(pattern)
  {
    if d: nat, i: nat, i': nat, j: nat, j': nat :| ThroughRecv(m, d, i, i', j, j') {
      assert ThroughRecv(pattern, d, i, i', j, j');
    } else {
      var s: nat, j: nat, j': nat, i: nat, i': nat :| ThroughSend(m, s, j, j', i, i');
      assert ThroughSend(pattern, s, j, j', i, i');
    }
  }

  /** There is no such path when every destination has at most one sender, or every sender at most
      one destination. */
  lemma StarsHaveShortPaths(m: Matrix)
    requires Square(m, |m|)
    requires (forall i: nat, i': nat, j: nat | Edge(m, i, j) && Edge(m, i', j) :: i == i')
          || (forall i: nat, j: nat, j': nat | Edge(m, i, j) && Edge(m, i, j') :: j == j')
    ensures !HasFourPath(m)
  {
    forall d: nat, i: nat, i': nat, j: nat, j': nat
      ensures !ThroughRecv(m, d, i, i', j, j')
    {
    }
    forall s: nat, j: nat, j': nat, i: nat, i': nat
      ensures !ThroughSend(m, s, j, j', i, i')
    {
    }
  }

  // ------------------------------------------------------------------- row and column sums

  lemma {:induction false} RowTwo(r: Matrix, i: nat, a: nat, b: nat, k: nat)
    requires i < |r| && k <= |r[i]| && i != a < |r[i]| && i != b < |r[i]| && a != b
    ensures RemoteRowSum(r, i, k) >= (if a < k then r[i][a] else 0) + (if b < k then r[i][b] else 0)
  {
    if k > 0 { RowTwo(r, i, a, b, k - 1); }
  }

  lemma {:induction false} ColTwo(r: Matrix, j: nat, a: nat, b: nat, k: nat)
    requires Square(r, |r|) && j < |r| && k <= |r| && j != a < |r| && j != b < |r| && a != b
    ensures RemoteColSum(r, j, k) >= (if a < k then r[a][j] else 0) + (if b < k then r[b][j] else 0)
  {
    if k > 0 { ColTwo(r, j, a, b, k - 1); }
  }

  lemma {:induction false} RowAtLeast(r: Matrix, i: nat, a: nat, k: nat)
    requires i < |r| && k <= |r[i]| && i != a < |r[i]|
    ensures RemoteRowSum(r, i, k) >= if a < k then r[i][a] else 0
  {
    if k > 0 { RowAtLeast(r, i, a, k - 1); }
  }

  lemma {:induction false} RowOne(r: Matrix, i: nat, a: nat, k: nat)
    requires Square(r, |r|) && i < |r| && k <= |r| && i != a < |r| && forall x: nat | Edge(r, i, x) :: x == a
    ensures RemoteRowSum(r, i, k) == if a < k then r[i][a] else 0
  {
    if k > 0 {
      RowOne(r, i, a, k - 1);
      assert k - 1 != a && k - 1 != i ==> !Edge(r, i, k - 1);
    }
  }

  lemma {:induction false} ColOne(r: Matrix, j: nat, a: nat, k: nat)
    requires Square(r, |r|) && j < |r| && k <= |r| && j != a < |r| && forall x: nat | Edge(r, x, j) :: x == a
    ensures RemoteColSum(r, j, k) == if a < k then r[a][j] else 0
  {
    if k > 0 {
      ColOne(r, j, a, k - 1);
      assert k - 1 != a && k - 1 != j ==> !Edge(r, k - 1, j);
    }
  }

  lemma {:induction false} NoEdgesNoLoad(r: Matrix, p: nat, k: nat)
    requires Square(r, |r|) && p < |r| && k <= |r|
    ensures (forall x: nat :: !Edge(r, p, x)) ==> RemoteRowSum(r, p, k) == 0
    ensures (forall x: nat :: !Edge(r, x, p)) ==> RemoteColSum(r, p, k) == 0
  {
    if k > 0 {
      NoEdgesNoLoad(r, p, k - 1);
      assert !Edge(r, p, k - 1) ==> p == k - 1 || r[p][k - 1] == 0;
      assert !Edge(r, k - 1, p) ==> p == k - 1 || r[k - 1][p] == 0;
    }
  }

  // ------------------------------------------------------------------- maximal waves

  // A wave that leaves no positive entry with both ports idle.
  ghost predicate Maximal(r: Matrix, w: Wave) {
    && Serves(r, w) && w.quantum > 0 && (exists i :: 0 <= i < |r| && w.matching[i].Some?)
    && forall i: nat, j: nat | Edge(r, i, j) :: Busy(w, Send(i)) || Busy(w, Recv(j))
  }

  lemma AddPair(w: Weight, m: Matching, sources: nat, dests: nat, i: nat, j: nat) returns (more: Matching)
    requires |m| == sources && Admissible(w, m, 0, dests, {}) && i < sources && j < dests
    requires m[i].None? && w(i, j) > 0 && forall k | 0 <= k < |m| :: m[k] != Some(j)
    ensures |more| == sources && Admissible(w, more, 0, dests, {}) && WeightOf(w, more, 0) > WeightOf(w, m, 0)
  {
    more := m[i := Some(j)];
    WeightUpdate(w, m, 0, i, j);
    forall k | 0 <= k < |more| && more[k].Some?
      ensures more[k].value < dests && more[k].value !in {} && w(0 + k, more[k].value) > 0
    {
      if k != i { assert m[k] == more[k] && w(0 + k, m[k].value) > 0; }
    }
  }

  lemma {:induction false} WeightUpdate(w: Weight, m: Matching, at: nat, i: nat, j: nat)
    requires i < |m| && m[i].None?
    ensures WeightOf(w, m[i := Some(j)], at) == WeightOf(w, m, at) + w(at + i, j)
  {
    if i == 0 {
      assert m[0 := Some(j)][1..] == m[1..];
    } else {
      WeightUpdate(w, m[1..], at + 1, i - 1, j);
      assert m[i := Some(j)][1..] == m[1..][i - 1 := Some(j)];
    }
  }

  /** A heaviest matching leaves no positive entry with both ports idle. */
  lemma HeaviestIsMaximal(r: Matrix, w: Wave)
    requires Fits(r, w) && ZeroDiagonal(r)
    ensures Maximal(r, w)
  {
    forall i: nat, j: nat | Edge(r, i, j)
      ensures Busy(w, Send(i)) || Busy(w, Recv(j))
    {
      if w.matching[i].None? && forall k | 0 <= k < |w.matching| :: w.matching[k] != Some(j) {
        var more := AddPair(Residual(r), w.matching, |r|, |r|, i, j);
        assert false;
      }
    }
  }

  // The one destination, or sender, an idle port still waits for is busy elsewhere, and so heavier.
  lemma IdleRecv(r: Matrix, w: Wave, d: nat) returns (heavier: Port)
    requires Maximal(r, w) && ZeroDiagonal(r) && !HasFourPath(r) && d < |r| && !Busy(w, Recv(d))
    ensures heavier.rank < |r| && LoadAt(r, Recv(d)) + w.quantum <= LoadAt(r, heavier)
  {
    if i: nat :| Edge(r, i, d) {
      assert Busy(w, Send(i));
      var j := w.matching[i].value;
      assert r[i][j] > 0 && Edge(r, i, j);
      forall x: nat | Edge(r, x, d)
        ensures x == i
      {
        assert Busy(w, Send(x)) && Edge(r, x, w.matching[x].value);
        assert !ThroughRecv(r, d, i, x, j, w.matching[x].value);
      }
      ColOne(r, d, i, |r|);
      RowTwo(r, i, d, j, |r|);
      heavier := Send(i);
    } else {
      NoEdgesNoLoad(r, d, |r|);
      heavier := SomeBusy(r, w);
    }
  }

  lemma IdleSend(r: Matrix, w: Wave, s: nat) returns (heavier: Port)
    requires Maximal(r, w) && ZeroDiagonal(r) && !HasFourPath(r) && s < |r| && !Busy(w, Send(s))
    ensures heavier.rank < |r| && LoadAt(r, Send(s)) + w.quantum <= LoadAt(r, heavier)
  {
    if j: nat :| Edge(r, s, j) {
      assert Busy(w, Recv(j));
      var i :| 0 <= i < |w.matching| && w.matching[i] == Some(j);
      assert r[i][j] > 0 && Edge(r, i, j);
      forall x: nat | Edge(r, s, x)
        ensures x == j
      {
        assert Busy(w, Recv(x));
        var i' :| 0 <= i' < |w.matching| && w.matching[i'] == Some(x);
        assert Edge(r, i', x);
        assert !ThroughSend(r, s, j, x, i, i');
      }
      RowOne(r, s, j, |r|);
      ColTwo(r, j, s, i, |r|);
      heavier := Recv(j);
    } else {
      NoEdgesNoLoad(r, s, |r|);
      heavier := SomeBusy(r, w);
    }
  }

  lemma SomeBusy(r: Matrix, w: Wave) returns (port: Port)
    requires Maximal(r, w) && ZeroDiagonal(r)
    ensures port.rank < |r| && w.quantum <= LoadAt(r, port)
  {
    var i :| 0 <= i < |r| && w.matching[i].Some?;
    RowAtLeast(r, i, w.matching[i].value, |r|);
    port := Send(i);
  }

  // A maximal wave brings every port down to its quantum below the heaviest.
  lemma LoadFalls(r: Matrix, w: Wave, port: Port)
    requires Maximal(r, w) && ZeroDiagonal(r) && !HasFourPath(r) && port.rank < |r|
    ensures LoadAt(Serve(r, w), port) + w.quantum <= PortLoad(r)
  {
    hide HasFourPath, PortLoad, LoadAt;
    PortLoadIsMax(r);
    LoadDrop(r, w, port);
    if !Busy(w, port) {
      var heavier;
      match port
      case Recv(d) => heavier := IdleRecv(r, w, d);
      case Send(s) => heavier := IdleSend(r, w, s);
      assert LoadAt(r, heavier) <= PortLoad(r);
    }
  }

  lemma PortLoadFalls(r: Matrix, w: Wave)
    requires Maximal(r, w) && ZeroDiagonal(r) && !HasFourPath(r)
    ensures PortLoad(Serve(r, w)) + w.quantum <= PortLoad(r)
  {
    hide HasFourPath, PortLoad, LoadAt;
    var next := Serve(r, w);
    PortLoadIsMax(next);
    LoadFalls(r, w, Send(0));
    if PortLoad(next) > 0 {
      var port: Port :| port.rank < |next| && LoadAt(next, port) == PortLoad(next);
      LoadFalls(r, w, port);
    }
  }

  // ------------------------------------------------------------------- whole runs

  ghost predicate AllMaximal(states: seq<Matrix>, waves: seq<Wave>) {
    |states| == |waves| + 1 && forall k | 0 <= k < |waves| :: Maximal(states[k], waves[k])
  }

  // A complete decomposition of the remote traffic of a matrix.
  ghost predicate Decomposes(matrix: Matrix, states: seq<Matrix>, waves: seq<Wave>) {
    Square(matrix, |matrix|) && Run(states, waves) && states[0] == Canonical(matrix) && Drained(states[|waves|])
  }

  lemma ServeWithin(r: Matrix, w: Wave, pattern: Matrix)
    requires Serves(r, w) && Square(pattern, |pattern|) && Within(r, pattern)
    ensures Within(Serve(r, w), pattern)
  {
    var next := Serve(r, w);
    forall i: nat, j: nat | Edge(next, i, j)
      ensures Edge(pattern, i, j)
    {
      assert Edge(r, i, j);
    }
  }

  lemma {:induction false} LoadLeft(states: seq<Matrix>, waves: seq<Wave>, pattern: Matrix, k: nat)
    requires Run(states, waves) && AllMaximal(states, waves) && k <= |waves|
    requires Square(pattern, |pattern|) && !HasFourPath(pattern) && Within(states[0], pattern)
    ensures Within(states[k], pattern)
    ensures PortLoad(states[k]) + Emitted(waves, k) <= PortLoad(states[0])
  {
    hide HasFourPath, PortLoad, Within, Maximal, Serves;
    if k > 0 {
      LoadLeft(states, waves, pattern, k - 1);
      var r, w := states[k - 1], waves[k - 1];
      assert Step(r, w, states[k]) && Maximal(r, w);
      if HasFourPath(r) { FourPathWithin(r, pattern); }
      PortLoadFalls(r, w);
      ServeWithin(r, w, pattern);
    }
  }

  lemma CanonicalLoad(m: Matrix)
    requires Square(m, |m|)
    ensures PortLoad(Canonical(m)) == PortLoad(m)
  {
    hide PortLoad;
    forall port: Port
      ensures LoadAt(Canonical(m), port) == LoadAt(m, port)
    {
      if port.rank < |m| { CanonicalRow(m, port.rank, |m|); }
    }
    PortLoadIsMax(m);
    PortLoadIsMax(Canonical(m));
  }

  lemma CanonicalWithin(m: Matrix, pattern: Matrix)
    requires Square(m, |m|) && Square(pattern, |pattern|) && Within(m, pattern)
    ensures Within(Canonical(m), pattern)
  {
    forall i: nat, j: nat | Edge(Canonical(m), i, j)
      ensures Edge(pattern, i, j)
    {
      assert Edge(m, i, j);
    }
  }

  /** Without a path of four entries in the pattern, peeling any maximal matchings emits exactly
      the optimal horizon. */
  lemma ShortPathsOptimal(pattern: Matrix, matrix: Matrix, states: seq<Matrix>, waves: seq<Wave>)
    requires Decomposes(matrix, states, waves) && AllMaximal(states, waves)
    requires Square(pattern, |pattern|) && Within(matrix, pattern) && !HasFourPath(pattern)
    ensures Emitted(waves, |waves|) == PortLoad(matrix)
  {
    hide HasFourPath, PortLoad, Within, Busy;
    CertificateHoldsIff(matrix, states, waves);
    CanonicalWithin(matrix, pattern);
    CanonicalLoad(matrix);
    LoadLeft(states, waves, pattern, |waves|);
  }

  // ------------------------------------------------------------------- every matrix

  lemma {:induction false} NeverGrows(states: seq<Matrix>, waves: seq<Wave>, i: nat, j: nat, k: nat, last: nat)
    requires Run(states, waves) && k <= last <= |waves| && i < |states[0]| && j < |states[0]|
    ensures states[last][i][j] <= states[k][i][j]
    decreases last - k
  {
    hide Step;
    if k < last {
      assert Step(states[last - 1], waves[last - 1], states[last]);
      CellDrop(states[last - 1], waves[last - 1], states[last], i, j);
      NeverGrows(states, waves, i, j, k, last - 1);
    }
  }

  // Two ports of which one is always busy, and both in the last wave.
  lemma {:induction false} TwoPortsCover(waves: seq<Wave>, p: Port, q: Port, k: nat)
    requires k <= |waves| && forall a | 0 <= a < k :: Busy(waves[a], p) || Busy(waves[a], q)
    ensures Emitted(waves, k) <= BusyTime(waves, p, k) + BusyTime(waves, q, k)
    ensures k > 0 && waves[k - 1].quantum > 0 && Busy(waves[k - 1], p) && Busy(waves[k - 1], q) ==>
              Emitted(waves, k) < BusyTime(waves, p, k) + BusyTime(waves, q, k)
  {
    hide Busy;
    if k > 0 { TwoPortsCover(waves, p, q, k - 1); }
  }

  // An entry served in the last wave.
  lemma LastServed(r: Matrix, w: Wave) returns (i: nat, j: nat)
    requires Maximal(r, w) && ZeroDiagonal(r)
    ensures Edge(r, i, j) && Busy(w, Send(i)) && Busy(w, Recv(j))
  {
    i :| 0 <= i < |r| && w.matching[i].Some?;
    j := w.matching[i].value;
  }

  lemma EdgeBusy(r: Matrix, w: Wave, i: nat, j: nat)
    requires Maximal(r, w) && Edge(r, i, j)
    ensures Busy(w, Send(i)) || Busy(w, Recv(j))
  {
  }

  lemma RunState(states: seq<Matrix>, waves: seq<Wave>, k: nat)
    requires Run(states, waves) && k < |states|
    ensures Square(states[k], |states[0]|) && ZeroDiagonal(states[k])
  {
  }

  lemma PortsWithinLoad(matrix: Matrix, states: seq<Matrix>, waves: seq<Wave>, p: Port)
    requires Decomposes(matrix, states, waves) && p.rank < |matrix|
    ensures BusyTime(waves, p, |waves|) <= PortLoad(matrix)
  {
    hide Run, Drained, LoadAt, PortLoad;
    BusyForItsLoad(matrix, states, waves, p);
    PortLoadIsMax(matrix);
  }

  /** On every matrix, peeling any maximal matchings takes less than twice the optimal horizon: an
      entry of the last wave was positive all along, so one of its ports was always busy. */
  lemma WithinTwice(matrix: Matrix, states: seq<Matrix>, waves: seq<Wave>)
    requires Decomposes(matrix, states, waves) && AllMaximal(states, waves) && waves != []
    ensures Emitted(waves, |waves|) < 2 * PortLoad(matrix)
  {
    hide Drained, LoadAt, PortLoad, Busy, Step, Serves, Canonical;
    var last := |waves| - 1;
    RunState(states, waves, last);
    assert Maximal(states[last], waves[last]);
    var i, j := LastServed(states[last], waves[last]);
    forall a: nat | a < |waves|
      ensures Busy(waves[a], Send(i)) || Busy(waves[a], Recv(j))
    {
      RunState(states, waves, a);
      NeverGrows(states, waves, i, j, a, last);
      EdgeBusy(states[a], waves[a], i, j);
    }
    TwoPortsCover(waves, Send(i), Recv(j), |waves|);
    PortsWithinLoad(matrix, states, waves, Send(i));
    PortsWithinLoad(matrix, states, waves, Recv(j));
  }
}
