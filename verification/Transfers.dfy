// Transfers on ports.
module Transfers {
  // Unit transfers, the full-duplex ports they occupy, and traffic matrices.

  datatype Task = Task(phase: nat, src: nat, dst: nat, duration: nat, ordinal: nat)

  // Every rank owns one send port and one receive port.
  datatype Port = Send(rank: nat) | Recv(rank: nat)

  predicate Uses(t: Task, port: Port) {
    match port
    case Send(r) => t.src == r
    case Recv(r) => t.dst == r
  }

  predicate SharesPort(a: Task, b: Task) {
    a.src == b.src || a.dst == b.dst
  }

  ghost function UsersOf(tasks: seq<Task>, port: Port): set<nat> {
    set i: nat | i < |tasks| && Uses(tasks[i], port)
  }

  /** The number of tasks that occupy `port`. */
  ghost function Degree(tasks: seq<Task>, port: Port): nat {
    |UsersOf(tasks, port)|
  }

  lemma DegreeSnoc(tasks: seq<Task>, t: Task, port: Port)
    ensures Degree(tasks + [t], port) == Degree(tasks, port) + (if Uses(t, port) then 1 else 0)
  {
    if Uses(t, port) {
      assert UsersOf(tasks + [t], port) == UsersOf(tasks, port) + {|tasks|};
    } else {
      assert UsersOf(tasks + [t], port) == UsersOf(tasks, port);
    }
  }

  lemma {:induction false} DegreeConcat(a: seq<Task>, b: seq<Task>, port: Port)
    ensures Degree(a + b, port) == Degree(a, port) + Degree(b, port)
  {
    if b == [] {
      assert a + b == a;
    } else {
      var front, last := b[..|b| - 1], b[|b| - 1];
      assert b == front + [last] && a + b == (a + front) + [last];
      DegreeConcat(a, front, port);
      DegreeSnoc(a + front, last, port);
      DegreeSnoc(front, last, port);
    }
  }

  type Matrix = seq<seq<nat>>

  predicate Square(m: Matrix, n: nat) {
    |m| == n && forall i | 0 <= i < n :: |m[i]| == n
  }

  /** Rows leaving `src` for the first `cols` ranks, the diagonal left out. */
  function RemoteRowSum(m: Matrix, src: nat, cols: nat): nat
    requires src < |m| && cols <= |m[src]|
  {
    if cols == 0 then 0
    else RemoteRowSum(m, src, cols - 1) + (if src == cols - 1 then 0 else m[src][cols - 1])
  }

  /** Rows reaching `dst` from the first `rows` ranks, the diagonal left out. */
  function RemoteColSum(m: Matrix, dst: nat, rows: nat): nat
    requires Square(m, |m|) && dst < |m| && rows <= |m|
  {
    if rows == 0 then 0
    else RemoteColSum(m, dst, rows - 1) + (if rows - 1 == dst then 0 else m[rows - 1][dst])
  }

  function LoadAt(m: Matrix, port: Port): nat
    requires Square(m, |m|)
  {
    if port.rank >= |m| then 0
    else match port
      case Send(r) => RemoteRowSum(m, r, |m|)
      case Recv(r) => RemoteColSum(m, r, |m|)
  }

  function Max(a: nat, b: nat): nat { if a >= b then a else b }

  function PortLoadUpTo(m: Matrix, ranks: nat): nat
    requires Square(m, |m|) && ranks <= |m|
  {
    if ranks == 0 then 0
    else Max(PortLoadUpTo(m, ranks - 1), Max(LoadAt(m, Send(ranks - 1)), LoadAt(m, Recv(ranks - 1))))
  }

  /** The heaviest port: the largest off-diagonal row or column sum. */
  function PortLoad(m: Matrix): nat
    requires Square(m, |m|)
  {
    PortLoadUpTo(m, |m|)
  }

  lemma PortLoadUpToIsMax(m: Matrix, ranks: nat)
    requires Square(m, |m|) && ranks <= |m|
    ensures forall port: Port :: port.rank < ranks ==> LoadAt(m, port) <= PortLoadUpTo(m, ranks)
    ensures PortLoadUpTo(m, ranks) == 0 || exists port: Port ::
            port.rank < ranks && LoadAt(m, port) == PortLoadUpTo(m, ranks)
  {
    if ranks > 0 {
      PortLoadUpToIsMax(m, ranks - 1);
      forall port: Port | port.rank < ranks
        ensures LoadAt(m, port) <= PortLoadUpTo(m, ranks)
      {
        if port.rank == ranks - 1 {
          assert port == Send(ranks - 1) || port == Recv(ranks - 1);
        }
      }
      if PortLoadUpTo(m, ranks) == LoadAt(m, Send(ranks - 1)) {
      } else if PortLoadUpTo(m, ranks) == LoadAt(m, Recv(ranks - 1)) {
      } else {
        assert PortLoadUpTo(m, ranks) == PortLoadUpTo(m, ranks - 1);
      }
    }
  }

  /** PortLoad bounds the load of every port and, unless zero, is reached by one. */
  lemma PortLoadIsMax(m: Matrix)
    requires Square(m, |m|)
    ensures forall port: Port :: LoadAt(m, port) <= PortLoad(m)
    ensures PortLoad(m) == 0 || exists port: Port :: port.rank < |m| && LoadAt(m, port) == PortLoad(m)
  {
    PortLoadUpToIsMax(m, |m|);
  }

  function MatrixSum(a: Matrix, b: Matrix): (s: Matrix)
    requires Square(a, |a|) && Square(b, |a|)
    ensures Square(s, |a|)
  {
    seq(|a|, i requires 0 <= i < |a| => seq(|a|, j requires 0 <= j < |a| => a[i][j] + b[i][j]))
  }

  function Transpose(m: Matrix): (t: Matrix)
    requires Square(m, |m|)
    ensures Square(t, |m|)
    ensures forall i, j | 0 <= i < |m| && 0 <= j < |m| :: t[i][j] == m[j][i]
  {
    seq(|m|, i requires 0 <= i < |m| => seq(|m|, j requires 0 <= j < |m| => m[j][i]))
  }

  lemma LoadAtSum(a: Matrix, b: Matrix, port: Port)
    requires Square(a, |a|) && Square(b, |a|)
    ensures LoadAt(MatrixSum(a, b), port) == LoadAt(a, port) + LoadAt(b, port)
  {
    if port.rank < |a| {
      match port
      case Send(r) => RowSumAdds(a, b, r, |a|);
      case Recv(r) => ColSumAdds(a, b, r, |a|);
    }
  }

  lemma RowSumAdds(a: Matrix, b: Matrix, src: nat, cols: nat)
    requires Square(a, |a|) && Square(b, |a|) && src < |a| && cols <= |a|
    ensures RemoteRowSum(MatrixSum(a, b), src, cols) == RemoteRowSum(a, src, cols) + RemoteRowSum(b, src, cols)
  {
    if cols > 0 { RowSumAdds(a, b, src, cols - 1); }
  }

  lemma ColSumAdds(a: Matrix, b: Matrix, dst: nat, rows: nat)
    requires Square(a, |a|) && Square(b, |a|) && dst < |a| && rows <= |a|
    ensures RemoteColSum(MatrixSum(a, b), dst, rows) == RemoteColSum(a, dst, rows) + RemoteColSum(b, dst, rows)
  {
    if rows > 0 { ColSumAdds(a, b, dst, rows - 1); }
  }

  lemma TransposeSwapsPorts(m: Matrix, r: nat, k: nat)
    requires Square(m, |m|) && r < |m| && k <= |m|
    ensures RemoteRowSum(Transpose(m), r, k) == RemoteColSum(m, r, k)
    ensures RemoteColSum(Transpose(m), r, k) == RemoteRowSum(m, r, k)
  {
    if k > 0 { TransposeSwapsPorts(m, r, k - 1); }
  }
}
