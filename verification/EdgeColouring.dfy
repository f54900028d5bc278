// Edge colouring.
module EdgeColouring {
  // Koenig's theorem for bipartite multigraphs: unit transfers whose ports carry at
  // most k tasks each can be placed in k time slots so that no port is used twice.
  // The proof recolours along a Kempe chain, kept as a set of task indices.

  import opened Transfers

  ghost predicate Proper(tasks: seq<Task>, colour: seq<nat>, k: nat) {
    && |colour| == |tasks|
    && (forall i | 0 <= i < |tasks| :: colour[i] < k)
    && (forall i, j | 0 <= i < |tasks| && 0 <= j < |tasks| && i != j && SharesPort(tasks[i], tasks[j]) ::
          colour[i] != colour[j])
  }

  ghost predicate Free(tasks: seq<Task>, colour: seq<nat>, port: Port, c: nat)
    requires |colour| == |tasks|
  {
    forall i | 0 <= i < |tasks| && Uses(tasks[i], port) :: colour[i] != c
  }

  ghost function Image(indices: set<nat>, values: seq<nat>): set<nat>
    requires forall i | i in indices :: i < |values|
  {
    set i | i in indices :: values[i]
  }

  lemma {:induction false} ImageBounded(indices: set<nat>, values: seq<nat>)
    requires forall i | i in indices :: i < |values|
    ensures |Image(indices, values)| <= |indices|
    ensures (forall i, j | i in indices && j in indices && i != j :: values[i] != values[j]) ==>
              |Image(indices, values)| == |indices|
  {
    if indices != {} {
      var x :| x in indices;
      ImageBounded(indices - {x}, values);
      assert Image(indices, values) == Image(indices - {x}, values) + {values[x]};
    }
  }

  ghost function Below(k: nat): (s: set<nat>)
    ensures |s| == k && forall c: nat :: c in s <==> c < k
  {
    if k == 0 then {} else Below(k - 1) + {k - 1}
  }

  lemma FreeColour(tasks: seq<Task>, colour: seq<nat>, port: Port, k: nat) returns (c: nat)
    requires |colour| == |tasks| && Degree(tasks, port) < k
    ensures c < k && Free(tasks, colour, port, c)
  {
    var used := Image(UsersOf(tasks, port), colour);
    ImageBounded(UsersOf(tasks, port), colour);
    if Below(k) <= used { SubsetSize(Below(k), used); }
    c :| c in Below(k) && c !in used;
  }

  lemma SubsetSize<T>(a: set<T>, b: set<T>)
    requires a <= b
    ensures |a| <= |b|
  {
    if a != {} {
      var x :| x in a;
      SubsetSize(a - {x}, b - {x});
    }
  }

  // Chain members alternate between the colours a and b, starting from an a-task at Recv(v):
  // each b-task follows an a-task on its send port, each a-task starts the chain at v or
  // follows a b-task on its receive port.
  ghost predicate Follows(tasks: seq<Task>, colour: seq<nat>, v: nat, a: nat, b: nat, chain: set<nat>, x: nat)
    requires |colour| == |tasks|
  {
    && x < |tasks|
    && if colour[x] == a
       then tasks[x].dst == v || exists y :: y in chain && y < |tasks| && colour[y] == b && tasks[y].dst == tasks[x].dst
       else colour[x] == b && exists y :: y in chain && y < |tasks| && colour[y] == a && tasks[y].src == tasks[x].src
  }

  ghost predicate Chain(tasks: seq<Task>, colour: seq<nat>, v: nat, a: nat, b: nat, chain: set<nat>)
    requires |colour| == |tasks|
  {
    forall x | x in chain :: Follows(tasks, colour, v, a, b, chain, x)
  }

  lemma CloseChain(tasks: seq<Task>, colour: seq<nat>, v: nat, a: nat, b: nat, chain: set<nat>)
    returns (closed: set<nat>)
    requires |colour| == |tasks| && Chain(tasks, colour, v, a, b, chain)
    ensures Chain(tasks, colour, v, a, b, closed)
    ensures forall x :: Follows(tasks, colour, v, a, b, closed, x) ==> x in closed
    decreases |tasks| - |chain|
  {
    SubsetSize(chain, Below(|tasks|));
    if x :| Follows(tasks, colour, v, a, b, chain, x) && x !in chain {
      var longer := chain + {x};
      SubsetSize(longer, Below(|tasks|));
      closed := CloseChain(tasks, colour, v, a, b, longer);
    } else {
      closed := chain;
    }
  }

  ghost function Swapped(colour: seq<nat>, chain: set<nat>, a: nat, b: nat): (s: seq<nat>)
    ensures |s| == |colour|
  {
    seq(|colour|, i requires 0 <= i < |colour| =>
      if i !in chain then colour[i] else if colour[i] == a then b else a)
  }

  // A closed chain is a union of connected components of the two-coloured subgraph.
  lemma ChainIsComponent(tasks: seq<Task>, colour: seq<nat>, k: nat, v: nat, a: nat, b: nat, chain: set<nat>, x: nat,
                         y: nat)
    requires Proper(tasks, colour, k) && a != b && Free(tasks, colour, Recv(v), b)
    requires Chain(tasks, colour, v, a, b, chain)
    requires forall z :: Follows(tasks, colour, v, a, b, chain, z) ==> z in chain
    requires x in chain && y < |tasks| && SharesPort(tasks[x], tasks[y]) && (colour[y] == a || colour[y] == b)
    ensures y in chain
  {
    assert Follows(tasks, colour, v, a, b, chain, x);
    if x != y {
      if colour[x] == a {
        if tasks[y].src == tasks[x].src {
          assert Follows(tasks, colour, v, a, b, chain, y);
        } else if tasks[x].dst == v {
          assert false;
        } else {
          var w :| w in chain && w < |tasks| && colour[w] == b && tasks[w].dst == tasks[x].dst;
          assert SharesPort(tasks[w], tasks[y]);
        }
      } else {
        if tasks[y].dst == tasks[x].dst {
          assert Follows(tasks, colour, v, a, b, chain, y);
        } else {
          var w :| w in chain && w < |tasks| && colour[w] == a && tasks[w].src == tasks[x].src;
          assert SharesPort(tasks[w], tasks[y]);
        }
      }
    }
  }

  lemma SwapIsProper(tasks: seq<Task>, colour: seq<nat>, k: nat, v: nat, a: nat, b: nat, chain: set<nat>)
    requires Proper(tasks, colour, k) && a != b && a < k && b < k && Free(tasks, colour, Recv(v), b)
    requires Chain(tasks, colour, v, a, b, chain)
    requires forall z :: Follows(tasks, colour, v, a, b, chain, z) ==> z in chain
    ensures Proper(tasks, Swapped(colour, chain, a, b), k)
  {
    var swapped := Swapped(colour, chain, a, b);
    forall i, j | 0 <= i < |tasks| && 0 <= j < |tasks| && i != j && SharesPort(tasks[i], tasks[j])
      ensures swapped[i] != swapped[j]
    {
      if i in chain {
        assert Follows(tasks, colour, v, a, b, chain, i);
        if colour[j] == a || colour[j] == b { ChainIsComponent(tasks, colour, k, v, a, b, chain, i, j); }
      }
      if j in chain {
        assert Follows(tasks, colour, v, a, b, chain, j);
        if colour[i] == a || colour[i] == b { ChainIsComponent(tasks, colour, k, v, a, b, chain, j, i); }
      }
    }
  }

  /** Recolours so that one colour is free at both ends of a new edge u -> v. */
  lemma FreeAtBothEnds(tasks: seq<Task>, colour: seq<nat>, k: nat, u: nat, v: nat, a: nat, b: nat)
    returns (recoloured: seq<nat>)
    requires Proper(tasks, colour, k) && a < k && b < k
    requires Free(tasks, colour, Send(u), a) && Free(tasks, colour, Recv(v), b)
    ensures Proper(tasks, recoloured, k)
    ensures Free(tasks, recoloured, Send(u), a) && Free(tasks, recoloured, Recv(v), a)
  {
    if a == b {
      return colour;
    }
    var chain := CloseChain(tasks, colour, v, a, b, {});
    recoloured := Swapped(colour, chain, a, b);
    SwapIsProper(tasks, colour, k, v, a, b, chain);
    forall i | 0 <= i < |tasks| && Uses(tasks[i], Send(u))
      ensures recoloured[i] != a
    {
      assert i !in chain;
    }
    forall i | 0 <= i < |tasks| && Uses(tasks[i], Recv(v))
      ensures recoloured[i] != a
    {
      if colour[i] == a { assert Follows(tasks, colour, v, a, b, chain, i); }
    }
  }

  /** Koenig's edge-colouring theorem. */
  lemma Koenig(tasks: seq<Task>, k: nat) returns (colour: seq<nat>)
    requires forall port: Port :: Degree(tasks, port) <= k
    ensures Proper(tasks, colour, k)
  {
    if tasks == [] {
      return [];
    }
    var n := |tasks| - 1;
    var rest, e := tasks[..n], tasks[n];
    forall port: Port
      ensures Degree(rest, port) <= k
    {
      DegreeSnoc(rest, e, port);
      assert tasks == rest + [e] && Degree(tasks, port) <= k;
    }
    assert tasks == rest + [e];
    DegreeSnoc(rest, e, Send(e.src));
    DegreeSnoc(rest, e, Recv(e.dst));
    var before := Koenig(rest, k);
    assert Degree(tasks, Send(e.src)) <= k && Degree(tasks, Recv(e.dst)) <= k;
    var a := FreeColour(rest, before, Send(e.src), k);
    var b := FreeColour(rest, before, Recv(e.dst), k);
    var recoloured := FreeAtBothEnds(rest, before, k, e.src, e.dst, a, b);
    colour := recoloured + [a];
    forall i, j | 0 <= i < |tasks| && 0 <= j < |tasks| && i != j && SharesPort(tasks[i], tasks[j])
      ensures colour[i] != colour[j]
    {
      if i < n && j < n {
        assert SharesPort(rest[i], rest[j]);
      } else {
        var o := if i < n then i else j;
        assert Uses(rest[o], Send(e.src)) || Uses(rest[o], Recv(e.dst));
      }
    }
  }
}
