// All-to-all data movement.
module Exchange {
  // The one-shot layout and its inverse.

  import opened Transfers

  // ------------------------------------------------------------ one-shot layout

  /** Rows rank s sends to the first d ranks, itself included. */
  function RowPrefix(m: Matrix, s: nat, d: nat): nat
    requires s < |m| && d <= |m[s]|
  {
    if d == 0 then 0 else RowPrefix(m, s, d - 1) + m[s][d - 1]
  }

  /** Rows rank d receives from the first s ranks, itself included. */
  function ColPrefix(m: Matrix, d: nat, s: nat): nat
    requires Square(m, |m|) && d < |m| && s <= |m|
  {
    if s == 0 then 0 else ColPrefix(m, d, s - 1) + m[s - 1][d]
  }

  lemma RowPrefixMonotone(m: Matrix, s: nat, d: nat, e: nat)
    requires s < |m| && d <= e <= |m[s]|
    ensures RowPrefix(m, s, d) <= RowPrefix(m, s, e)
  {
    if d < e { RowPrefixMonotone(m, s, d, e - 1); }
  }

  // Every rank's buffer holds exactly the rows it sends, grouped by destination.
  ghost predicate Fits<T>(m: Matrix, buffers: seq<seq<T>>) {
    Square(m, |m|) && |buffers| == |m| && forall s | 0 <= s < |m| :: |buffers[s]| == RowPrefix(m, s, |m|)
  }

  /** The rows rank s sends to rank l. */
  function Segment<T>(m: Matrix, buffers: seq<seq<T>>, s: nat, l: nat): (rows: seq<T>)
    requires Fits(m, buffers) && s < |m| && l < |m|
    ensures |rows| == m[s][l]
  {
    RowPrefixMonotone(m, s, l + 1, |m|);
    buffers[s][RowPrefix(m, s, l)..RowPrefix(m, s, l + 1)]
  }

  function ReceivedFrom<T>(m: Matrix, buffers: seq<seq<T>>, l: nat, s: nat): (rows: seq<T>)
    requires Fits(m, buffers) && l < |m| && s <= |m|
    ensures |rows| == ColPrefix(m, l, s)
  {
    if s == 0 then [] else ReceivedFrom(m, buffers, l, s - 1) + Segment(m, buffers, s - 1, l)
  }

  /** What each rank holds after one all-to-all with row counts m. */
  function Dispatch<T>(m: Matrix, buffers: seq<seq<T>>): seq<seq<T>>
    requires Fits(m, buffers)
  {
    seq(|m|, l requires 0 <= l < |m| => ReceivedFrom(m, buffers, l, |m|))
  }

  /** The expected output of one rank, segment by segment. */
  method ExpectedOutput<T>(m: Matrix, buffers: seq<seq<T>>, local: nat) returns (rows: seq<T>)
    requires Fits(m, buffers) && local < |m|
    ensures rows == Dispatch(m, buffers)[local]
  {
    rows := [];
    for s := 0 to |m|
      invariant rows == ReceivedFrom(m, buffers, local, s)
    {
      var base := 0;
      for peer := 0 to local
        invariant base == RowPrefix(m, s, peer)
      {
        base := base + m[s][peer];
      }
      RowPrefixMonotone(m, s, local + 1, |m|);
      if m[s][local] > 0 {
        rows := rows + buffers[s][base..base + m[s][local]];
      } else {
        assert Segment(m, buffers, s, local) == [];
      }
    }
  }

  lemma ColPrefixMonotone(m: Matrix, d: nat, s: nat, t: nat)
    requires Square(m, |m|) && d < |m| && s <= t <= |m|
    ensures ColPrefix(m, d, s) <= ColPrefix(m, d, t)
  {
    if s < t { ColPrefixMonotone(m, d, s, t - 1); }
  }

  lemma SliceOfFront<T>(a: seq<T>, b: seq<T>, lo: nat, hi: nat)
    requires lo <= hi <= |a|
    ensures (a + b)[lo..hi] == a[lo..hi]
  {
  }

  lemma SliceOfBack<T>(a: seq<T>, b: seq<T>)
    ensures (a + b)[|a|..|a| + |b|] == b
  {
  }

  /** Each incoming segment sits at the receiver's prefix offset. */
  lemma {:induction false} SegmentPosition<T>(m: Matrix, buffers: seq<seq<T>>, l: nat, s: nat, k: nat)
    requires Fits(m, buffers) && l < |m| && s < k <= |m|
    ensures ColPrefix(m, l, s + 1) <= ColPrefix(m, l, k)
    ensures ReceivedFrom(m, buffers, l, k)[ColPrefix(m, l, s)..ColPrefix(m, l, s + 1)] == Segment(m, buffers, s, l)
  {
    ColPrefixMonotone(m, l, s + 1, k);
    var before, last := ReceivedFrom(m, buffers, l, k - 1), Segment(m, buffers, k - 1, l);
    if s + 1 < k {
      SegmentPosition(m, buffers, l, s, k - 1);
      ColPrefixMonotone(m, l, s + 1, k - 1);
      SliceOfFront(before, last, ColPrefix(m, l, s), ColPrefix(m, l, s + 1));
    } else {
      SliceOfBack(before, last);
    }
  }

  lemma TransposedPrefix(m: Matrix, d: nat, s: nat)
    requires Square(m, |m|) && d < |m| && s <= |m|
    ensures RowPrefix(Transpose(m), d, s) == ColPrefix(m, d, s)
  {
    if s > 0 { TransposedPrefix(m, d, s - 1); }
  }

  lemma DispatchFits<T>(m: Matrix, buffers: seq<seq<T>>)
    requires Fits(m, buffers)
    ensures Fits(Transpose(m), Dispatch(m, buffers))
  {
    forall d | 0 <= d < |m|
      ensures |Dispatch(m, buffers)[d]| == RowPrefix(Transpose(m), d, |m|)
    {
      TransposedPrefix(m, d, |m|);
    }
  }

  // The segment that comes back from d is the one that was sent there.
  lemma SegmentReturns<T>(m: Matrix, buffers: seq<seq<T>>, s: nat, d: nat)
    requires Fits(m, buffers) && Fits(Transpose(m), Dispatch(m, buffers)) && s < |m| && d < |m|
    ensures Segment(Transpose(m), Dispatch(m, buffers), d, s) == Segment(m, buffers, s, d)
  {
    TransposedPrefix(m, d, s);
    TransposedPrefix(m, d, s + 1);
    SegmentPosition(m, buffers, d, s, |m|);
  }

  lemma {:induction false} CombineRebuilds<T>(m: Matrix, buffers: seq<seq<T>>, s: nat, d: nat)
    requires Fits(m, buffers) && Fits(Transpose(m), Dispatch(m, buffers)) && s < |m| && d <= |m|
    requires RowPrefix(m, s, d) <= |buffers[s]|
    ensures ReceivedFrom(Transpose(m), Dispatch(m, buffers), s, d) == buffers[s][..RowPrefix(m, s, d)]
  {
    if d > 0 {
      RowPrefixMonotone(m, s, d - 1, d);
      CombineRebuilds(m, buffers, s, d - 1);
      SegmentReturns(m, buffers, s, d - 1);
    }
  }

  /** Combine undoes dispatch: sending everything back along the transposed matrix restores every buffer. */
  lemma CombineUndoesDispatch<T>(m: Matrix, buffers: seq<seq<T>>)
    requires Fits(m, buffers)
    ensures Fits(Transpose(m), Dispatch(m, buffers))
    ensures Dispatch(Transpose(m), Dispatch(m, buffers)) == buffers
  {
    DispatchFits(m, buffers);
    forall s | 0 <= s < |m|
      ensures Dispatch(Transpose(m), Dispatch(m, buffers))[s] == buffers[s]
    {
      CombineRebuilds(m, buffers, s, |m|);
      assert buffers[s][..|buffers[s]|] == buffers[s];
    }
  }
}
