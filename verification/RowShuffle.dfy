// The shuffled forecast.
module RowShuffle {
  // The positive entries of every row, rewritten in place in reverse order.

  import opened IntSums

  function Positives(s: seq<int>, n: nat): seq<int>
    requires n <= |s|
  {
    if n == 0 then [] else Positives(s, n - 1) + (if s[n - 1] > 0 then [s[n - 1]] else [])
  }

  function Reversed(s: seq<int>): (r: seq<int>)
    ensures |r| == |s|
  {
    seq(|s|, k requires 0 <= k < |s| => s[|s| - 1 - k])
  }

  lemma {:induction false} PositiveAt(s: seq<int>, k: nat, n: nat)
    requires k < n <= |s|
    ensures |Positives(s, k)| <= |Positives(s, n)|
    ensures s[k] > 0 ==> |Positives(s, k)| < |Positives(s, n)| && Positives(s, n)[|Positives(s, k)|] == s[k]
  {
    if k < n - 1 { PositiveAt(s, k, n - 1); }
  }

  /** Every positive entry is replaced by its mirror image among the positive entries. */
  function Shuffled(s: seq<int>): (t: seq<int>)
    ensures |t| == |s|
  {
    seq(|s|, k requires 0 <= k < |s| => ShuffledAt(s, k))
  }

  function ShuffledAt(s: seq<int>, k: nat): int
    requires k < |s|
  {
    PositiveAt(s, k, |s|);
    if s[k] > 0 then Reversed(Positives(s, |s|))[|Positives(s, k)|] else s[k]
  }

  method CollectPositives(row: array<int>) returns (values: seq<int>)
    ensures values == Positives(row[..], row.Length)
  {
    values := [];
    for k := 0 to row.Length
      invariant values == Positives(row[..], k)
    {
      if row[k] > 0 {
        values := values + [row[k]];
      }
    }
  }

  lemma ShortReverse(values: seq<int>)
    requires |values| <= 1
    ensures Reversed(values) == values
  {
  }

  // The k-th entry of the shuffled row, read from the reversed positive entries.
  lemma NextValue(s: seq<int>, k: nat, mirror: seq<int>)
    requires k < |s| && mirror == Reversed(Positives(s, |s|))
    ensures s[k] <= 0 ==> ShuffledAt(s, k) == s[k] && |Positives(s, k + 1)| == |Positives(s, k)|
    ensures s[k] > 0 ==> |Positives(s, k)| < |mirror| && ShuffledAt(s, k) == mirror[|Positives(s, k)|]
    ensures s[k] > 0 ==> |Positives(s, k + 1)| == |Positives(s, k)| + 1
  {
    PositiveAt(s, k, |s|);
  }

  lemma EntriesMakeShuffled(t: seq<int>, s: seq<int>)
    requires |t| == |s| && forall k | 0 <= k < |s| :: t[k] == ShuffledAt(s, k)
    ensures t == Shuffled(s)
  {
  }

  /** Rewrites one row in place, skipping its diagonal entry, which a canonical row has at zero. */
  method ShuffleRow(row: array<int>, diagonal: nat)
    requires diagonal < row.Length ==> row[diagonal] == 0
    modifies row
    ensures row[..] == Shuffled(old(row[..]))
  {
    hide ShuffledAt, Positives, Reversed;
    ghost var was := row[..];
    var values := CollectPositives(row);
    ghost var mirror := Reversed(values);
    if |values| > 1 {
      values := Reversed(values);
    } else {
      ShortReverse(values);
    }
    var writeIdx := 0;
    assert |Positives(was, 0)| == 0 by { NonePositive(was); }
    for col := 0 to row.Length
      invariant row.Length == |was| && writeIdx == |Positives(was, col)|
      invariant forall k | 0 <= k < col :: row[k] == ShuffledAt(was, k)
      invariant forall k | col <= k < row.Length :: row[k] == was[k]
    {
      NextValue(was, col, mirror);
      if col != diagonal && row[col] > 0 {
        row[col] := values[writeIdx];
        writeIdx := writeIdx + 1;
      }
    }
    EntriesMakeShuffled(row[..], was);
  }

  lemma NonePositive(s: seq<int>)
    ensures Positives(s, 0) == []
  {
  }

  lemma {:induction false} PositivesPositive(s: seq<int>, n: nat)
    requires n <= |s|
    ensures forall k | 0 <= k < |Positives(s, n)| :: Positives(s, n)[k] > 0
  {
    if n > 0 { PositivesPositive(s, n - 1); }
  }

  lemma TakeOneMore(s: seq<int>, c: nat)
    requires c < |s|
    ensures s[..c] + [s[c]] == s[..c + 1]
  {
  }

  // The positive entries of the shuffled row are those of the row, read backwards.
  lemma {:induction false} ShuffledPositives(s: seq<int>, n: nat, mirror: seq<int>)
    requires n <= |s| && mirror == Reversed(Positives(s, |s|))
    ensures |Positives(s, n)| <= |mirror| && Positives(Shuffled(s), n) == mirror[..|Positives(s, n)|]
  {
    hide Reversed, ShuffledAt;
    if n > 0 {
      ShuffledPositives(s, n - 1, mirror);
      NextValue(s, n - 1, mirror);
      assert Shuffled(s)[n - 1] == ShuffledAt(s, n - 1);
      if s[n - 1] > 0 {
        TakeOneMore(mirror, |Positives(s, n - 1)|);
        MirrorPositive(s, mirror, |Positives(s, n - 1)|);
      }
    }
  }

  lemma MirrorPositive(s: seq<int>, mirror: seq<int>, k: nat)
    requires mirror == Reversed(Positives(s, |s|)) && k < |mirror|
    ensures mirror[k] > 0
  {
    hide Positives;
    PositivesPositive(s, |s|);
  }

  lemma ShuffledTwiceAt(s: seq<int>, t: seq<int>, k: nat)
    requires t == Shuffled(s) && k < |s|
    ensures Shuffled(t)[k] == s[k] && (t[k] > 0 <==> s[k] > 0)
  {
    var mirror := Reversed(Positives(s, |s|));
    NextValue(s, k, mirror);
    ShuffledPositives(s, k, mirror);
    ShuffledPositives(s, |s|, mirror);
    PositiveAt(s, k, |s|);
    assert t[k] == ShuffledAt(s, k) && Shuffled(t)[k] == ShuffledAt(t, k);
    if s[k] > 0 {
      MirrorPositive(s, mirror, |Positives(s, k)|);
      NextValue(t, k, Reversed(Positives(t, |t|)));
    }
  }

  /** Shuffling twice gives the row back, and never moves an entry onto a zero. */
  lemma ShuffleTwice(s: seq<int>)
    ensures Shuffled(Shuffled(s)) == s
    ensures forall k | 0 <= k < |s| :: Shuffled(s)[k] > 0 <==> s[k] > 0
  {
    forall k: nat | k < |s|
      ensures Shuffled(Shuffled(s))[k] == s[k] && (Shuffled(s)[k] > 0 <==> s[k] > 0)
    {
      ShuffledTwiceAt(s, Shuffled(s), k);
    }
  }

  lemma {:induction false} SumOfPositives(s: seq<int>, n: nat)
    requires n <= |s| && forall k | 0 <= k < |s| :: s[k] >= 0
    ensures SumUpTo(s, n) == Sum(Positives(s, n))
  {
    if n > 0 {
      SumOfPositives(s, n - 1);
      if s[n - 1] > 0 {
        SumConcat(Positives(s, n - 1), [s[n - 1]]);
        assert SumUpTo([s[n - 1]], 0) == 0;
      } else {
        assert Positives(s, n) == Positives(s, n - 1);
      }
    }
  }

  lemma {:induction false} SumReversed(s: seq<int>)
    ensures Sum(Reversed(s)) == Sum(s)
  {
    if s != [] {
      var rest, last := s[..|s| - 1], s[|s| - 1];
      SumReversed(rest);
      assert s == rest + [last] && Reversed(s) == [last] + Reversed(rest);
      SumConcat(rest, [last]);
      SumConcat([last], Reversed(rest));
      assert SumUpTo([last], 0) == 0;
    }
  }

  /** Shuffling keeps what each rank sends in total. */
  lemma ShuffleKeepsRowSum(s: seq<int>)
    requires forall k | 0 <= k < |s| :: s[k] >= 0
    ensures Sum(Shuffled(s)) == Sum(s)
  {
    var t, p := Shuffled(s), Positives(s, |s|);
    ShuffledPositives(s, |s|, Reversed(p));
    forall k: nat | k < |s|
      ensures t[k] >= 0
    {
      ShuffledTwiceAt(s, t, k);
      assert t[k] == ShuffledAt(s, k);
    }
    SumOfPositives(s, |s|);
    SumOfPositives(t, |s|);
    assert Positives(t, |t|) == Reversed(p);
    SumReversed(p);
  }
}
