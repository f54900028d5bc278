// Pearson and Spearman correlation.
module Correlation {
  // Bounded, and perfect exactly when the orders agree.

  import opened Wrappers
  import opened RealArith
  import opened RankStats

  // ------------------------------------------------------------- inner products

  function Dot(a: seq<real>, b: seq<real>, k: nat): real
    requires k <= |a| && k <= |b|
  {
    if k == 0 then 0.0 else Dot(a, b, k - 1) + a[k - 1] * b[k - 1]
  }

  function SquaredGap(s: real, t: real, x: real, y: real): (r: real)
    ensures r >= 0.0 && (r == 0.0 <==> s * y == t * x)
  {
    Square(s * y - t * x)
  }

  // Sum of the squares of s * b[i] - t * a[i].
  function Residual(a: seq<real>, b: seq<real>, s: real, t: real, k: nat): real
    requires k <= |a| && k <= |b|
  {
    if k == 0 then 0.0 else Residual(a, b, s, t, k - 1) + SquaredGap(s, t, a[k - 1], b[k - 1])
  }

  lemma ExpandSquare(s: real, t: real, x: real, y: real)
    ensures SquaredGap(s, t, x, y) == s * s * (y * y) - 2.0 * s * t * (x * y) + t * t * (x * x)
  {
  }

  // The residual in terms of the two sums of squares and the inner product.
  function Expanded(s: real, t: real, p: real, q: real, c: real): real {
    s * s * q - 2.0 * s * t * c + t * t * p
  }

  // One more pair in the expansion of the residual.
  lemma ExpansionStep(s: real, t: real, p: real, q: real, c: real, x: real, y: real)
    ensures Expanded(s, t, p + x * x, q + y * y, c + x * y) == Expanded(s, t, p, q, c) + SquaredGap(s, t, x, y)
  {
    ExpandSquare(s, t, x, y);
    Collect(s * s, q, y * y);
    Collect(2.0 * s * t, c, x * y);
    Collect(t * t, p, x * x);
  }

  lemma ExpandedZero(s: real, t: real, p: real, q: real, c: real)
    requires p == 0.0 && q == 0.0 && c == 0.0
    ensures Expanded(s, t, p, q, c) == 0.0
  {
  }

  lemma PairAdded(s: real, t: real, p: real, q: real, c: real, x: real, y: real, p': real, q': real, c': real)
    requires p' == p + x * x && q' == q + y * y && c' == c + x * y
    ensures Expanded(s, t, p', q', c') == Expanded(s, t, p, q, c) + SquaredGap(s, t, x, y)
  {
    ExpansionStep(s, t, p, q, c, x, y);
  }

  lemma {:induction false} ResidualExpands(a: seq<real>, b: seq<real>, s: real, t: real, k: nat)
    requires k <= |a| && k <= |b|
    ensures Residual(a, b, s, t, k) == Expanded(s, t, Dot(a, a, k), Dot(b, b, k), Dot(a, b, k))
  {
    hide Expanded, SquaredGap;
    if k == 0 {
      ExpandedZero(s, t, Dot(a, a, 0), Dot(b, b, 0), Dot(a, b, 0));
    } else {
      ResidualExpands(a, b, s, t, k - 1);
      PairAdded(s, t, Dot(a, a, k - 1), Dot(b, b, k - 1), Dot(a, b, k - 1), a[k - 1], b[k - 1],
                Dot(a, a, k), Dot(b, b, k), Dot(a, b, k));
    }
  }

  lemma {:induction false} ResidualNonNegative(a: seq<real>, b: seq<real>, s: real, t: real, k: nat)
    requires k <= |a| && k <= |b|
    ensures Residual(a, b, s, t, k) >= 0.0
    ensures Residual(a, b, s, t, k) == 0.0 ==> forall i | 0 <= i < k :: s * b[i] == t * a[i]
  {
    if k > 0 {
      ResidualNonNegative(a, b, s, t, k - 1);
    }
  }

  lemma {:induction false} DotSelf(a: seq<real>, k: nat)
    requires k <= |a|
    ensures Dot(a, a, k) >= 0.0
    ensures Dot(a, a, k) == 0.0 <==> forall i | 0 <= i < k :: a[i] == 0.0
  {
    if k > 0 {
      DotSelf(a, k - 1);
      assert a[k - 1] * a[k - 1] == Square(a[k - 1]);
    }
  }

  lemma {:induction false} DotZero(a: seq<real>, b: seq<real>, k: nat)
    requires k <= |a| && k <= |b| && forall i | 0 <= i < k :: a[i] == 0.0
    ensures Dot(a, b, k) == 0.0
  {
    if k > 0 { DotZero(a, b, k - 1); }
  }

  lemma FactorResidual(p: real, q: real, c: real)
    ensures Expanded(p, c, p, q, c) == p * (p * q - c * c)
  {
  }

  lemma ResidualFactors(a: seq<real>, b: seq<real>, p: real, q: real, c: real)
    requires |a| == |b| && p == Dot(a, a, |a|) && q == Dot(b, b, |a|) && c == Dot(a, b, |a|)
    ensures Residual(a, b, p, c, |a|) == p * (p * q - c * c)
  {
    hide Expanded, Residual, Dot;
    ResidualExpands(a, b, p, c, |a|);
    FactorResidual(p, q, c);
  }

  /** The squared numerator c never exceeds the product of the sums of squares p and q; at equality
      one sequence is a multiple of the other. */
  lemma CauchySchwarz(a: seq<real>, b: seq<real>, p: real, q: real, c: real)
    requires |a| == |b| && p == Dot(a, a, |a|) && q == Dot(b, b, |a|) && c == Dot(a, b, |a|)
    ensures c * c <= p * q
    ensures p > 0.0 && c * c == p * q ==> forall i | 0 <= i < |a| :: p * b[i] == c * a[i]
  {
    hide Dot, Residual;
    DotSelf(a, |a|);
    if p == 0.0 {
      DotZero(a, b, |a|);
    } else {
      ResidualFactors(a, b, p, q, c);
      ResidualNonNegative(a, b, p, c, |a|);
      PositiveFactor(p, p * q - c * c);
    }
  }

  // -------------------------------------------------------------------- Pearson

  function Mean(xs: seq<real>): real
    requires xs != []
  {
    RealSum(xs, |xs|) / |xs| as real
  }

  function Centred(xs: seq<real>): (c: seq<real>)
    requires xs != []
    ensures |c| == |xs|
  {
    seq(|xs|, i requires 0 <= i < |xs| => xs[i] - Mean(xs))
  }

  function SumOfSquares(xs: seq<real>): real
    requires xs != []
  {
    Dot(Centred(xs), Centred(xs), |xs|)
  }

  function Covariation(xs: seq<real>, ys: seq<real>): real
    requires |xs| == |ys| > 0
  {
    Dot(Centred(xs), Centred(ys), |xs|)
  }

  // root is the non-negative square root of x.
  predicate IsRoot(root: real, x: real) { root >= 0.0 && root * root == x }

  /** Pearson's coefficient, given the square roots of the two sums of squares; absent for samples
      of different lengths, for fewer than two samples and for constant samples. */
  function Pearson(xs: seq<real>, ys: seq<real>, rootX: real, rootY: real): Option<real>
    requires xs != [] && ys != [] ==> IsRoot(rootX, SumOfSquares(xs)) && IsRoot(rootY, SumOfSquares(ys))
  {
    if |xs| != |ys| || |xs| < 2 then None
    else if rootX <= 0.0 || rootY <= 0.0 then None
    else (PositiveProduct(rootX, rootY); Some(Covariation(xs, ys) / (rootX * rootY)))
  }

  lemma OneMore(x: real, k: nat)
    requires k > 0
    ensures x * k as real == x * (k - 1) as real + x
  {
    Collect(x, (k - 1) as real, 1.0);
  }

  lemma {:induction false} ConstantMean(xs: seq<real>, x: real, k: nat)
    requires k <= |xs| && forall i | 0 <= i < |xs| :: xs[i] == x
    ensures RealSum(xs, k) == x * k as real
  {
    if k > 0 {
      ConstantMean(xs, x, k - 1);
      OneMore(x, k);
    }
  }

  lemma MeanOfConstant(xs: seq<real>)
    requires xs != [] && forall i | 0 <= i < |xs| :: xs[i] == xs[0]
    ensures Mean(xs) == xs[0]
  {
    ConstantMean(xs, xs[0], |xs|);
    CancelLength(xs[0], |xs|);
  }

  /** A sample has no spread exactly when all its values are equal. */
  lemma NoSpreadIffConstant(xs: seq<real>)
    requires xs != []
    ensures SumOfSquares(xs) == 0.0 <==> forall i | 0 <= i < |xs| :: xs[i] == xs[0]
  {
    DotSelf(Centred(xs), |xs|);
    if SumOfSquares(xs) == 0.0 {
      forall i | 0 <= i < |xs|
        ensures xs[i] == xs[0]
      {
        assert Centred(xs)[i] == 0.0 && Centred(xs)[0] == 0.0;
      }
    }
    if forall i | 0 <= i < |xs| :: xs[i] == xs[0] {
      MeanOfConstant(xs);
      forall i | 0 <= i < |xs|
        ensures Centred(xs)[i] == 0.0
      {
      }
    }
  }

  lemma RootPositive(root: real, x: real)
    requires IsRoot(root, x)
    ensures root > 0.0 <==> x != 0.0
  {
    assert root * root == Square(root);
  }

  /** Pearson's coefficient lies in [-1, 1] and is absent exactly for the degenerate samples. */
  lemma PearsonInRange(xs: seq<real>, ys: seq<real>, rootX: real, rootY: real)
    requires |xs| == |ys| >= 2 && IsRoot(rootX, SumOfSquares(xs)) && IsRoot(rootY, SumOfSquares(ys))
    ensures Pearson(xs, ys, rootX, rootY).None? <==>
              (forall i | 0 <= i < |xs| :: xs[i] == xs[0]) || (forall i | 0 <= i < |ys| :: ys[i] == ys[0])
    ensures Pearson(xs, ys, rootX, rootY).Some? ==> -1.0 <= Pearson(xs, ys, rootX, rootY).value <= 1.0
  {
    NoSpreadIffConstant(xs);
    NoSpreadIffConstant(ys);
    RootPositive(rootX, SumOfSquares(xs));
    RootPositive(rootY, SumOfSquares(ys));
    if rootX > 0.0 && rootY > 0.0 {
      CauchySchwarz(Centred(xs), Centred(ys), SumOfSquares(xs), SumOfSquares(ys), Covariation(xs, ys));
      PositiveProduct(rootX, rootY);
      SquareOfProduct(rootX, rootY);
      RatioBounds(Covariation(xs, ys), rootX * rootY);
    }
  }

  // ------------------------------------------------------------------- Spearman

  function Spearman(xs: seq<real>, ys: seq<real>, rootX: real, rootY: real): Option<real>
    requires xs != [] && ys != [] ==>
               IsRoot(rootX, SumOfSquares(AverageRanks(xs))) && IsRoot(rootY, SumOfSquares(AverageRanks(ys)))
  {
    if |xs| != |ys| || |xs| < 2 then None else Pearson(AverageRanks(xs), AverageRanks(ys), rootX, rootY)
  }

  lemma EqualRoots(r: real, s: real, x: real)
    requires IsRoot(r, x) && IsRoot(s, x)
    ensures r == s
  {
    SquareOrder(r, s);
    SquareOrder(s, r);
  }

  ghost predicate SameOrder(xs: seq<real>, ys: seq<real>) {
    |xs| == |ys| && forall i, j | 0 <= i < |xs| && 0 <= j < |xs| :: xs[i] < xs[j] <==> ys[i] < ys[j]
  }

  lemma ScaledOrder(p: real, c: real, a: real, a': real, b: real, b': real)
    requires p > 0.0 && c > 0.0 && p * b == c * a && p * b' == c * a'
    ensures a < a' <==> b < b'
  {
    Collect(p, b, b');
    Collect(c, a, a');
    PositiveFactor(p, b - b');
    PositiveFactor(c, a - a');
  }

  // A coefficient of 1 makes the numerator the product of the roots.
  lemma PerfectNumerator(xs: seq<real>, ys: seq<real>, rootX: real, rootY: real, p: real, q: real, c: real)
    requires |xs| == |ys| >= 2 && IsRoot(rootX, p) && IsRoot(rootY, q)
    requires p == SumOfSquares(xs) && q == SumOfSquares(ys) && c == Covariation(xs, ys)
    requires Pearson(xs, ys, rootX, rootY) == Some(1.0)
    ensures p > 0.0 && c > 0.0 && c * c == p * q
  {
    CauchySchwarz(Centred(xs), Centred(ys), p, q, c);
    PositiveProduct(rootX, rootY);
    PositiveProduct(rootX, rootX);
    SquareOfProduct(rootX, rootY);
    RatioBounds(c, rootX * rootY);
  }

  // So the centred samples are positive multiples of each other.
  lemma PerfectMeansSameOrder(xs: seq<real>, ys: seq<real>, rootX: real, rootY: real)
    requires |xs| == |ys| >= 2 && IsRoot(rootX, SumOfSquares(xs)) && IsRoot(rootY, SumOfSquares(ys))
    requires Pearson(xs, ys, rootX, rootY) == Some(1.0)
    ensures SameOrder(xs, ys)
  {
    var p, q, c := SumOfSquares(xs), SumOfSquares(ys), Covariation(xs, ys);
    var a, b := Centred(xs), Centred(ys);
    PerfectNumerator(xs, ys, rootX, rootY, p, q, c);
    CauchySchwarz(a, b, p, q, c);
    hide Pearson, Covariation, SumOfSquares, Mean, IsRoot;
    forall i, j | 0 <= i < |xs| && 0 <= j < |xs|
      ensures xs[i] < xs[j] <==> ys[i] < ys[j]
    {
      ScaledOrder(p, c, a[i], a[j], b[i], b[j]);
    }
  }

  /** Spearman's coefficient lies in [-1, 1], and is 1 exactly when both samples rise together,
      ties included. */
  lemma SpearmanPerfectIffSameOrder(xs: seq<real>, ys: seq<real>, rootX: real, rootY: real)
    requires |xs| == |ys| >= 2
    requires IsRoot(rootX, SumOfSquares(AverageRanks(xs))) && IsRoot(rootY, SumOfSquares(AverageRanks(ys)))
    requires Spearman(xs, ys, rootX, rootY).Some?
    ensures -1.0 <= Spearman(xs, ys, rootX, rootY).value <= 1.0
    ensures Spearman(xs, ys, rootX, rootY).value == 1.0 <==> SameOrder(xs, ys)
  {
    PearsonInRange(AverageRanks(xs), AverageRanks(ys), rootX, rootY);
    if Spearman(xs, ys, rootX, rootY).value == 1.0 {
      PerfectMeansSameOrder(AverageRanks(xs), AverageRanks(ys), rootX, rootY);
      SameRankOrder(xs, ys);
    }
    if SameOrder(xs, ys) {
      RanksScaleFree(xs, ys);
      PearsonWithItself(AverageRanks(xs), rootX, rootY);
    }
  }

  // -------------------------------------------------------------- opposite orders

  ghost predicate OppositeOrder(xs: seq<real>, ys: seq<real>) {
    |xs| == |ys| && forall i, j | 0 <= i < |xs| && 0 <= j < |xs| :: xs[i] < xs[j] <==> ys[j] < ys[i]
  }

  lemma ScaledDown(p: real, c: real, a: real, a': real, b: real, b': real)
    requires p > 0.0 && c < 0.0 && p * b == c * a && p * b' == c * a'
    ensures a < a' <==> b' < b
  {
    ScaledOrder(p, -c, -a, -a', b, b');
  }

  // A coefficient of -1 makes the numerator the negated product of the roots.
  lemma WorstNumerator(xs: seq<real>, ys: seq<real>, rootX: real, rootY: real, p: real, q: real, c: real)
    requires |xs| == |ys| >= 2 && IsRoot(rootX, p) && IsRoot(rootY, q)
    requires p == SumOfSquares(xs) && q == SumOfSquares(ys) && c == Covariation(xs, ys)
    requires Pearson(xs, ys, rootX, rootY) == Some(-1.0)
    ensures p > 0.0 && c < 0.0 && c * c == p * q
  {
    CauchySchwarz(Centred(xs), Centred(ys), p, q, c);
    PositiveProduct(rootX, rootY);
    PositiveProduct(rootX, rootX);
    SquareOfProduct(rootX, rootY);
    RatioBounds(c, rootX * rootY);
    NegatedSquare(rootX * rootY);
  }

  lemma WorstMeansOppositeOrder(xs: seq<real>, ys: seq<real>, rootX: real, rootY: real)
    requires |xs| == |ys| >= 2 && IsRoot(rootX, SumOfSquares(xs)) && IsRoot(rootY, SumOfSquares(ys))
    requires Pearson(xs, ys, rootX, rootY) == Some(-1.0)
    ensures OppositeOrder(xs, ys)
  {
    var p, q, c := SumOfSquares(xs), SumOfSquares(ys), Covariation(xs, ys);
    var a, b := Centred(xs), Centred(ys);
    WorstNumerator(xs, ys, rootX, rootY, p, q, c);
    CauchySchwarz(a, b, p, q, c);
    hide Pearson, Covariation, SumOfSquares, Mean, IsRoot;
    forall i, j | 0 <= i < |xs| && 0 <= j < |xs|
      ensures xs[i] < xs[j] <==> ys[j] < ys[i]
    {
      ScaledDown(p, c, a[i], a[j], b[i], b[j]);
    }
  }

  lemma OppositeRankOrder(xs: seq<real>, ys: seq<real>)
    requires |xs| == |ys| && OppositeOrder(AverageRanks(xs), AverageRanks(ys))
    ensures OppositeOrder(xs, ys)
  {
    var rx, ry := AverageRanks(xs), AverageRanks(ys);
    forall i: nat, j: nat | i < |xs| && j < |xs|
      ensures xs[i] < xs[j] <==> ys[j] < ys[i]
    {
      RanksFollowOrder(xs, i, j);
      RanksFollowOrder(ys, j, i);
      assert rx[i] < rx[j] <==> ry[j] < ry[i];
    }
  }

  lemma {:induction false} SumsToConstant(xs: seq<real>, ys: seq<real>, c: real, k: nat)
    requires |xs| == |ys| && k <= |xs| && forall i | 0 <= i < |xs| :: xs[i] + ys[i] == c
    ensures RealSum(xs, k) + RealSum(ys, k) == c * k as real
  {
    if k > 0 {
      SumsToConstant(xs, ys, c, k - 1);
      OneMore(c, k);
    }
  }

  lemma MirroredCentres(xs: seq<real>, ys: seq<real>, c: real)
    requires |xs| == |ys| > 0 && forall i | 0 <= i < |xs| :: xs[i] + ys[i] == c
    ensures forall i | 0 <= i < |xs| :: Centred(ys)[i] == -Centred(xs)[i]
  {
    SumsToConstant(xs, ys, c, |xs|);
    SumOfQuotients(RealSum(xs, |xs|), RealSum(ys, |xs|), c, |xs|);
    assert Mean(xs) + Mean(ys) == c;
  }

  lemma {:induction false} MirroredDots(a: seq<real>, b: seq<real>, k: nat)
    requires |a| == |b| && k <= |a| && forall i | 0 <= i < |a| :: b[i] == -a[i]
    ensures Dot(a, b, k) == -Dot(a, a, k) && Dot(b, b, k) == Dot(a, a, k)
  {
    if k > 0 {
      MirroredDots(a, b, k - 1);
      NegatedSquare(a[k - 1]);
    }
  }

  lemma PearsonOfMirror(xs: seq<real>, ys: seq<real>, c: real, rootX: real, rootY: real)
    requires |xs| == |ys| >= 2 && (forall i | 0 <= i < |xs| :: xs[i] + ys[i] == c)
    requires IsRoot(rootX, SumOfSquares(xs)) && IsRoot(rootY, SumOfSquares(ys))
    ensures Pearson(xs, ys, rootX, rootY).Some? ==> Pearson(xs, ys, rootX, rootY).value == -1.0
  {
    MirroredCentres(xs, ys, c);
    MirroredDots(Centred(xs), Centred(ys), |xs|);
    var d := SumOfSquares(xs);
    EqualRoots(rootX, rootY, d);
    DotSelf(Centred(xs), |xs|);
    RootPositive(rootX, d);
    if rootX > 0.0 {
      assert rootX * rootY == d;
      Ratio(-d, d);
    }
  }

  /** Spearman's coefficient is -1 exactly when one sample rises as the other falls, ties included. */
  lemma SpearmanWorstIffOppositeOrder(xs: seq<real>, ys: seq<real>, rootX: real, rootY: real)
    requires |xs| == |ys| >= 2
    requires IsRoot(rootX, SumOfSquares(AverageRanks(xs))) && IsRoot(rootY, SumOfSquares(AverageRanks(ys)))
    requires Spearman(xs, ys, rootX, rootY).Some?
    ensures Spearman(xs, ys, rootX, rootY).value == -1.0 <==> OppositeOrder(xs, ys)
  {
    var rx, ry := AverageRanks(xs), AverageRanks(ys);
    if Spearman(xs, ys, rootX, rootY).value == -1.0 {
      WorstMeansOppositeOrder(rx, ry, rootX, rootY);
      OppositeRankOrder(xs, ys);
    }
    if OppositeOrder(xs, ys) {
      forall i: nat | i < |xs|
        ensures rx[i] + ry[i] == (|xs| + 1) as real
      {
        RanksTurnRound(xs, ys, i);
      }
      PearsonOfMirror(rx, ry, (|xs| + 1) as real, rootX, rootY);
    }
  }

  lemma SameRankOrder(xs: seq<real>, ys: seq<real>)
    requires |xs| == |ys| && SameOrder(AverageRanks(xs), AverageRanks(ys))
    ensures SameOrder(xs, ys)
  {
    var rx, ry := AverageRanks(xs), AverageRanks(ys);
    forall i: nat, j: nat | i < |xs| && j < |xs|
      ensures xs[i] < xs[j] <==> ys[i] < ys[j]
    {
      RanksFollowOrder(xs, i, j);
      RanksFollowOrder(ys, i, j);
      assert rx[i] < rx[j] <==> ry[i] < ry[j];
    }
  }

  lemma PearsonWithItself(xs: seq<real>, root: real, root': real)
    requires |xs| >= 2 && IsRoot(root, SumOfSquares(xs)) && IsRoot(root', SumOfSquares(xs))
    ensures Pearson(xs, xs, root, root').Some? ==> Pearson(xs, xs, root, root').value == 1.0
  {
    EqualRoots(root, root', SumOfSquares(xs));
    var d := SumOfSquares(xs);
    DotSelf(Centred(xs), |xs|);
    RootPositive(root, d);
    if root > 0.0 {
      assert root * root' == d;
      Ratio(d, d);
    }
  }

  /** Spearman's coefficient depends on the order of the samples only. */
  lemma SpearmanScaleFree(xs: seq<real>, xs': seq<real>, ys: seq<real>, ys': seq<real>, rootX: real, rootY: real)
    requires SameOrder(xs, xs') && SameOrder(ys, ys') && xs != [] && ys != []
    requires IsRoot(rootX, SumOfSquares(AverageRanks(xs))) && IsRoot(rootY, SumOfSquares(AverageRanks(ys)))
    ensures AverageRanks(xs) == AverageRanks(xs') && AverageRanks(ys) == AverageRanks(ys')
    ensures Spearman(xs, ys, rootX, rootY) == Spearman(xs', ys', rootX, rootY)
  {
    RanksScaleFree(xs, xs');
    RanksScaleFree(ys, ys');
  }
}
