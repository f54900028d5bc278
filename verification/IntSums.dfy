// Sums of integer sequences.
module IntSums {
  // And balanced splits: at most one apart, determined by their sum.

  function SumUpTo(s: seq<int>, k: nat): int
    requires k <= |s|
  {
    if k == 0 then 0 else SumUpTo(s, k - 1) + s[k - 1]
  }

  function Sum(s: seq<int>): int { SumUpTo(s, |s|) }

  lemma {:induction false} SumUpToConcat(a: seq<int>, b: seq<int>, k: nat)
    requires k <= |a| + |b|
    ensures SumUpTo(a + b, k) == if k <= |a| then SumUpTo(a, k) else Sum(a) + SumUpTo(b, k - |a|)
  {
    if k > 0 { SumUpToConcat(a, b, k - 1); }
  }

  lemma SumConcat(a: seq<int>, b: seq<int>)
    ensures Sum(a + b) == Sum(a) + Sum(b)
  {
    SumUpToConcat(a, b, |a| + |b|);
  }

  lemma {:induction false} SumUpdate(s: seq<int>, i: nat, x: int, k: nat)
    requires i < |s| && k <= |s|
    ensures SumUpTo(s[i := x], k) == SumUpTo(s, k) + (if i < k then x - s[i] else 0)
  {
    if k > 0 { SumUpdate(s, i, x, k - 1); }
  }

  lemma {:induction false} SumConstant(s: seq<int>, q: int, k: nat)
    requires k <= |s| && forall i | 0 <= i < |s| :: s[i] == q
    ensures SumUpTo(s, k) == q * k
  {
    if k > 0 {
      SumConstant(s, q, k - 1);
      assert q * k == q * (k - 1) + q;
    }
  }

  // Every part is the floor or one more.
  ghost predicate Balanced(s: seq<int>, q: int) {
    forall i | 0 <= i < |s| :: s[i] == q || s[i] == q + 1
  }

  function CountUpTo(s: seq<int>, x: int, k: nat): nat
    requires k <= |s|
  {
    if k == 0 then 0 else CountUpTo(s, x, k - 1) + (if s[k - 1] == x then 1 else 0)
  }

  lemma {:induction false} CountIsMultiplicity(s: seq<int>, x: int, k: nat)
    requires k <= |s|
    ensures multiset(s[..k])[x] == CountUpTo(s, x, k)
  {
    if k > 0 {
      CountIsMultiplicity(s, x, k - 1);
      assert s[..k] == s[..k - 1] + [s[k - 1]];
    }
  }

  lemma {:induction false} BalancedCounts(s: seq<int>, q: int, k: nat)
    requires Balanced(s, q) && k <= |s|
    ensures CountUpTo(s, q + 1, k) + CountUpTo(s, q, k) == k
    ensures SumUpTo(s, k) == q * k + CountUpTo(s, q + 1, k)
    ensures forall x | x != q && x != q + 1 :: CountUpTo(s, x, k) == 0
  {
    if k > 0 {
      BalancedCounts(s, q, k - 1);
      assert q * k == q * (k - 1) + q;
    }
  }

  /** Two balanced splits of the same total into the same number of parts have the same parts. */
  lemma BalancedUnique(s: seq<int>, t: seq<int>, q: int)
    requires Balanced(s, q) && Balanced(t, q) && |s| == |t| && Sum(s) == Sum(t)
    ensures multiset(s) == multiset(t)
  {
    BalancedCounts(s, q, |s|);
    BalancedCounts(t, q, |t|);
    assert s[..|s|] == s && t[..|t|] == t;
    forall x: int
      ensures multiset(s)[x] == multiset(t)[x]
    {
      CountIsMultiplicity(s, x, |s|);
      CountIsMultiplicity(t, x, |t|);
    }
  }

  // ------------------------------------------------------------- integer division

  lemma DivUnique(n: int, d: int, q: int, r: int)
    requires d > 0 && n == d * q + r && 0 <= r < d
    ensures n / d == q && n % d == r
  {
    var k := n / d;
    assert n == d * k + n % d;
    if k < q {
      MulStep(d, k, q);
    } else if q < k {
      MulStep(d, q, k);
    }
  }

  lemma MulStep(d: int, a: int, b: int)
    requires d > 0 && a < b
    ensures d * a + d <= d * b
  {
    MulMonotone(d, a + 1, b);
    assert d * (a + 1) == d * a + d;
  }

  lemma MulMonotone(d: int, a: int, b: int)
    requires d >= 0 && a <= b
    ensures d * a <= d * b
  {
  }

  lemma Distribute(f: int, g: int, b: int, s: int)
    ensures f * (g * b + s) == (f * g) * b + f * s
  {
    assert f * (g * b + s) == f * (g * b) + f * s;
    assert f * (g * b) == (f * g) * b;
  }

  lemma DivDiv(n: int, f: int, g: int)
    requires f > 0 && g > 0
    ensures f * g > 0 && n / f / g == n / (f * g)
  {
    var a := n / f;
    var b, s, r := a / g, a % g, n % f;
    Distribute(f, g, b, s);
    MulMonotone(f, 1, g);
    MulMonotone(f, 0, s);
    MulStep(f, s, g);
    DivUnique(n, f * g, b, f * s + r);
  }
}
