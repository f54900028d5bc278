// Real arithmetic.
module RealArith {
  // Products, squares and ratios.

  lemma Scale(x: real, y: real, z: real)
    requires x <= y && z >= 0.0
    ensures x * z <= y * z
  {
  }

  lemma PositiveProduct(x: real, y: real)
    requires x > 0.0 && y > 0.0
    ensures x * y > 0.0
  {
  }

  lemma NonNegativeProduct(x: real, y: real)
    requires x >= 0.0 && y >= 0.0
    ensures x * y >= 0.0
  {
  }

  lemma NegatedSquare(x: real)
    ensures (-x) * (-x) == x * x
  {
  }

  function Product(x: real, y: real): real { x * y }

  lemma SameSigns(x: real, y: real)
    requires (x > 0.0 && y > 0.0) || (x < 0.0 && y < 0.0)
    ensures Product(x, y) > 0.0
  {
  }

  function Square(x: real): (r: real)
    ensures r == x * x && r >= 0.0
    ensures r == 0.0 <==> x == 0.0
  {
    if x != 0.0 then (SameSigns(x, x); Product(x, x)) else 0.0
  }

  lemma DifferenceOfSquares(x: real, y: real)
    ensures (x - y) * x + (x - y) * y == x * x - y * y
  {
  }

  lemma SquareOrder(x: real, y: real)
    requires y >= 0.0 && x * x <= y * y
    ensures x <= y
  {
    DifferenceOfSquares(x, y);
    if x > y {
      PositiveProduct(x - y, x);
      NonNegativeProduct(x - y, y);
    }
  }

  lemma PositiveFactor(p: real, x: real)
    requires p > 0.0
    ensures p * x >= 0.0 <==> x >= 0.0
    ensures p * x == 0.0 <==> x == 0.0
  {
  }

  lemma Collect(c: real, x: real, y: real)
    ensures c * (x + y) == c * x + c * y && c * (x - y) == c * x - c * y
  {
  }

  lemma SquareOfProduct(x: real, y: real)
    ensures (x * x) * (y * y) == (x * y) * (x * y)
  {
  }

  lemma Ratio(c: real, d: real)
    requires d > 0.0 && -d <= c <= d
    ensures -1.0 <= c / d <= 1.0
    ensures c / d == 1.0 <==> c == d
    ensures c / d == -1.0 <==> c == -d
  {
  }

  lemma RatioBounds(c: real, d: real)
    requires d > 0.0 && c * c <= d * d
    ensures -1.0 <= c / d <= 1.0
    ensures c / d == 1.0 <==> c == d
    ensures c / d == -1.0 <==> c == -d
  {
    SquareOrder(c, d);
    NegatedSquare(c);
    SquareOrder(-c, d);
    Ratio(c, d);
  }

  lemma CancelLength(x: real, n: nat)
    requires n > 0
    ensures x * n as real / n as real == x
  {
  }

  lemma SumOfQuotients(x: real, y: real, c: real, n: nat)
    requires n > 0 && x + y == c * n as real
    ensures x / n as real + y / n as real == c
  {
    CancelLength(c, n);
  }
}
