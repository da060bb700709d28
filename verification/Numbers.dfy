/** The smaller and larger of two numbers, and squares. */
module Numbers {

  function Min(a: int, b: int): int { if a <= b then a else b }

  function Max(a: int, b: int): int { if a >= b then a else b }

  function RealMax(a: real, b: real): real { if a >= b then a else b }

  function Square(a: real): real { a * a }

  lemma Regrouped(a: real, b: real, c: real, d: real)
    ensures (a * b) * (c * d) == (a * c) * (b * d)
  {
  }

  lemma SquareOfProduct(a: real, b: real)
    ensures Square(a * b) == Square(a) * Square(b)
  {
    Regrouped(a, b, a, b);
  }

  lemma Distributed(a: real, b: real, c: real)
    ensures a * (b + c) == a * b + a * c
    ensures a * (b - c) == a * b - a * c
  {
  }

  lemma PositiveSquare(a: real)
    requires a > 0.0
    ensures Square(a) > 0.0
  {
    ProductIsPositive(a, a, Square(a));
  }

  lemma ProductIsPositive(a: real, b: real, product: real)
    requires a > 0.0 && b > 0.0 && product == a * b
    ensures product > 0.0
  {
  }

  lemma SameSign(a: real, f: real)
    requires f > 0.0
    ensures a >= 0.0 <==> a * f >= 0.0
  {
  }

  /** A quotient is the number that gives the dividend back. */
  lemma QuotientIs(a: real, b: real, q: real)
    requires b > 0.0 && q * b == a
    ensures a / b == q
  {
    var p := a / b;
    assert p * b == a;
    assert (p - q) * b == 0.0;
  }

  lemma Expanded(a: real, b: real, f: real)
    requires b > 0.0 && f > 0.0
    ensures f * b > 0.0 && (f * a) / (f * b) == a / b
  {
    var q := a / b;
    assert q * b == a;
    ProductIsPositive(f, b, f * b);
    assert q * (f * b) == f * (q * b);
    QuotientIs(f * a, f * b, q);
  }
}
