/** What the shape of a fit says about the silhouette, and what the two ellipses of a fit are. */
module FitProperties {
  import opened Results
  import opened Numbers
  import opened Raster
  import opened GridSums
  import opened ShapeFit

  // ---------------------------------------------------------------- which shape a fit names

  /** A shape is named when its fit is at least 0.8 and better than the other by at least 0.06; round means nearly as wide as high. */
  lemma ShapeOfFit(filled: Shape, width: nat, height: nat)
    requires width > 0 && height > 0
    ensures var r, e, fit := RectangleFit(filled, width, height), EllipseFit(filled, width, height), FitOf(filled, width, height);
      && (fit.shape == Some(Rectangle) <==> r >= 0.8 && r - e >= 0.06)
      && (fit.shape == Some(Round) || fit.shape == Some(Oval) <==> e >= 0.8 && e - r >= 0.06)
      && (fit.shape == Some(Round) ==> 0.85 * height as real <= width as real <= 1.18 * height as real)
      && (fit.shape == Some(Oval) ==> width as real < 0.85 * height as real || width as real > 1.18 * height as real)
      && fit.shape in {None, Some(Rectangle), Some(Round), Some(Oval)}
      && fit.quality >= r && fit.quality >= e && (fit.quality == r || fit.quality == e)
  {
    RatioBounds(width as real, height as real);
    hide RectangleFit, EllipseFit;
  }

  lemma RatioBounds(w: real, h: real)
    requires h > 0.0
    ensures 0.85 <= w / h <==> 0.85 * h <= w
    ensures w / h <= 1.18 <==> w <= 1.18 * h
  {
    var q := w / h;
    assert q * h == w;
    SameSign(q - 0.85, h);
    SameSign(1.18 - q, h);
  }

  lemma PositiveArea(width: nat, height: nat)
    requires width > 0 && height > 0
    ensures width as real * height as real > 0.0
  {
  }

  lemma FullArea(filled: Shape, width: nat, height: nat)
    requires forall x, y | 0 <= x < width && 0 <= y < height :: filled(x, y)
    ensures Moment(filled, ONE, width, height) == width as real * height as real
  {
    GridSumConstant(On(filled, ONE), 1.0, width, height);
  }

  /** A silhouette that fills its box is never taken for an ellipse. */
  lemma FullBoxIsNoEllipse(filled: Shape, width: nat, height: nat)
    requires width > 0 && height > 0 && forall x, y | 0 <= x < width && 0 <= y < height :: filled(x, y)
    ensures RectangleFit(filled, width, height) == 1.0
    ensures FitOf(filled, width, height).shape in {None, Some(Rectangle)} && FitOf(filled, width, height).quality == 1.0
  {
    PositiveArea(width, height);
    FullArea(filled, width, height);
    QuotientIs(width as real * height as real, width as real * height as real, 1.0);
    FitInUnit(filled, width, height);
    ShapeOfFit(filled, width, height);
    hide FitOf, Moment, EllipseFit;
  }

  lemma SameMoment(a: Shape, b: Shape, width: nat, height: nat)
    requires forall x, y | 0 <= x < width && 0 <= y < height :: a(x, y) <==> b(x, y)
    ensures Moment(a, ONE, width, height) == Moment(b, ONE, width, height)
  {
    GridSumMonotone(On(a, ONE), On(b, ONE), width, height);
    GridSumMonotone(On(b, ONE), On(a, ONE), width, height);
  }

  lemma FullOverlap(a: Shape, b: Shape, width: nat, height: nat, n: real)
    requires Moment(And(a, b), ONE, width, height) == n && Moment(Or(a, b), ONE, width, height) == n
    requires n >= 1.0 || n == 0.0
    ensures Overlap(a, b, width, height) == if n == 0.0 then 0.0 else 1.0
  {
    hide Moment;
    if n >= 1.0 {
      QuotientIs(n, n, 1.0);
    }
  }

  lemma EllipseFitAtLeast(filled: Shape, width: nat, height: nat)
    requires width > 0 && height > 0
    ensures EllipseFit(filled, width, height) >= Overlap(filled, BoxEllipse(width, height), width, height)
  {
    hide Overlap, BoxEllipse, MomentEllipse;
  }

  lemma NothingFits(filled: Shape, width: nat, height: nat)
    requires width > 0 && height > 0 && Moment(filled, ONE, width, height) == 0.0
    ensures RectangleFit(filled, width, height) == 0.0
  {
    hide Moment;
    PositiveArea(width, height);
    QuotientIs(0.0, width as real * height as real, 0.0);
  }

  /** A silhouette that is the ellipse inscribed in its box is never taken for a rectangle. */
  lemma BoxEllipseIsNoRectangle(filled: Shape, width: nat, height: nat)
    requires width > 0 && height > 0
    requires forall x, y | 0 <= x < width && 0 <= y < height :: filled(x, y) <==> BoxEllipse(width, height)(x, y)
    ensures EllipseFit(filled, width, height) >= RectangleFit(filled, width, height)
    ensures FitOf(filled, width, height).shape != Some(Rectangle)
  {
    var ellipse, n := BoxEllipse(width, height), Moment(filled, ONE, width, height);
    ShapeOfFit(filled, width, height);
    FitInUnit(filled, width, height);
    EmptyOrCounted(filled, ONE, width, height);
    SameMoment(And(filled, ellipse), filled, width, height);
    SameMoment(Or(filled, ellipse), filled, width, height);
    hide FitOf, BoxEllipse, EllipseFit, RectangleFit, Overlap, Moment;
    FullOverlap(filled, ellipse, width, height, n);
    EllipseFitAtLeast(filled, width, height);
    if n == 0.0 {
      NothingFits(filled, width, height);
    }
  }

  // ---------------------------------------------------------------- the ellipse of the box

  function SquareOf(a: int): int { a * a }

  /** (u / w)^2 + (v / h)^2 <= 1, without the quotients. */
  lemma CommonFactor(u: real, v: real, w: real, h: real)
    requires w > 0.0 && h > 0.0
    ensures Square(w) > 0.0 && Square(h) > 0.0
    ensures Square(u) / Square(w) + Square(v) / Square(h) <= 1.0 <==> Square(u * h) + Square(v * w) <= Square(w * h)
  {
    hide *;
    PositiveSquare(w);
    PositiveSquare(h);
    SquareOfProduct(u, h);
    SquareOfProduct(v, w);
    SquareOfProduct(w, h);
    SumOfQuotients(Square(u), Square(w), Square(v), Square(h));
  }

  lemma SumOfQuotients(a: real, b: real, c: real, d: real)
    requires b > 0.0 && d > 0.0
    ensures a / b + c / d <= 1.0 <==> a * d + c * b <= b * d
  {
    var p, q, f := a / b, c / d, b * d;
    assert p * b == a && q * d == c;
    ProductIsPositive(b, d, f);
    Quotients(a, b, c, d, p, q, f);
    Distributed(f, 1.0 - p, q);
    Distributed(f, 1.0, p);
    SameSign(1.0 - p - q, f);
  }

  lemma Quotients(a: real, b: real, c: real, d: real, p: real, q: real, f: real)
    requires p * b == a && q * d == c && f == b * d
    ensures f * p == a * d && f * q == c * b
  {
    assert b * d * p == (p * b) * d;
    assert b * d * q == (q * d) * b;
  }

  lemma Doubled(a: real, r: real, u: real, w: real)
    requires 2.0 * a == u && 2.0 * r == w && w > 0.0
    ensures Square(r) > 0.0 && Square(w) > 0.0 && Square(a) / Square(r) == Square(u) / Square(w)
  {
    PositiveSquare(r);
    assert Square(u) == 4.0 * Square(a) && Square(w) == 4.0 * Square(r);
    Expanded(Square(a), Square(r), 4.0);
  }

  lemma AsReals(a: int, b: int)
    ensures (a * b) as real == a as real * b as real
  {
  }

  lemma SquareAsReal(a: int, b: int)
    ensures SquareOf(a * b) as real == Square(a as real * b as real)
  {
    AsReals(a, b);
    AsReals(a * b, a * b);
  }

  /** A cell is in the ellipse of the box when its centre is; in whole numbers, so that width and height cannot be confused. */
  lemma BoxEllipseIs(width: nat, height: nat, x: int, y: int)
    requires width > 0 && height > 0
    ensures BoxEllipse(width, height)(x, y)
       <==> SquareOf((2 * x + 1 - width) * height) + SquareOf((2 * y + 1 - height) * width) <= SquareOf(width * height)
  {
    var w, h, u, v := width as real, height as real, (2 * x + 1 - width) as real, (2 * y + 1 - height) as real;
    Doubled(CenterOf(x) - w / 2.0, w / 2.0, u, w);
    Doubled(CenterOf(y) - h / 2.0, h / 2.0, v, h);
    hide Square, SquareOf;
    CommonFactor(u, v, w, h);
    SquareAsReal(2 * x + 1 - width, height);
    SquareAsReal(2 * y + 1 - height, width);
    SquareAsReal(width, height);
  }

  // ---------------------------------------------------------------- the ellipse of the moments

  /** The squared radius of the moment ellipse along one axis, `n` squared times. */
  function Spread(n: real, sum: real, squares: real): (r: real)
    requires n > 0.0
    ensures r > 0.0
  {
    PositiveSquare(n);
    RealMax(Square(n), 4.0 * (n * squares - Square(sum)))
  }

  lemma ScaledMax(f: real, d: real)
    requires f > 0.0
    ensures f * RealMax(1.0, 4.0 * d) == RealMax(f, 4.0 * (f * d))
  {
    SameSign(4.0 * d - 1.0, f);
    Distributed(f, 4.0 * d, 1.0);
  }

  lemma ScaledVariance(n: real, s: real, q: real, m: real, v: real)
    requires m * n == s && v * n == q
    ensures Square(n) * (v - Square(m)) == n * q - Square(s)
  {
    SquareOfProduct(n, m);
    assert Square(n) * v == n * (v * n);
    Distributed(Square(n), v, Square(m));
  }

  lemma ScaledOffset(n: real, s: real, c: real, m: real)
    requires m * n == s
    ensures Square(n) * Square(c - m) == Square(n * c - s)
  {
    Distributed(n, c, m);
    SquareOfProduct(n, c - m);
  }

  /** How far `c` is from the mean along one axis, squared, in radii. */
  function FromMean(c: real, mean: real, meanSquare: real): real {
    Square(c - mean) / SquaredRadius(meanSquare - Square(mean))
  }

  /** The same from the sums. */
  function FromSums(c: real, n: real, sum: real, squares: real): real
    requires n > 0.0
  {
    Square(n * c - sum) / Spread(n, sum, squares)
  }

  /** One axis of the moment ellipse, with the quotients by `n` multiplied out. */
  lemma AxisOfMoments(n: real, s: real, q: real, c: real, m: real, v: real)
    requires n >= 1.0 && m * n == s && v * n == q && v >= Square(m)
    ensures FromMean(c, m, v) == FromSums(c, n, s, q)
  {
    var d, f := v - Square(m), Square(n);
    PositiveSquare(n);
    ScaledMax(f, d);
    ScaledVariance(n, s, q, m, v);
    ScaledOffset(n, s, c, m);
    hide Square;
    assert SquaredRadius(d) == RealMax(1.0, 4.0 * d);
    Expanded(Square(c - m), SquaredRadius(d), f);
  }

  /** The cell's centre, moved and scaled by the five sums alone, lies in the unit circle. */
  ghost predicate InMomentEllipse(filled: Shape, width: nat, height: nat, x: int, y: int)
    requires Moment(filled, ONE, width, height) > 0.0
  {
    var n := Moment(filled, ONE, width, height);
    var sumX, sumY := Moment(filled, CENTER_X, width, height), Moment(filled, CENTER_Y, width, height);
    var sumXX, sumYY := Moment(filled, SQUARE_X, width, height), Moment(filled, SQUARE_Y, width, height);
    FromSums(CenterOf(x), n, sumX, sumXX) + FromSums(CenterOf(y), n, sumY, sumYY) <= 1.0
  }

  lemma MeanTimesCount(shape: Shape, v: Weight, width: nat, height: nat)
    requires Moment(shape, ONE, width, height) >= 1.0
    ensures Mean(shape, v, width, height) * Moment(shape, ONE, width, height) == Moment(shape, v, width, height)
  {
    hide Moment;
  }

  /**
   The moment ellipse lies around the centroid, and its radius along each axis is twice the standard deviation but at least
   one pixel; the variances need no clamp.
   */
  lemma MomentEllipseIs(filled: Shape, width: nat, height: nat, x: int, y: int)
    requires Moment(filled, ONE, width, height) > 0.0
    ensures MomentEllipse(filled, width, height)(x, y) <==> InMomentEllipse(filled, width, height, x, y)
  {
    EmptyOrCounted(filled, ONE, width, height);
    AxisOf(filled, CENTER_X, SQUARE_X, width, height, CenterOf(x));
    AxisOf(filled, CENTER_Y, SQUARE_Y, width, height, CenterOf(y));
    MomentEllipseQuotients(filled, width, height, x, y);
    hide Moment, Mean, FromSums, FromMean, MomentEllipse;
  }

  lemma AxisOf(filled: Shape, v: Weight, squares: Weight, width: nat, height: nat, c: real)
    requires Moment(filled, ONE, width, height) >= 1.0 && forall x, y :: squares(x, y) == Square(v(x, y))
    ensures FromMean(c, Mean(filled, v, width, height), Mean(filled, squares, width, height))
         == FromSums(c, Moment(filled, ONE, width, height), Moment(filled, v, width, height), Moment(filled, squares, width, height))
  {
    hide *;
    VarianceNotNegative(filled, v, squares, width, height);
    MeanTimesCount(filled, v, width, height);
    MeanTimesCount(filled, squares, width, height);
    AxisOfMoments(Moment(filled, ONE, width, height), Moment(filled, v, width, height), Moment(filled, squares, width, height), c,
                  Mean(filled, v, width, height), Mean(filled, squares, width, height));
  }

  lemma MomentEllipseQuotients(filled: Shape, width: nat, height: nat, x: int, y: int)
    ensures MomentEllipse(filled, width, height)(x, y) <==>
      FromMean(CenterOf(x), Mean(filled, CENTER_X, width, height), Mean(filled, SQUARE_X, width, height))
      + FromMean(CenterOf(y), Mean(filled, CENTER_Y, width, height), Mean(filled, SQUARE_Y, width, height)) <= 1.0
  {
    hide Mean, Square, SquaredRadius, CenterOf;
  }
}
