/** The shape fit of fitContour, in exact arithmetic. */
module ShapeFit {
  import opened Results
  import opened Numbers
  import opened Raster
  import opened GridSums

  datatype Fit = Fit(shape: Option<DetectedShape>, quality: real)

  type Shape = (int, int) -> bool

  function CenterOf(x: int): real { x as real + 0.5 }

  /** The weight `v` on the cells of `shape`, nothing elsewhere. */
  function On(shape: Shape, v: Weight): Weight {
    (x, y) => if shape(x, y) then v(x, y) else 0.0
  }

  const ONE: Weight := (x, y) => 1.0
  const CENTER_X: Weight := (x, y) => CenterOf(x)
  const CENTER_Y: Weight := (x, y) => CenterOf(y)
  const SQUARE_X: Weight := (x, y) => Square(CenterOf(x))
  const SQUARE_Y: Weight := (x, y) => Square(CenterOf(y))

  ghost function Moment(shape: Shape, v: Weight, width: nat, height: nat): real {
    GridSum(On(shape, v), width, height)
  }

  function And(a: Shape, b: Shape): Shape { (x, y) => a(x, y) && b(x, y) }
  function Or(a: Shape, b: Shape): Shape { (x, y) => a(x, y) || b(x, y) }

  /** The cells whose centre lies in the ellipse around (cx, cy) with the given squared radii. */
  function Ellipse(cx: real, cy: real, rxx: real, ryy: real): Shape
    requires rxx > 0.0 && ryy > 0.0
  {
    (x, y) => Square(CenterOf(x) - cx) / rxx + Square(CenterOf(y) - cy) / ryy <= 1.0
  }

  /** The squared radius max(1, 2 sqrt(max(0, v)))^2 of the moment ellipse. */
  function SquaredRadius(variance: real): (r: real)
    ensures r >= 1.0
  {
    RealMax(1.0, 4.0 * RealMax(0.0, variance))
  }

  ghost function Overlap(a: Shape, b: Shape, width: nat, height: nat): real {
    Moment(And(a, b), ONE, width, height) / RealMax(1.0, Moment(Or(a, b), ONE, width, height))
  }

  ghost function Mean(shape: Shape, v: Weight, width: nat, height: nat): real {
    Moment(shape, v, width, height) / RealMax(1.0, Moment(shape, ONE, width, height))
  }

  ghost function MomentEllipse(filled: Shape, width: nat, height: nat): Shape {
    var cx, cy := Mean(filled, CENTER_X, width, height), Mean(filled, CENTER_Y, width, height);
    Ellipse(cx, cy, SquaredRadius(Mean(filled, SQUARE_X, width, height) - Square(cx)),
            SquaredRadius(Mean(filled, SQUARE_Y, width, height) - Square(cy)))
  }

  function BoxEllipse(width: nat, height: nat): Shape
    requires width > 0 && height > 0
  {
    var rx, ry := width as real / 2.0, height as real / 2.0;
    Ellipse(rx, ry, Square(rx), Square(ry))
  }

  ghost function RectangleFit(filled: Shape, width: nat, height: nat): real
    requires width > 0 && height > 0
  {
    Moment(filled, ONE, width, height) / (width as real * height as real)
  }

  ghost function EllipseFit(filled: Shape, width: nat, height: nat): real
    requires width > 0 && height > 0
  {
    RealMax(Overlap(filled, BoxEllipse(width, height), width, height),
            Overlap(filled, MomentEllipse(filled, width, height), width, height))
  }

  /** The verdict on two fits: unclear unless one is good and they differ enough. */
  function Verdict(rectangleFit: real, ellipseFit: real, width: nat, height: nat): (fit: Fit)
    requires width > 0 && height > 0
    ensures fit.quality == RealMax(rectangleFit, ellipseFit)
  {
    var quality := RealMax(rectangleFit, ellipseFit);
    var difference := rectangleFit - ellipseFit;
    if quality < 0.8 || (-0.06 < difference < 0.06) then Fit(None, quality)
    else if rectangleFit > ellipseFit then Fit(Some(Rectangle), quality)
    else
      var ratio := width as real / height as real;
      Fit(Some(if 0.85 <= ratio <= 1.18 then Round else Oval), quality)
  }

  ghost function FitOf(filled: Shape, width: nat, height: nat): Fit
    requires width > 0 && height > 0
  {
    Verdict(RectangleFit(filled, width, height), EllipseFit(filled, width, height), width, height)
  }

  lemma MomentMonotone(a: Shape, b: Shape, width: nat, height: nat)
    requires forall x, y :: a(x, y) ==> b(x, y)
    ensures 0.0 <= Moment(a, ONE, width, height) <= Moment(b, ONE, width, height) <= width as real * height as real
  {
    var zero: Weight := (x, y) => 0.0;
    GridSumConstant(zero, 0.0, width, height);
    GridSumConstant(ONE, 1.0, width, height);
    GridSumMonotone(zero, On(a, ONE), width, height);
    GridSumMonotone(On(a, ONE), On(b, ONE), width, height);
    GridSumMonotone(On(b, ONE), ONE, width, height);
  }

  lemma RatioInUnit(a: real, b: real)
    requires 0.0 <= a <= b && b > 0.0
    ensures 0.0 <= a / b <= 1.0
  {
    assert a / b * b == a;
  }

  lemma OverlapInUnit(a: Shape, b: Shape, width: nat, height: nat)
    ensures 0.0 <= Overlap(a, b, width, height) <= 1.0
  {
    MomentMonotone(And(a, b), Or(a, b), width, height);
    RatioInUnit(Moment(And(a, b), ONE, width, height), RealMax(1.0, Moment(Or(a, b), ONE, width, height)));
  }

  /** Every fit and the quality are ratios in the unit interval. */
  lemma FitInUnit(filled: Shape, width: nat, height: nat)
    requires width > 0 && height > 0
    ensures 0.0 <= RectangleFit(filled, width, height) <= 1.0
    ensures 0.0 <= EllipseFit(filled, width, height) <= 1.0
    ensures 0.0 <= FitOf(filled, width, height).quality <= 1.0
  {
    MomentMonotone(filled, filled, width, height);
    assert width as real * height as real > 0.0;
    RatioInUnit(Moment(filled, ONE, width, height), width as real * height as real);
    OverlapInUnit(filled, BoxEllipse(width, height), width, height);
    OverlapInUnit(filled, MomentEllipse(filled, width, height), width, height);
  }

  /** A shape's squared deviations from `c`, cell by cell, as a combination of its other weights. */
  lemma DeviationWeights(shape: Shape, v: Weight, squares: Weight, c: real, deviation: Weight, a: real, b: real)
    requires forall x, y :: squares(x, y) == Square(v(x, y)) && deviation(x, y) == Square(v(x, y) - c)
    requires a == -2.0 * c && b == c * c
    ensures forall x, y :: On(shape, deviation)(x, y)
              == 1.0 * On(shape, squares)(x, y) + a * On(shape, v)(x, y) + b * On(shape, ONE)(x, y)
    ensures forall x, y :: 0.0 <= On(shape, deviation)(x, y)
  {
    forall x, y
      ensures On(shape, deviation)(x, y) == 1.0 * On(shape, squares)(x, y) + a * On(shape, v)(x, y) + b * On(shape, ONE)(x, y)
      ensures 0.0 <= On(shape, deviation)(x, y)
    {
      SquareOfDifference(v(x, y), c, a, b);
    }
  }

  lemma SquareOfDifference(v: real, c: real, a: real, b: real)
    requires a == -2.0 * c && b == c * c
    ensures Square(v - c) == 1.0 * Square(v) + a * v + b * 1.0
    ensures Square(v - c) >= 0.0
  {
    ExpandSquare(v, c);
    assert a * v == -2.0 * (c * v);
    SquareNotNegative(v - c);
  }

  lemma ExpandSquare(v: real, c: real)
    ensures (v - c) * (v - c) == v * v - 2.0 * (c * v) + c * c
  {
  }

  lemma SquareNotNegative(a: real)
    ensures a * a >= 0.0
  {
  }

  /** The squared deviations from `c` sum up to sum(v^2) - 2c sum(v) + c^2 n, which is never negative. */
  lemma DeviationNotNegative(shape: Shape, v: Weight, squares: Weight, c: real, width: nat, height: nat)
    requires forall x, y :: squares(x, y) == Square(v(x, y))
    ensures Moment(shape, squares, width, height) - 2.0 * c * Moment(shape, v, width, height)
              + c * c * Moment(shape, ONE, width, height) >= 0.0
  {
    var deviation: Weight := (x, y) => Square(v(x, y) - c);
    var a, b := -2.0 * c, c * c;
    DeviationWeights(shape, v, squares, c, deviation, a, b);
    CombinedNotNegative(On(shape, squares), On(shape, v), On(shape, ONE), On(shape, deviation), a, b, width, height);
    var m := Moment(shape, v, width, height);
    assert a * m == -(2.0 * c * m);
  }

  lemma CombinedNotNegative(q: Weight, m: Weight, n: Weight, d: Weight, a: real, b: real, width: nat, height: nat)
    requires forall x, y :: d(x, y) == 1.0 * q(x, y) + a * m(x, y) + b * n(x, y)
    requires forall x, y :: 0.0 <= d(x, y)
    ensures 0.0 <= GridSum(q, width, height) + a * GridSum(m, width, height) + b * GridSum(n, width, height)
  {
    var zero: Weight := (x, y) => 0.0;
    GridSumLinear(q, m, n, d, 1.0, a, b, width, height);
    GridSumConstant(zero, 0.0, width, height);
    GridSumMonotone(zero, d, width, height);
  }

  /** A shape without cells in the box has no moments; any other has at least one cell. */
  lemma EmptyOrCounted(shape: Shape, v: Weight, width: nat, height: nat)
    ensures Moment(shape, ONE, width, height) >= 1.0
         || (Moment(shape, ONE, width, height) == 0.0 && Moment(shape, v, width, height) == 0.0)
  {
    if x, y :| 0 <= x < width && 0 <= y < height && shape(x, y) {
      CellCounts(shape, width, height, x, y);
    } else {
      GridSumConstant(On(shape, ONE), 0.0, width, height);
      GridSumConstant(On(shape, v), 0.0, width, height);
    }
  }

  lemma {:induction false} CellCounts(shape: Shape, width: nat, height: nat, x: int, y: int)
    requires 0 <= x < width && 0 <= y < height && shape(x, y)
    ensures Moment(shape, ONE, width, height) >= 1.0
  {
    var zero: Weight := (a, b) => 0.0;
    GridSumConstant(zero, 0.0, width, height - 1);
    GridSumMonotone(zero, On(shape, ONE), width, height - 1);
    RowSumConstant(zero, 0.0, height - 1, width);
    RowSumMonotone(zero, On(shape, ONE), height - 1, width);
    if y < height - 1 {
      CellCounts(shape, width, height - 1, x, y);
    } else {
      CellCountsInRow(shape, width, x, y);
    }
  }

  lemma {:induction false} CellCountsInRow(shape: Shape, n: nat, x: int, y: int)
    requires 0 <= x < n && shape(x, y)
    ensures RowSum(On(shape, ONE), y, n) >= 1.0
  {
    var zero: Weight := (a, b) => 0.0;
    RowSumConstant(zero, 0.0, y, n - 1);
    RowSumMonotone(zero, On(shape, ONE), y, n - 1);
    if x < n - 1 {
      CellCountsInRow(shape, n - 1, x, y);
    }
  }

  lemma DeviationAtMean(n: real, s: real, q: real)
    requires n > 0.0 && q - 2.0 * (s / n) * s + (s / n) * (s / n) * n >= 0.0
    ensures q / n >= (s / n) * (s / n) && n * q >= s * s
  {
    var m := s / n;
    assert m * n == s;
    assert m * m * n == m * s by { assert m * (m * n) == m * m * n; }
    assert q >= m * s;
    assert n * q >= n * (m * s) by { MulMonotone(n, m * s, q); }
    assert n * (m * s) == (m * n) * s;
    assert q >= m * m * n;
    DivMonotone(n, m * m, q);
  }

  lemma MulMonotone(n: real, a: real, b: real)
    requires n > 0.0 && a <= b
    ensures n * a <= n * b
  {
  }

  lemma DivMonotone(n: real, a: real, b: real)
    requires n > 0.0 && a * n <= b
    ensures a <= b / n
  {
    var d := b / n;
    assert d * n == b;
    assert (d - a) * n >= 0.0;
  }

  /** The mean square is at least the squared mean, so the clamp at zero never acts. */
  lemma VarianceNotNegative(shape: Shape, v: Weight, squares: Weight, width: nat, height: nat)
    requires forall x, y :: squares(x, y) == Square(v(x, y))
    ensures Mean(shape, squares, width, height) >= Square(Mean(shape, v, width, height))
    ensures Moment(shape, ONE, width, height) * Moment(shape, squares, width, height) >= Square(Moment(shape, v, width, height))
  {
    EmptyOrCounted(shape, v, width, height);
    EmptyOrCounted(shape, squares, width, height);
    var n, s, q := Moment(shape, ONE, width, height), Moment(shape, v, width, height), Moment(shape, squares, width, height);
    if n >= 1.0 {
      DeviationNotNegative(shape, v, squares, s / n, width, height);
      DeviationAtMean(n, s, q);
    }
  }
}
