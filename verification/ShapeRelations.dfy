/** What the comparisons of two symbols say about the points of the plane. */
module ShapeRelations {
  import opened Results
  import opened Numbers
  import opened Raster
  import opened Interpreter

  /** The point lies in the bounding box of the symbol or on its edge. */
  predicate InBox(s: Symbol, x: real, y: real) {
    && s.x - s.width / 2.0 <= x <= s.x + s.width / 2.0
    && s.y - s.height / 2.0 <= y <= s.y + s.height / 2.0
  }

  /** The level of the ellipse inscribed in the bounding box: below one inside, one on the curve, above one outside. */
  function Level(s: Symbol, x: real, y: real): real {
    Square((x - s.x) / (s.width / 2.0)) + Square((y - s.y) / (s.height / 2.0))
  }

  /** The point lies strictly inside the body: an ellipse for round and oval symbols, the box for all others. */
  predicate InsideBody(s: Symbol, x: real, y: real) {
    match s.shape
    case Some(Round) => Level(s, x, y) < 1.0
    case Some(Oval) => Level(s, x, y) < 1.0
    case _ =>
      && s.x - s.width / 2.0 < x < s.x + s.width / 2.0
      && s.y - s.height / 2.0 < y < s.y + s.height / 2.0
  }

  // ---------------------------------------------------------------- containment

  lemma RatioOfAbs(a: real, h: real)
    requires h > 0.0
    ensures Square(a / h) == Square(Abs(a) / h)
  {
    assert (-a) / h == -(a / h);
  }

  lemma LevelBelow(s: Symbol, x: real, y: real, dx: real, dy: real)
    requires Abs(x - s.x) <= dx && Abs(y - s.y) <= dy
    ensures Level(s, x, y) <= Square(dx / (s.width / 2.0)) + Square(dy / (s.height / 2.0))
  {
    RatioOfAbs(x - s.x, s.width / 2.0);
    RatioOfAbs(y - s.y, s.height / 2.0);
    RatioSquares(Abs(x - s.x), dx, s.width / 2.0);
    RatioSquares(Abs(y - s.y), dy, s.height / 2.0);
    hide Square;
  }

  lemma ContainedPoints(outer: Symbol, inner: Symbol, x: real, y: real)
    requires Contains(outer, inner) && InBox(inner, x, y)
    ensures InsideBody(outer, x, y)
  {
    LevelBelow(outer, x, y, ReachX(outer, inner), ReachY(outer, inner));
    hide Level, Square;
  }

  /** The corner of the inner box that is farthest from the centre of the outer one. */
  function FarX(outer: Symbol, inner: Symbol): real {
    if inner.x >= outer.x then inner.x + inner.width / 2.0 else inner.x - inner.width / 2.0
  }

  function FarY(outer: Symbol, inner: Symbol): real {
    if inner.y >= outer.y then inner.y + inner.height / 2.0 else inner.y - inner.height / 2.0
  }

  lemma FarthestCorner(outer: Symbol, inner: Symbol)
    requires InsideBody(outer, FarX(outer, inner), FarY(outer, inner))
    ensures Contains(outer, inner)
  {
    var x, y := FarX(outer, inner), FarY(outer, inner);
    assert Abs(x - outer.x) == ReachX(outer, inner) && Abs(y - outer.y) == ReachY(outer, inner);
    RatioOfAbs(x - outer.x, outer.width / 2.0);
    RatioOfAbs(y - outer.y, outer.height / 2.0);
    hide Square;
  }

  /** One symbol contains another exactly when every point of the other's box lies strictly inside its body. */
  lemma ContainsIff(outer: Symbol, inner: Symbol)
    ensures Contains(outer, inner) <==> forall x, y :: InBox(inner, x, y) ==> InsideBody(outer, x, y)
  {
    if Contains(outer, inner) {
      forall x, y | InBox(inner, x, y)
        ensures InsideBody(outer, x, y)
      {
        ContainedPoints(outer, inner, x, y);
      }
    }
    var x, y := FarX(outer, inner), FarY(outer, inner);
    assert InBox(inner, x, y);
    hide Contains, InsideBody;
    if InsideBody(outer, x, y) {
      FarthestCorner(outer, inner);
    }
  }

  // ---------------------------------------------------------------- the gap between a table and a seat

  /** The function is the Euclidean length. */
  ghost predicate Euclidean(hypot: Hypot) {
    forall a, b :: hypot(a, b) >= 0.0 && Square(hypot(a, b)) == Square(a) + Square(b)
  }

  /** The point lies inside the body or on its edge. */
  predicate OnBody(s: Symbol, x: real, y: real) {
    match s.shape
    case Some(Round) => Level(s, x, y) <= 1.0
    case Some(Oval) => Level(s, x, y) <= 1.0
    case _ => InBox(s, x, y)
  }

  function SquaredDistance(x: real, y: real, u: real, v: real): real {
    Square(x - u) + Square(y - v)
  }

  lemma SquareOfAbs(a: real)
    ensures Square(Abs(a)) == Square(a)
  {
  }

  lemma SquareAtMostOne(a: real)
    requires a >= 0.0
    ensures a <= 1.0 <==> Square(a) <= 1.0
  {
    if a > 1.0 {
      assert (a - 1.0) * (a + 1.0) > 0.0;
    } else {
      SquareMonotone(a, 1.0);
    }
  }

  /** The radius that the gap of an elliptic body is computed from. */
  lemma RadiusIsLevel(hypot: Hypot, table: Symbol, seat: Symbol, radius: real)
    requires Euclidean(hypot)
    requires radius == hypot(Abs(table.x - seat.x) / (table.width / 2.0), Abs(table.y - seat.y) / (table.height / 2.0))
    ensures radius >= 0.0 && Square(radius) == Level(table, seat.x, seat.y)
    ensures radius <= 1.0 <==> Level(table, seat.x, seat.y) <= 1.0
  {
    RatioOfAbs(seat.x - table.x, table.width / 2.0);
    RatioOfAbs(seat.y - table.y, table.height / 2.0);
    assert Abs(table.x - seat.x) == Abs(seat.x - table.x) && Abs(table.y - seat.y) == Abs(seat.y - table.y);
    hide Square;
    SquareAtMostOne(radius);
  }

  /** A seat has no gap to a body exactly when its centre lies on the body. */
  lemma NoGapIff(hypot: Hypot, table: Symbol, seat: Symbol)
    requires Euclidean(hypot)
    ensures BodyGap(hypot, table, seat).Infinite? <==> OnBody(table, seat.x, seat.y)
  {
    var radius := hypot(Abs(table.x - seat.x) / (table.width / 2.0), Abs(table.y - seat.y) / (table.height / 2.0));
    RadiusIsLevel(hypot, table, seat, radius);
    hide Level, Euclidean;
  }

  function Beyond(distance: real, half: real): real { RealMax(0.0, distance - half) }

  lemma ClosestAlong(p: real, c: real, h: real, x: real)
    requires h > 0.0 && c - h <= x <= c + h
    ensures Square(Beyond(Abs(c - p), h)) <= Square(x - p)
  {
    var d := Beyond(Abs(c - p), h);
    assert d <= Abs(x - p);
    SquareMonotone(d, Abs(x - p));
    SquareOfAbs(x - p);
  }

  /** The value of [c - h, c + h] closest to `p`. */
  function Clamp(p: real, c: real, h: real): real {
    if p < c - h then c - h else if p > c + h then c + h else p
  }

  lemma ClampIsClosest(p: real, c: real, h: real)
    requires h > 0.0
    ensures c - h <= Clamp(p, c, h) <= c + h && Square(Beyond(Abs(c - p), h)) == Square(Clamp(p, c, h) - p)
  {
    SquareOfAbs(Clamp(p, c, h) - p);
    assert Beyond(Abs(c - p), h) == Abs(Clamp(p, c, h) - p);
  }

  /** The gap to a body that is no ellipse is the distance to the closest point of its box. */
  ghost predicate ClosestInBox(table: Symbol, seat: Symbol, distance: real) {
    && distance >= 0.0
    && (exists x, y :: InBox(table, x, y) && SquaredDistance(x, y, seat.x, seat.y) == Square(distance))
    && (forall x, y | InBox(table, x, y) :: Square(distance) <= SquaredDistance(x, y, seat.x, seat.y))
  }

  /** The gap to an ellipse is the distance to the point where the line from its centre to the seat crosses it. */
  ghost predicate AcrossEllipse(table: Symbol, seat: Symbol, distance: real) {
    exists t: real :: 0.0 < t < 1.0 && Crosses(table, seat, t, distance)
  }

  /** The coordinate that lies the fraction `t` of the way from one to another. */
  function Along(from: real, to: real, t: real): real { from + t * (to - from) }

  predicate Crosses(table: Symbol, seat: Symbol, t: real, distance: real) {
    var x, y := Along(table.x, seat.x, t), Along(table.y, seat.y, t);
    distance >= 0.0 && Level(table, x, y) == 1.0 && SquaredDistance(x, y, seat.x, seat.y) == Square(distance)
  }

  lemma BoxGap(hypot: Hypot, table: Symbol, seat: Symbol)
    requires Euclidean(hypot) && !IsElliptic(table) && BodyGap(hypot, table, seat).Finite?
    ensures ClosestInBox(table, seat, BodyGap(hypot, table, seat).distance)
  {
    var a, b := Beyond(Abs(table.x - seat.x), table.width / 2.0), Beyond(Abs(table.y - seat.y), table.height / 2.0);
    var d := BodyGap(hypot, table, seat).distance;
    assert d == hypot(a, b);
    assert d >= 0.0 && Square(d) == Square(a) + Square(b);
    hide Euclidean, BodyGap, Square, Beyond, Abs;
    var x, y := Clamp(seat.x, table.x, table.width / 2.0), Clamp(seat.y, table.y, table.height / 2.0);
    ClampIsClosest(seat.x, table.x, table.width / 2.0);
    ClampIsClosest(seat.y, table.y, table.height / 2.0);
    assert InBox(table, x, y) && SquaredDistance(x, y, seat.x, seat.y) == Square(d);
    forall u, v | InBox(table, u, v)
      ensures Square(d) <= SquaredDistance(u, v, seat.x, seat.y)
    {
      ClosestAlong(seat.x, table.x, table.width / 2.0, u);
      ClosestAlong(seat.y, table.y, table.height / 2.0, v);
    }
  }

  lemma ScaledRatio(t: real, a: real, h: real)
    requires h > 0.0
    ensures Square(t * a / h) == Square(t) * Square(a / h)
  {
    assert t * a / h == t * (a / h);
    SquareOfProduct(t, a / h);
  }

  lemma ScaledLevel(s: Symbol, x: real, y: real, t: real)
    ensures Level(s, Along(s.x, x, t), Along(s.y, y, t)) == Square(t) * Level(s, x, y)
  {
    ScaledRatio(t, x - s.x, s.width / 2.0);
    ScaledRatio(t, y - s.y, s.height / 2.0);
    hide Square;
    Distributed(Square(t), Square((x - s.x) / (s.width / 2.0)), Square((y - s.y) / (s.height / 2.0)));
  }

  lemma DistanceLeft(a: real, b: real, t: real, f: real, p: real)
    requires f == Square(1.0 - t) && p == Square(a - b)
    ensures Square(Along(a, b, t) - b) == f * p
  {
    assert Along(a, b, t) - b == (1.0 - t) * (a - b);
    SquareOfProduct(1.0 - t, a - b);
  }

  lemma SameFactor(a: real, b: real, c: real)
    requires b == c
    ensures a * b == a * c
  {
  }

  lemma EllipseGap(hypot: Hypot, table: Symbol, seat: Symbol)
    requires Euclidean(hypot) && IsElliptic(table) && BodyGap(hypot, table, seat).Finite?
    ensures AcrossEllipse(table, seat, BodyGap(hypot, table, seat).distance)
  {
    var dx, dy := Abs(table.x - seat.x), Abs(table.y - seat.y);
    var radius := hypot(dx / (table.width / 2.0), dy / (table.height / 2.0));
    var d, length := BodyGap(hypot, table, seat).distance, hypot(dx, dy);
    var t := 1.0 / radius;
    RadiusIsLevel(hypot, table, seat, radius);
    assert length >= 0.0 && Square(length) == Square(dx) + Square(dy);
    SquareOfAbs(table.x - seat.x);
    SquareOfAbs(table.y - seat.y);
    assert d == length * (1.0 - t);
    hide Euclidean, BodyGap;
    CrossesAt(table, seat, radius, t, length, d);
  }

  lemma CrossesAt(table: Symbol, seat: Symbol, radius: real, t: real, length: real, d: real)
    requires radius > 1.0 && t == 1.0 / radius && Square(radius) == Level(table, seat.x, seat.y)
    requires length >= 0.0 && Square(length) == Square(table.x - seat.x) + Square(table.y - seat.y) && d == length * (1.0 - t)
    ensures 0.0 < t < 1.0 && Crosses(table, seat, t, d)
  {
    hide *;
    Fractions(radius, t, length, d);
    OnTheCurve(table, seat.x, seat.y, radius, t);
    DistanceAcross(table, seat, t, length, d);
    CrossesIs(table, seat, t, d);
  }

  lemma Fractions(radius: real, t: real, length: real, d: real)
    requires radius > 1.0 && t == 1.0 / radius && length >= 0.0 && d == length * (1.0 - t)
    ensures t * radius == 1.0 && 0.0 < t < 1.0 && d >= 0.0
  {
    assert t * radius == 1.0;
    assert 0.0 < t < 1.0;
  }

  lemma CrossesIs(table: Symbol, seat: Symbol, t: real, d: real)
    requires d >= 0.0 && Level(table, Along(table.x, seat.x, t), Along(table.y, seat.y, t)) == 1.0
    requires SquaredDistance(Along(table.x, seat.x, t), Along(table.y, seat.y, t), seat.x, seat.y) == Square(d)
    ensures Crosses(table, seat, t, d)
  {
    hide Level, SquaredDistance, Square, Along;
  }

  lemma OnTheCurve(s: Symbol, x: real, y: real, radius: real, t: real)
    requires t * radius == 1.0 && Square(radius) == Level(s, x, y)
    ensures Level(s, Along(s.x, x, t), Along(s.y, y, t)) == 1.0
  {
    hide *;
    ScaledLevel(s, x, y, t);
    SquareOfOne(t, radius);
    SameFactor(Square(t), Square(radius), Level(s, x, y));
  }

  lemma SquareOfOne(t: real, radius: real)
    requires t * radius == 1.0
    ensures Square(t) * Square(radius) == 1.0
  {
    SquareOfProduct(t, radius);
  }

  lemma DistanceAcross(table: Symbol, seat: Symbol, t: real, length: real, d: real)
    requires Square(length) == Square(table.x - seat.x) + Square(table.y - seat.y) && d == length * (1.0 - t)
    ensures SquaredDistance(Along(table.x, seat.x, t), Along(table.y, seat.y, t), seat.x, seat.y) == Square(d)
  {
    hide *;
    var f, a, b, c := Square(1.0 - t), Square(table.x - seat.x), Square(table.y - seat.y), Square(length);
    var x, y := Along(table.x, seat.x, t), Along(table.y, seat.y, t);
    DistanceLeft(table.x, seat.x, t, f, a);
    DistanceLeft(table.y, seat.y, t, f, b);
    SquareIs(d, length, 1.0 - t, c, f);
    SquaredDistanceIs(x, y, seat.x, seat.y);
    AddUp(Square(x - seat.x), Square(y - seat.y), f, a, b, c);
  }

  lemma AddUp(p: real, q: real, f: real, a: real, b: real, c: real)
    requires p == f * a && q == f * b && c == a + b
    ensures p + q == f * c
  {
  }

  lemma SquareIs(p: real, a: real, b: real, c: real, f: real)
    requires p == a * b && c == Square(a) && f == Square(b)
    ensures Square(p) == f * c
  {
    SquareOfProduct(a, b);
  }

  lemma SquaredDistanceIs(x: real, y: real, u: real, v: real)
    ensures SquaredDistance(x, y, u, v) == Square(x - u) + Square(y - v)
  {
  }

  /**
   Measured by Euclidean length, a seat whose centre lies on a table's body has no gap to it; any other has its distance to
   the closest point of the table's box, or, for an ellipse, to the point where the line from the table's centre to the
   seat's crosses it.
   */
  lemma BodyGapIsDistance(hypot: Hypot, table: Symbol, seat: Symbol)
    requires Euclidean(hypot)
    ensures var gap := BodyGap(hypot, table, seat);
      && (gap.Infinite? <==> OnBody(table, seat.x, seat.y))
      && (gap.Finite? ==>
        if table.shape == Some(Round) || table.shape == Some(Oval) then AcrossEllipse(table, seat, gap.distance)
        else ClosestInBox(table, seat, gap.distance))
  {
    NoGapIff(hypot, table, seat);
    if BodyGap(hypot, table, seat).Finite? {
      if IsElliptic(table) {
        EllipseGap(hypot, table, seat);
      } else {
        BoxGap(hypot, table, seat);
      }
    }
  }

  // ---------------------------------------------------------------- sizes

  /** Sides within a factor of 1.35 of one another, in both directions. */
  lemma SimilarSizeIff(a: Symbol, b: Symbol)
    ensures SimilarSize(a, b) <==>
      && a.width <= 1.35 * b.width && b.width <= 1.35 * a.width
      && a.height <= 1.35 * b.height && b.height <= 1.35 * a.height
  {
    RatioAtMost(a.width, b.width);
    RatioAtMost(b.width, a.width);
    RatioAtMost(a.height, b.height);
    RatioAtMost(b.height, a.height);
  }

  lemma RatioAtMost(a: real, b: real)
    requires b > 0.0
    ensures a / b <= 1.35 <==> a <= 1.35 * b
  {
    var q := a / b;
    assert q * b == a;
    assert (1.35 - q) * b == 1.35 * b - a;
  }

  /** At least four times the seat's area, and a gap of at most two and a half times its longer side. */
  lemma EligibleIff(hypot: Hypot, table: Symbol, seat: Symbol)
    ensures Eligible(hypot, table, seat) <==>
      var gap := BodyGap(hypot, table, seat);
      && table.width * table.height >= 4.0 * (seat.width * seat.height)
      && gap.Finite? && (gap.distance <= 2.5 * seat.width || gap.distance <= 2.5 * seat.height)
  {
    hide BodyGap;
  }
}
