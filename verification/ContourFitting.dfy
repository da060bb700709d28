/** fitContour: mask the component, flood its exterior, and fit the filled silhouette. */
module ContourFitting {
  import opened Numbers
  import opened Raster
  import opened Labelling
  import opened Silhouette
  import opened Contour
  import opened GridSums
  import opened ShapeFit

  ghost predicate BoxInside(c: Component, labels: seq<int>, imageWidth: int) {
    && 0 <= c.minX <= c.maxX < imageWidth
    && 0 <= c.minY <= c.maxY
    && (c.maxY + 1) * imageWidth <= |labels|
  }

  function BoxWidth(c: Component): int { c.maxX - c.minX + 1 }
  function BoxHeight(c: Component): int { c.maxY - c.minY + 1 }

  /** The raster pixel behind a cell of the component's box. */
  function PixelOf(c: Component, imageWidth: int, x: int, y: int): int {
    (y + c.minY) * imageWidth + x + c.minX
  }

  predicate Owns(c: Component, labels: seq<int>, imageWidth: int, x: int, y: int) {
    var i := PixelOf(c, imageWidth, x, y);
    0 <= i < |labels| && labels[i] == c.id
  }

  /** The cells of the component's box that carry its label. */
  ghost function OwnCells(c: Component, labels: seq<int>, imageWidth: int): (cells: set<Cell>)
    ensures Within(cells, BoxWidth(c), BoxHeight(c))
  {
    set x, y | 0 <= x < BoxWidth(c) && 0 <= y < BoxHeight(c) && Owns(c, labels, imageWidth, x, y) :: (x, y)
  }

  /** The shape made of the cells. */
  ghost function InCells(cells: set<Cell>): Shape {
    (x, y) => (x, y) in cells
  }

  ghost function SilhouetteOf(c: Component, labels: seq<int>, imageWidth: int): Shape {
    InCells(Filled(BoxWidth(c), BoxHeight(c), OwnCells(c, labels, imageWidth)))
  }

  lemma BoxIndex(c: Component, labels: seq<int>, imageWidth: int, x: int, y: int)
    requires BoxInside(c, labels, imageWidth) && 0 <= x < BoxWidth(c) && 0 <= y < BoxHeight(c)
    ensures 0 <= PixelOf(c, imageWidth, x, y) < |labels|
  {
    CellInRange(imageWidth, c.maxY + 1, x + c.minX, y + c.minY);
  }

  /** 1 on the component's cells above (x, y) in reading order, 0 elsewhere. */
  ghost predicate MaskedUpTo(mask: seq<int>, width: int, height: int, cells: set<Cell>, x: int, y: int)
    requires width > 0 && height > 0
  {
    && |mask| == (width + 2) * (height + 2)
    && forall i | 0 <= i < |mask| ::
      var p := CellAt(width + 2, i);
      mask[i] == if p in cells && (p.1 < y || (p.1 == y && p.0 < x)) then 1 else 0
  }

  lemma MaskCell(mask: seq<int>, mask': seq<int>, width: int, height: int, cells: set<Cell>, x: int, y: int)
    requires width > 0 && height > 0 && 0 <= x < width && 0 <= y < height
    requires MaskedUpTo(mask, width, height, cells, x, y)
    requires 0 <= IndexAt(width + 2, (x, y)) < |mask|
    requires mask' == if (x, y) in cells then mask[IndexAt(width + 2, (x, y)) := 1] else mask
    ensures MaskedUpTo(mask', width, height, cells, x + 1, y)
  {
    IndexOfCellAt(width, height, (x, y));
    forall i | 0 <= i < |mask'|
      ensures var p := CellAt(width + 2, i);
        mask'[i] == if p in cells && (p.1 < y || (p.1 == y && p.0 < x + 1)) then 1 else 0
    {
      CellAtIndex(width, height, i);
    }
  }

  lemma MaskRowDone(mask: seq<int>, width: int, height: int, cells: set<Cell>, y: int)
    requires width > 0 && height > 0 && MaskedUpTo(mask, width, height, cells, width, y) && Within(cells, width, height)
    ensures MaskedUpTo(mask, width, height, cells, 0, y + 1)
  {
  }

  lemma MaskDone(mask: seq<int>, width: int, height: int, cells: set<Cell>)
    requires width > 0 && height > 0 && MaskedUpTo(mask, width, height, cells, 0, height) && Within(cells, width, height)
    ensures MaskOf(mask, width, height, cells)
  {
  }

  /** Copy the component into the zeroed mask. */
  method MaskComponent(component: Component, labels: array<int>, imageWidth: int, mask: array<int>)
    requires BoxInside(component, labels[..], imageWidth) && mask != labels
    requires mask.Length == (BoxWidth(component) + 2) * (BoxHeight(component) + 2)
    requires forall i | 0 <= i < mask.Length :: mask[i] == 0
    modifies mask
    ensures MaskOf(mask[..], BoxWidth(component), BoxHeight(component), OwnCells(component, labels[..], imageWidth))
  {
    var width, height := BoxWidth(component), BoxHeight(component);
    ghost var cells := OwnCells(component, labels[..], imageWidth);
    NothingMasked(mask[..], width, height, cells);
    hide OwnCells, MaskedUpTo, Owns, Within;
    for y := 0 to height
      invariant MaskedUpTo(mask[..], width, height, cells, 0, y)
    {
      for x := 0 to width
        invariant MaskedUpTo(mask[..], width, height, cells, x, y)
      {
        BoxIndex(component, labels[..], imageWidth, x, y);
        IndexOfCellAt(width, height, (x, y));
        OwnCell(component, labels[..], imageWidth, x, y);
        ghost var before := mask[..];
        if labels[PixelOf(component, imageWidth, x, y)] == component.id {
          mask[(y + 1) * (width + 2) + x + 1] := 1;
        }
        MaskCell(before, mask[..], width, height, cells, x, y);
      }
      MaskRowDone(mask[..], width, height, cells, y);
    }
    MaskDone(mask[..], width, height, cells);
  }

  lemma NothingMasked(mask: seq<int>, width: int, height: int, cells: set<Cell>)
    requires width > 0 && height > 0 && |mask| == (width + 2) * (height + 2) && Within(cells, width, height)
    requires forall i | 0 <= i < |mask| :: mask[i] == 0
    ensures MaskedUpTo(mask, width, height, cells, 0, 0)
  {
  }

  lemma OwnCell(c: Component, labels: seq<int>, imageWidth: int, x: int, y: int)
    requires BoxInside(c, labels, imageWidth) && 0 <= x < BoxWidth(c) && 0 <= y < BoxHeight(c)
    requires 0 <= PixelOf(c, imageWidth, x, y) < |labels|
    ensures (x, y) in OwnCells(c, labels, imageWidth) <==> labels[PixelOf(c, imageWidth, x, y)] == c.id
    ensures Within(OwnCells(c, labels, imageWidth), BoxWidth(c), BoxHeight(c))
  {
  }

  /** A mask cell that the flood did not reach. */
  predicate Unreached(mask: seq<int>, width: int, x: int, y: int) {
    var i := (y + 1) * (width + 2) + x + 1;
    0 <= i < |mask| && mask[i] != 2
  }

  /** The mask shows `filled` in the box. */
  ghost predicate Shows(mask: seq<int>, width: int, height: int, filled: Shape) {
    && |mask| == (width + 2) * (height + 2)
    && forall x, y | 0 <= x < width && 0 <= y < height :: Unreached(mask, width, x, y) <==> filled(x, y)
  }

  lemma FloodedMaskShows(mask: seq<int>, width: int, height: int, cells: set<Cell>, filled: Shape)
    requires width > 0 && height > 0 && |mask| == (width + 2) * (height + 2) && Within(cells, width, height)
    requires forall i | 0 <= i < |mask| :: mask[i] == 2 <==> Exterior(width, height, cells, CellAt(width + 2, i))
    requires filled == ((x, y) => (x, y) in Filled(width, height, cells))
    ensures Shows(mask, width, height, filled)
  {
    forall x, y | 0 <= x < width && 0 <= y < height
      ensures Unreached(mask, width, x, y) <==> filled(x, y)
    {
      IndexOfCellAt(width, height, (x, y));
      PaddingIsEnough(width, height, cells, (x, y));
    }
  }

  lemma MaskIndex(mask: seq<int>, width: int, height: int, filled: Shape, x: int, y: int)
    requires width > 0 && height > 0 && Shows(mask, width, height, filled) && 0 <= x < width && 0 <= y < height
    ensures 0 <= (y + 1) * (width + 2) + x + 1 < |mask|
    ensures mask[(y + 1) * (width + 2) + x + 1] != 2 <==> filled(x, y)
  {
    IndexOfCellAt(width, height, (x, y));
    assert Unreached(mask, width, x, y) <==> filled(x, y);
  }

  lemma MomentWeights(shape: Shape, x: int, y: int)
    ensures On(shape, ONE)(x, y) == if shape(x, y) then 1.0 else 0.0
    ensures On(shape, CENTER_X)(x, y) == if shape(x, y) then CenterOf(x) else 0.0
    ensures On(shape, CENTER_Y)(x, y) == if shape(x, y) then CenterOf(y) else 0.0
    ensures On(shape, SQUARE_X)(x, y) == if shape(x, y) then Square(CenterOf(x)) else 0.0
    ensures On(shape, SQUARE_Y)(x, y) == if shape(x, y) then Square(CenterOf(y)) else 0.0
  {
  }

  method SumMoments(mask: array<int>, width: int, height: int, ghost filled: Shape)
    returns (area: real, sumX: real, sumY: real, sumXX: real, sumYY: real)
    requires width > 0 && height > 0 && Shows(mask[..], width, height, filled)
    ensures area == Moment(filled, ONE, width, height)
    ensures sumX == Moment(filled, CENTER_X, width, height) && sumY == Moment(filled, CENTER_Y, width, height)
    ensures sumXX == Moment(filled, SQUARE_X, width, height) && sumYY == Moment(filled, SQUARE_Y, width, height)
  {
    hide On, Square, CenterOf, Shows;
    area, sumX, sumY, sumXX, sumYY := 0.0, 0.0, 0.0, 0.0, 0.0;
    for y := 0 to height
      invariant area == GridSum(On(filled, ONE), width, y)
      invariant sumX == GridSum(On(filled, CENTER_X), width, y) && sumY == GridSum(On(filled, CENTER_Y), width, y)
      invariant sumXX == GridSum(On(filled, SQUARE_X), width, y) && sumYY == GridSum(On(filled, SQUARE_Y), width, y)
    {
      for x := 0 to width
        invariant area == GridSum(On(filled, ONE), width, y) + RowSum(On(filled, ONE), y, x)
        invariant sumX == GridSum(On(filled, CENTER_X), width, y) + RowSum(On(filled, CENTER_X), y, x)
        invariant sumY == GridSum(On(filled, CENTER_Y), width, y) + RowSum(On(filled, CENTER_Y), y, x)
        invariant sumXX == GridSum(On(filled, SQUARE_X), width, y) + RowSum(On(filled, SQUARE_X), y, x)
        invariant sumYY == GridSum(On(filled, SQUARE_Y), width, y) + RowSum(On(filled, SQUARE_Y), y, x)
      {
        MaskIndex(mask[..], width, height, filled, x, y);
        MomentWeights(filled, x, y);
        if mask[(y + 1) * (width + 2) + x + 1] != 2 {
          area := area + 1.0;
          sumX := sumX + CenterOf(x);
          sumY := sumY + CenterOf(y);
          sumXX := sumXX + Square(CenterOf(x));
          sumYY := sumYY + Square(CenterOf(y));
        }
      }
    }
  }

  lemma OverlapWeights(a: Shape, b: Shape, x: int, y: int)
    ensures On(And(a, b), ONE)(x, y) == if a(x, y) && b(x, y) then 1.0 else 0.0
    ensures On(Or(a, b), ONE)(x, y) == if a(x, y) || b(x, y) then 1.0 else 0.0
  {
  }

  /** Count the cells that the silhouette shares with each of two ellipses, and the cells that either has. */
  method CountOverlaps(mask: array<int>, width: int, height: int, ellipse: Shape, momentEllipse: Shape, ghost filled: Shape)
    returns (ellipseIntersection: real, ellipseUnion: real, momentIntersection: real, momentUnion: real)
    requires width > 0 && height > 0 && Shows(mask[..], width, height, filled)
    ensures ellipseIntersection == Moment(And(filled, ellipse), ONE, width, height)
    ensures ellipseUnion == Moment(Or(filled, ellipse), ONE, width, height)
    ensures momentIntersection == Moment(And(filled, momentEllipse), ONE, width, height)
    ensures momentUnion == Moment(Or(filled, momentEllipse), ONE, width, height)
  {
    hide On, And, Or, Shows;
    ellipseIntersection, ellipseUnion, momentIntersection, momentUnion := 0.0, 0.0, 0.0, 0.0;
    for y := 0 to height
      invariant ellipseIntersection == GridSum(On(And(filled, ellipse), ONE), width, y)
      invariant ellipseUnion == GridSum(On(Or(filled, ellipse), ONE), width, y)
      invariant momentIntersection == GridSum(On(And(filled, momentEllipse), ONE), width, y)
      invariant momentUnion == GridSum(On(Or(filled, momentEllipse), ONE), width, y)
    {
      for x := 0 to width
        invariant ellipseIntersection == GridSum(On(And(filled, ellipse), ONE), width, y) + RowSum(On(And(filled, ellipse), ONE), y, x)
        invariant ellipseUnion == GridSum(On(Or(filled, ellipse), ONE), width, y) + RowSum(On(Or(filled, ellipse), ONE), y, x)
        invariant momentIntersection
               == GridSum(On(And(filled, momentEllipse), ONE), width, y) + RowSum(On(And(filled, momentEllipse), ONE), y, x)
        invariant momentUnion
               == GridSum(On(Or(filled, momentEllipse), ONE), width, y) + RowSum(On(Or(filled, momentEllipse), ONE), y, x)
      {
        MaskIndex(mask[..], width, height, filled, x, y);
        OverlapWeights(filled, ellipse, x, y);
        OverlapWeights(filled, momentEllipse, x, y);
        var inside := mask[(y + 1) * (width + 2) + x + 1] != 2;
        if inside && ellipse(x, y) {
          ellipseIntersection := ellipseIntersection + 1.0;
        }
        if inside || ellipse(x, y) {
          ellipseUnion := ellipseUnion + 1.0;
        }
        if inside && momentEllipse(x, y) {
          momentIntersection := momentIntersection + 1.0;
        }
        if inside || momentEllipse(x, y) {
          momentUnion := momentUnion + 1.0;
        }
      }
    }
  }

  /** The fit of the silhouette that a flooded mask shows. */
  method FitMask(mask: array<int>, width: int, height: int, ghost filled: Shape) returns (fit: Fit)
    requires width > 0 && height > 0 && Shows(mask[..], width, height, filled)
    ensures fit == FitOf(filled, width, height)
  {
    hide Moment, Shows, Verdict, Ellipse, Square, SquaredRadius, And, Or;
    var area, sumX, sumY, sumXX, sumYY := SumMoments(mask, width, height, filled);
    var count := RealMax(1.0, area);
    var centerX, centerY := sumX / count, sumY / count;
    var radiusXX := SquaredRadius(sumXX / count - Square(centerX));
    var radiusYY := SquaredRadius(sumYY / count - Square(centerY));
    var ellipse, momentEllipse := BoxEllipse(width, height), Ellipse(centerX, centerY, radiusXX, radiusYY);
    hide BoxEllipse;
    assert momentEllipse == MomentEllipse(filled, width, height);
    hide MomentEllipse;
    var ellipseIntersection, ellipseUnion, momentIntersection, momentUnion :=
      CountOverlaps(mask, width, height, ellipse, momentEllipse, filled);
    var rectangleFit := area / (width as real * height as real);
    var ellipseFit := RealMax(ellipseIntersection / RealMax(1.0, ellipseUnion), momentIntersection / RealMax(1.0, momentUnion));
    fit := Verdict(rectangleFit, ellipseFit, width, height);
  }

  /** Fit one component. The result is a function of the component's own cells in its box, and of nothing else. */
  method FitContour(component: Component, labels: array<int>, imageWidth: int) returns (fit: Fit)
    requires BoxInside(component, labels[..], imageWidth)
    ensures fit == FitOf(SilhouetteOf(component, labels[..], imageWidth), BoxWidth(component), BoxHeight(component))
  {
    hide Filled, OwnCells, MaskOf, Shows, FitOf;
    var width, height := BoxWidth(component), BoxHeight(component);
    ghost var cells := OwnCells(component, labels[..], imageWidth);
    ghost var filled := SilhouetteOf(component, labels[..], imageWidth);
    CellInRange(width + 2, height + 2, 0, 0);
    var mask := new int[(width + 2) * (height + 2)](_ => 0);
    var queue := new int[mask.Length](_ => 0);
    MaskComponent(component, labels, imageWidth, mask);
    FloodExterior(mask, queue, width, height, cells);
    FloodedMaskShows(mask[..], width, height, cells, filled);
    fit := FitMask(mask, width, height, filled);
  }

  /** Other labels inside the box do not matter. */
  lemma FitDependsOnOwnPixels(c: Component, labels: seq<int>, other: seq<int>, imageWidth: int)
    requires BoxInside(c, labels, imageWidth) && |other| == |labels|
    requires forall i | 0 <= i < |labels| :: labels[i] == c.id <==> other[i] == c.id
    ensures FitOf(SilhouetteOf(c, labels, imageWidth), BoxWidth(c), BoxHeight(c))
         == FitOf(SilhouetteOf(c, other, imageWidth), BoxWidth(c), BoxHeight(c))
  {
    assert OwnCells(c, labels, imageWidth) == OwnCells(c, other, imageWidth);
  }
}
