/** extractShapes: label the raster, keep the plausible components, fit each of them. */
module Extraction {
  import opened Results
  import opened Reachability
  import opened Raster
  import opened FloodQueue
  import opened Labelling
  import opened Components
  import opened Silhouette
  import opened ShapeFit
  import opened ContourFitting
  import Decimal

  /** A fitted symbol: centre and extent in pixels. */
  datatype ShapeCandidate = ShapeCandidate(id: string, x: real, y: real, width: real, height: real,
                                           shape: Option<DetectedShape>, quality: real)

  function CandidateId(index: nat): string {
    "detected-" + Decimal.Print(index + 1)
  }

  function CandidateFrom(c: Component, index: nat, fit: Fit): ShapeCandidate {
    var w, h := BoxWidth(c), BoxHeight(c);
    ShapeCandidate(CandidateId(index), c.minX as real + w as real / 2.0, c.minY as real + h as real / 2.0,
                   w as real, h as real, fit.shape, fit.quality)
  }

  function BoxPixels(c: Component): int {
    (BoxWidth(c) + 2) * (BoxHeight(c) + 2)
  }

  lemma BoxPixelsAre(c: Component)
    ensures BoxPixels(c) == (c.maxX - c.minX + 1 + 2) * (c.maxY - c.minY + 1 + 2)
  {
  }

  lemma BoxPixelsPositive(c: Component)
    requires BoxWidth(c) > 0 && BoxHeight(c) > 0
    ensures BoxPixels(c) > 0
  {
    var w, h := BoxWidth(c) + 2, BoxHeight(c) + 2;
    assert w * h > 0;
  }

  function FitPixels(components: seq<Component>): int {
    if components == [] then 0
    else
      var c := components[|components| - 1];
      FitPixels(components[..|components| - 1]) + BoxPixels(c)
  }

  /** The cells of the component numbered `c.id`, in the coordinates of its box. */
  ghost function RegionCells(source: PreparedLayoutSource, threshold: int, c: Component): set<Cell>
    requires source.Valid()
  {
    set x, y | 0 <= x < BoxWidth(c) && 0 <= y < BoxHeight(c) && InRegionOf(source, threshold, c, x, y) :: (x, y)
  }

  ghost function RegionFit(source: PreparedLayoutSource, threshold: int, c: Component): Fit
    requires source.Valid() && BoxWidth(c) > 0 && BoxHeight(c) > 0
  {
    var filled := Filled(BoxWidth(c), BoxHeight(c), RegionCells(source, threshold, c));
    FitOf(InCells(filled), BoxWidth(c), BoxHeight(c))
  }

  /** What describes a found component holds of its region, and its box lies in the raster. */
  lemma {:induction false} SurveyDescribes(source: PreparedLayoutSource, threshold: int, n: nat, k: nat)
    requires source.Valid() && n <= |source.data| && k < |Survey(source, threshold, n)|
    ensures var g, c := DarkGraph(source.data, source.width, threshold), Survey(source, threshold, n)[k];
      c.id == k + 1 && Describes(c, Region(g, |source.data|, SeedsBelow(g, n)[k]), source.width)
  {
    var g := DarkGraph(source.data, source.width, threshold);
    if k < |Survey(source, threshold, n - 1)| {
      SurveyDescribes(source, threshold, n - 1, k);
    } else {
      var region := Region(g, |source.data|, n - 1);
      JoinedSelf(g, n - 1);
      DescribeDescribes(source, region, k + 1, n - 1);
    }
  }

  lemma DescribeDescribes(source: PreparedLayoutSource, region: set<int>, id: int, member: int)
    requires source.Valid() && member in region && forall i | i in region :: 0 <= i < |source.data|
    ensures Describes(Describe(source, region, id), region, source.width)
  {
    var column, row := i => Column(source.width, i), i => Row(source.width, i);
    forall i | i in region
      ensures 0 <= column(i) < source.width && 0 <= row(i) < source.height
    {
      CellOfIndex(source.width, source.height, i);
    }
    hide First, Last, Taken;
    TakenBetween(column, region, source.width, member);
    TakenBetween(row, region, source.height, member);
  }

  /** The box of a found component lies in the raster. */
  lemma FoundInside(source: PreparedLayoutSource, threshold: int, k: nat)
    requires source.Valid() && k < |Survey(source, threshold, |source.data|)|
    ensures var c := Survey(source, threshold, |source.data|)[k];
      && 0 <= c.minX <= c.maxX < source.width && 0 <= c.minY <= c.maxY < source.height
  {
    SurveyDescribes(source, threshold, |source.data|, k);
    hide Survey, SeedsBelow, Joined, DarkGraph;
    var g, c := DarkGraph(source.data, source.width, threshold), Survey(source, threshold, |source.data|)[k];
    var region := Region(g, |source.data|, SeedsBelow(g, |source.data|)[k]);
    forall i | i in region
      ensures 0 <= Column(source.width, i) < source.width && 0 <= Row(source.width, i) < source.height
    {
      CellOfIndex(source.width, source.height, i);
    }
  }

  ghost predicate InRaster(source: PreparedLayoutSource, c: Component) {
    0 <= c.minX <= c.maxX < source.width && 0 <= c.minY <= c.maxY < source.height
  }

  /** Every candidate is a found component, whole and in its place. */
  lemma CandidateIsFound(source: PreparedLayoutSource, threshold: int, c: Component)
    requires source.Valid() && c in Candidates(Survey(source, threshold, |source.data|))
    ensures InRaster(source, c)
    ensures var found := Survey(source, threshold, |source.data|);
      1 <= c.id <= |found| && found[c.id - 1] == c
  {
    hide Survey, SeedsBelow, Describes, Plausible;
    var found := Survey(source, threshold, |source.data|);
    var k :| 0 <= k < |found| && found[k] == c;
    FoundInside(source, threshold, k);
    SurveyDescribes(source, threshold, |source.data|, k);
  }

  /** The pixels with the component's label are the pixels of its region. */
  lemma OwnCellsAreRegion(source: PreparedLayoutSource, threshold: int, labels: seq<int>, c: Component)
    requires source.Valid() && Labelled(source, threshold, labels, |source.data|)
    requires InRaster(source, c) && 1 <= c.id <= |Survey(source, threshold, |source.data|)|
    ensures BoxInside(c, labels, source.width)
    ensures OwnCells(c, labels, source.width) == RegionCells(source, threshold, c)
  {
    BoxInsideRaster(source, c, |labels|);
    hide Joined, SeedsBelow, DarkGraph, Labelled, Survey, PixelOf, InRaster;
    assert BoxInside(c, labels, source.width);
    forall x, y | 0 <= x < BoxWidth(c) && 0 <= y < BoxHeight(c)
      ensures Owns(c, labels, source.width, x, y) <==> InRegionOf(source, threshold, c, x, y)
    {
      CellIsOwnIff(source, threshold, labels, c, x, y);
    }
    assert OwnCells(c, labels, source.width) == RegionCells(source, threshold, c);
  }

  /** The cell of the component's box belongs to the component's region. */
  ghost predicate InRegionOf(source: PreparedLayoutSource, threshold: int, c: Component, x: int, y: int)
    requires source.Valid()
  {
    var g := DarkGraph(source.data, source.width, threshold);
    var seeds := SeedsBelow(g, |source.data|);
    1 <= c.id <= |seeds| && Joined(g, seeds[c.id - 1], PixelOf(c, source.width, x, y))
  }

  lemma CellIsOwnIff(source: PreparedLayoutSource, threshold: int, labels: seq<int>, c: Component, x: int, y: int)
    requires source.Valid() && Labelled(source, threshold, labels, |source.data|) && BoxInside(c, labels, source.width)
    requires 1 <= c.id <= |Survey(source, threshold, |source.data|)| && 0 <= x < BoxWidth(c) && 0 <= y < BoxHeight(c)
    ensures Owns(c, labels, source.width, x, y) <==> InRegionOf(source, threshold, c, x, y)
  {
    LabelMarksRegion(source, threshold, labels, c.id);
    BoxIndex(c, labels, source.width, x, y);
    hide Joined, SeedsBelow, DarkGraph, Labelled, Survey, PixelOf, BoxInside;
  }

  lemma LabelMarksRegion(source: PreparedLayoutSource, threshold: int, labels: seq<int>, id: int)
    requires source.Valid() && Labelled(source, threshold, labels, |source.data|)
    requires 1 <= id <= |Survey(source, threshold, |source.data|)|
    ensures var g := DarkGraph(source.data, source.width, threshold);
      forall i | 0 <= i < |labels| :: labels[i] == id <==> Joined(g, SeedsBelow(g, |source.data|)[id - 1], i)
  {
    var g := DarkGraph(source.data, source.width, threshold);
    var seeds := SeedsBelow(g, |source.data|);
    forall i | 0 <= i < |labels|
      ensures labels[i] == id <==> Joined(g, seeds[id - 1], i)
    {
      assert labels[i] == (id - 1) + 1 <==> Joined(g, seeds[id - 1], i);
    }
  }

  lemma BoxInsideRaster(source: PreparedLayoutSource, c: Component, n: int)
    requires source.Valid() && InRaster(source, c) && n == |source.data|
    ensures (c.maxY + 1) * source.width <= n
  {
    CellInRange(source.width, source.height, source.width - 1, c.maxY);
    assert (c.maxY + 1) * source.width == c.maxY * source.width + source.width;
  }

  lemma {:induction false} FitPixelsGrow(source: PreparedLayoutSource, components: seq<Component>, k: nat)
    requires k <= |components| && forall c | c in components :: InRaster(source, c)
    ensures 0 <= FitPixels(components[..k]) <= FitPixels(components)
    decreases |components|
  {
    if k < |components| {
      var front := components[..|components| - 1];
      FitPixelsGrow(source, front, k);
      assert front[..k] == components[..k];
      LastFitPixels(source, components);
    } else if k > 0 {
      assert components[..k] == components;
      var front := components[..k - 1];
      FitPixelsGrow(source, front, k - 1);
      assert front[..k - 1] == front;
      LastFitPixels(source, components);
    }
  }

  lemma LastFitPixels(source: PreparedLayoutSource, components: seq<Component>)
    requires components != [] && forall c | c in components :: InRaster(source, c)
    ensures FitPixels(components) >= FitPixels(components[..|components| - 1])
  {
    var c := components[|components| - 1];
    assert InRaster(source, c);
    hide BoxPixels;
    BoxPixelsPositive(c);
  }

  ghost function SymbolOf(source: PreparedLayoutSource, threshold: int, c: Component, index: nat): ShapeCandidate
    requires source.Valid() && InRaster(source, c)
  {
    CandidateFrom(c, index, RegionFit(source, threshold, c))
  }

  /** The symbols of `components`, numbered in order, each with the fit of its region. */
  ghost function Fitted(source: PreparedLayoutSource, threshold: int, components: seq<Component>): (cs: seq<ShapeCandidate>)
    requires source.Valid() && forall c | c in components :: InRaster(source, c)
    ensures |cs| == |components|
    ensures forall k | 0 <= k < |cs| ::
      InRaster(source, components[k]) && cs[k] == SymbolOf(source, threshold, components[k], k)
  {
    seq(|components|, k requires 0 <= k < |components| => SymbolOf(source, threshold, components[k], k))
  }

  /** Fit the components one after the other, within the budget of fitted pixels. */
  method FitComponents(source: PreparedLayoutSource, threshold: int, labels: array<int>, components: seq<Component>)
    returns (r: Result<seq<ShapeCandidate>, RecognitionError>)
    requires source.Valid() && Labelled(source, threshold, labels[..], |source.data|)
    requires forall c | c in components :: InRaster(source, c) && 1 <= c.id <= |Survey(source, threshold, |source.data|)|
    ensures r == (if FitPixels(components) > MAX_FIT_PIXELS then Err(SourceTooComplex) else Ok(Fitted(source, threshold, components)))
  {
    hide Labelled, RegionFit, FitOf, RegionCells, OwnCells, Survey, CandidateFrom, SilhouetteOf, BoxInside, BoxPixels;
    var fitPixels := 0;
    var shapes := [];
    for index := 0 to |components|
      invariant fitPixels == FitPixels(components[..index]) && fitPixels <= MAX_FIT_PIXELS
      invariant shapes == Fitted(source, threshold, components[..index])
    {
      var component := components[index];
      assert components[..index + 1] == components[..index] + [component];
      assert component in components;
      var w, h := component.maxX - component.minX + 1, component.maxY - component.minY + 1;
      BoxPixelsAre(component);
      fitPixels := fitPixels + (w + 2) * (h + 2);
      if fitPixels > MAX_FIT_PIXELS {
        FitPixelsGrow(source, components, index + 1);
        return Err(SourceTooComplex);
      }
      OwnCellsAreRegion(source, threshold, labels[..], component);
      var fit := FitContour(component, labels, source.width);
      FitIsRegionFit(source, threshold, labels[..], component);
      shapes := shapes + [CandidateFrom(component, index, fit)];
    }
    assert components[..|components|] == components;
    return Ok(shapes);
  }

  /** What extraction yields: every plausible component as a symbol, in raster order, or the reason to refuse. */
  ghost function Extracted(source: PreparedLayoutSource, threshold: int): Result<seq<ShapeCandidate>, RecognitionError>
    requires source.Valid()
  {
    match LabelOutcome(source, threshold)
    case Err(e) => Err(e)
    case Ok(components) =>
      ComponentsAreInside(source, threshold, components);
      if FitPixels(components) > MAX_FIT_PIXELS then Err(SourceTooComplex) else Ok(Fitted(source, threshold, components))
  }

  lemma ComponentsAreInside(source: PreparedLayoutSource, threshold: int, components: seq<Component>)
    requires source.Valid() && LabelOutcome(source, threshold) == Ok(components)
    ensures forall c | c in components :: InRaster(source, c)
  {
    hide LabelOutcome;
    ComponentsAreFound(source, threshold, components);
  }

  /** Extract the symbols of a raster: each plausible component with the fit of its own silhouette, or the reason to refuse. */
  method ExtractShapes(source: PreparedLayoutSource, threshold: int) returns (r: Result<seq<ShapeCandidate>, RecognitionError>)
    requires source.Valid()
    ensures r == Extracted(source, threshold)
  {
    hide Labelled, LabelOutcome, Survey, Fitted;
    var labels := new int[|source.data|](_ => 0);
    var queue := new int[|source.data|](_ => 0);
    var outcome := LabelComponents(source, threshold, labels, queue);
    if outcome.Err? {
      return Err(outcome.error);
    }
    ComponentsAreFound(source, threshold, outcome.value);
    r := FitComponents(source, threshold, labels, outcome.value);
  }

  lemma ComponentsAreFound(source: PreparedLayoutSource, threshold: int, components: seq<Component>)
    requires source.Valid() && LabelOutcome(source, threshold) == Ok(components)
    ensures forall c | c in components :: InRaster(source, c) && 1 <= c.id <= |Survey(source, threshold, |source.data|)|
  {
    forall c | c in components
      ensures InRaster(source, c) && 1 <= c.id <= |Survey(source, threshold, |source.data|)|
    {
      CandidateIsFound(source, threshold, c);
    }
  }

  lemma FitIsRegionFit(source: PreparedLayoutSource, threshold: int, labels: seq<int>, c: Component)
    requires source.Valid() && InRaster(source, c)
    requires OwnCells(c, labels, source.width) == RegionCells(source, threshold, c)
    ensures FitOf(SilhouetteOf(c, labels, source.width), BoxWidth(c), BoxHeight(c)) == RegionFit(source, threshold, c)
  {
    hide FitOf;
  }

  /** What every extracted symbol guarantees to the interpreter. */
  ghost predicate SoundShapes(source: PreparedLayoutSource, cs: seq<ShapeCandidate>) {
    && (forall j, k | 0 <= j < k < |cs| :: cs[j].id != cs[k].id)
    && (forall k | 0 <= k < |cs| ::
      && cs[k].width >= 6.0 && cs[k].height >= 6.0 && 0.0 <= cs[k].quality <= 1.0
      && 0.0 <= cs[k].x - cs[k].width / 2.0 && cs[k].x + cs[k].width / 2.0 <= source.width as real
      && 0.0 <= cs[k].y - cs[k].height / 2.0 && cs[k].y + cs[k].height / 2.0 <= source.height as real)
  }

  lemma ExtractedShapesAreSound(source: PreparedLayoutSource, threshold: int, components: seq<Component>)
    requires source.Valid() && LabelOutcome(source, threshold) == Ok(components)
    requires forall c | c in components :: InRaster(source, c)
    ensures SoundShapes(source, Fitted(source, threshold, components))
  {
    hide Fitted, RegionFit, LabelOutcome;
    var cs := Fitted(source, threshold, components);
    forall j, k | 0 <= j < k < |cs|
      ensures cs[j].id != cs[k].id
    {
      if cs[j].id == cs[k].id {
        Decimal.NumberedNamesDiffer("detected-", j + 1, k + 1);
      }
    }
    forall k | 0 <= k < |cs|
      ensures
        && cs[k].width >= 6.0 && cs[k].height >= 6.0 && 0.0 <= cs[k].quality <= 1.0
        && 0.0 <= cs[k].x - cs[k].width / 2.0 && cs[k].x + cs[k].width / 2.0 <= source.width as real
        && 0.0 <= cs[k].y - cs[k].height / 2.0 && cs[k].y + cs[k].height / 2.0 <= source.height as real
    {
      PlausibleComponent(source, threshold, components, k);
      RegionQuality(source, threshold, components[k]);
    }
  }

  lemma PlausibleComponent(source: PreparedLayoutSource, threshold: int, components: seq<Component>, k: nat)
    requires source.Valid() && LabelOutcome(source, threshold) == Ok(components) && k < |components|
    ensures Plausible(components[k])
  {
    assert components[k] in Candidates(Survey(source, threshold, |source.data|));
  }

  lemma RegionQuality(source: PreparedLayoutSource, threshold: int, c: Component)
    requires source.Valid() && BoxWidth(c) > 0 && BoxHeight(c) > 0
    ensures 0.0 <= RegionFit(source, threshold, c).quality <= 1.0
  {
    var filled := Filled(BoxWidth(c), BoxHeight(c), RegionCells(source, threshold, c));
    FitInUnit(InCells(filled), BoxWidth(c), BoxHeight(c));
  }
}
