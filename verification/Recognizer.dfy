/** GeometryLayoutRecognizer.analyze: threshold, extraction and interpretation in one. */
module Recognizer {
  import opened Results
  import opened Numbers
  import opened Raster
  import opened Components
  import opened Extraction
  import opened Interpreter
  import opened Elements
  import opened ElementProperties
  import opened InterpretationProperties
  import opened SymbolPlacement
  import opened Sequences
  import Otsu

  datatype Recognition = Recognition(elements: seq<Element>, warnings: seq<Warning>, threshold: Option<int>)

  function BoxArea(g: Geometry): real { g.width * g.height }

  /** A seat or other element under its parent: sections hold anything smaller, tables hold seats. */
  ghost predicate ProperChild(child: Element, parent: Element) {
    && BoxArea(parent.geometry) > BoxArea(child.geometry)
    && (parent.kind == SECTION || (parent.kind == TABLE && child.kind == SEAT))
  }

  /** What a caller can rely on without knowing the raster. */
  ghost predicate SoundElements(es: seq<Element>) {
    && (forall j, k | 0 <= j < k < |es| :: es[j].id != es[k].id)
    && (forall k | 0 <= k < |es| :: InUnitSquare(es[k].geometry))
    && (forall j | 0 <= j < |es| && es[j].parent.Some? ::
      exists k :: 0 <= k < |es| && es[k].id == es[j].parent.value && ProperChild(es[j], es[k]))
    && (forall k | 0 <= k < |es| ::
      es[k].seatCount == if es[k].kind == TABLE then Some(|SeatsOf(Interpretation(es, []), es[k].id, |es|)|) else None)
  }

  lemma NormalizedArea(c: Symbol, width: int, height: int, s: real)
    requires width > 0 && height > 0 && s == width as real * height as real
    ensures BoxArea(Normalized(c, width, height)) * s == Area(c)
  {
    var w, h := width as real, height as real;
    var x, y := c.width / w, c.height / h;
    assert x * w == c.width && y * h == c.height;
    Regrouped(x, y, w, h);
  }

  lemma LargerNormalized(a: Symbol, b: Symbol, width: int, height: int)
    requires width > 0 && height > 0 && Area(a) > Area(b)
    ensures BoxArea(Normalized(a, width, height)) > BoxArea(Normalized(b, width, height))
  {
    hide *;
    var s := PixelArea(width, height);
    NormalizedArea(a, width, height, s);
    NormalizedArea(b, width, height, s);
    CancelFactor(BoxArea(Normalized(a, width, height)), BoxArea(Normalized(b, width, height)), s, Area(a), Area(b));
  }

  lemma PixelArea(width: int, height: int) returns (s: real)
    requires width > 0 && height > 0
    ensures s == width as real * height as real && s > 0.0
  {
    s := width as real * height as real;
  }

  lemma CancelFactor(a: real, b: real, s: real, p: real, q: real)
    requires s > 0.0 && a * s == p && b * s == q && p > q
    ensures a > b
  {
    assert (a - b) * s > 0.0;
  }

  lemma InterpretationIsSound(hypot: Hypot, source: PreparedLayoutSource, candidates: seq<Symbol>, r: Interpretation)
    requires source.Valid() && SoundShapes(source, candidates)
    requires Interprets(hypot, candidates, source.width, source.height, r)
    ensures SoundElements(r.elements)
  {
    var es := r.elements;
    ElementsInUnitSquare(hypot, source, candidates, r);
    ElementIds(hypot, candidates, source.width, source.height, r);
    ShapeIds(source, candidates);
    hide Interprets, SoundShapes, ProperChild, InUnitSquare, SeatsOf, Normalized;
    forall j | 0 <= j < |es| && es[j].parent.Some?
      ensures exists k :: 0 <= k < |es| && es[k].id == es[j].parent.value && ProperChild(es[j], es[k])
    {
      var k := ParentElement(hypot, source, candidates, r, j);
    }
    forall k | 0 <= k < |es|
      ensures es[k].seatCount == if es[k].kind == TABLE then Some(|SeatsOf(Interpretation(es, []), es[k].id, |es|)|) else None
    {
      SeatCountIsExact(hypot, candidates, source.width, source.height, r, k);
      SeatsDependOnElements(r, es[k].id);
    }
  }

  lemma SeatsDependOnElements(r: Interpretation, id: string)
    ensures SeatsOf(Interpretation(r.elements, []), id, |r.elements|) == SeatsOf(r, id, |r.elements|)
  {
  }

  lemma ShapeIds(source: PreparedLayoutSource, candidates: seq<Symbol>)
    requires SoundShapes(source, candidates)
    ensures DistinctIds(candidates)
  {
  }

  lemma ElementIds(hypot: Hypot, candidates: seq<Symbol>, width: int, height: int, r: Interpretation)
    requires width > 0 && height > 0 && Interprets(hypot, candidates, width, height, r)
    ensures |r.elements| == |candidates|
    ensures forall k | 0 <= k < |candidates| ::
      r.elements[k].id == candidates[k].id && r.elements[k].geometry == Normalized(candidates[k], width, height)
  {
    hide ElementOf, Classify, LinkedSeats, Normalized;
  }

  lemma ParentElement(hypot: Hypot, source: PreparedLayoutSource, candidates: seq<Symbol>, r: Interpretation, j: int) returns (k: int)
    requires source.Valid() && SoundShapes(source, candidates)
    requires Interprets(hypot, candidates, source.width, source.height, r)
    requires 0 <= j < |candidates| && r.elements[j].parent.Some?
    ensures 0 <= k < |candidates| && r.elements[k].id == r.elements[j].parent.value
    ensures ProperChild(r.elements[j], r.elements[k])
  {
    ElementIds(hypot, candidates, source.width, source.height, r);
    ShapeIds(source, candidates);
    ParentExists(hypot, candidates, source.width, source.height, r, j);
    hide Interprets, SoundShapes, DistinctIds, Area, Normalized, BoxArea;
    k :| IsParent(candidates, r, j, k) && ProperParent(r, candidates, j, k);
    ParentIsLarger(hypot, candidates, source.width, source.height, r, j, k);
    LargerNormalized(candidates[k], candidates[j], source.width, source.height);
  }

  lemma ShapesAreSymbols(source: PreparedLayoutSource, shapes: seq<ShapeCandidate>)
    requires SoundShapes(source, shapes)
    ensures forall c | c in shapes :: c.width > 0.0 && c.height > 0.0
  {
  }

  // ---------------------------------------------------------------- elements in the raster

  /** The symbol of an element, scaled back to pixels; round seats are called circles. */
  function InPixels(e: Element, width: int, height: int): ShapeCandidate {
    var g, w, h := e.geometry, width as real, height as real;
    ShapeCandidate(e.id, g.x * w, g.y * h, g.width * w, g.height * h, if e.shape == Some(Circle) then Some(Round) else e.shape,
                   e.confidence.geometry)
  }

  /** The elements of a recognised plan as symbols of the raster. */
  function SymbolsOf(source: PreparedLayoutSource, elements: seq<Element>): seq<ShapeCandidate> {
    MapSeq(elements, e => InPixels(e, source.width, source.height))
  }

  lemma GeometryInPixels(e: Element, c: Symbol, width: int, height: int)
    requires width > 0 && height > 0 && e.geometry == Normalized(c, width, height)
    requires e.id == c.id && e.confidence.geometry == c.quality && c.shape == if e.shape == Some(Circle) then Some(Round) else e.shape
    ensures InPixels(e, width, height) == c
  {
  }

  lemma ElementInPixels(hypot: Hypot, plan: Plan, c: Symbol, width: int, height: int)
    requires width > 0 && height > 0 && c.shape != Some(Circle)
    ensures InPixels(ElementOf(hypot, plan, c, width, height), width, height) == c
  {
    hide *;
    ElementOfSays(hypot, plan, c, width, height);
    GeometryInPixels(ElementOf(hypot, plan, c, width, height), c, width, height);
  }

  lemma SameInPixels(e: Element, f: Element, width: int, height: int)
    requires f == e.(seatCount := f.seatCount)
    ensures InPixels(e, width, height) == InPixels(f, width, height)
  {
  }

  lemma InterpretedInPixels(hypot: Hypot, candidates: seq<Symbol>, width: int, height: int, r: Interpretation, k: int)
    requires width > 0 && height > 0 && Interprets(hypot, candidates, width, height, r)
    requires 0 <= k < |candidates| && candidates[k].shape != Some(Circle)
    ensures |r.elements| == |candidates| && InPixels(r.elements[k], width, height) == candidates[k]
  {
    hide *;
    var plan := Classify(hypot, candidates, width, height);
    InterpretedElement(hypot, candidates, width, height, r, k);
    ElementInPixels(hypot, plan, candidates[k], width, height);
    SameInPixels(ElementOf(hypot, plan, candidates[k], width, height), r.elements[k], width, height);
  }

  /**
   Scaled to pixels, the elements are the pictures of the connected dark regions that are worth a symbol: none is missing,
   each box is tight around its region and each shape is the one that its silhouette fits.
   */
  lemma ElementsDepictComponents(hypot: Hypot, source: PreparedLayoutSource, threshold: int, r: Interpretation) returns (regions: seq<set<int>>)
    requires source.Valid() && Extracted(source, threshold).Ok?
    requires forall c | c in Extracted(source, threshold).value :: c.width > 0.0 && c.height > 0.0
    requires Interprets(hypot, Extracted(source, threshold).value, source.width, source.height, r)
    ensures DepictsAll(source, threshold, SymbolsOf(source, r.elements), regions)
  {
    hide *;
    regions := SymbolsDepictComponents(source, threshold);
    SymbolsAreNoCircles(source, threshold);
    AllInPixels(hypot, Extracted(source, threshold).value, source, r);
  }

  lemma AllInPixels(hypot: Hypot, candidates: seq<Symbol>, source: PreparedLayoutSource, r: Interpretation)
    requires source.Valid() && Interprets(hypot, candidates, source.width, source.height, r)
    requires forall c | c in candidates :: c.shape != Some(Circle)
    ensures SymbolsOf(source, r.elements) == candidates
  {
    hide Interprets, InPixels;
    ElementIds(hypot, candidates, source.width, source.height, r);
    forall k | 0 <= k < |candidates|
      ensures InPixels(r.elements[k], source.width, source.height) == candidates[k]
    {
      InterpretedInPixels(hypot, candidates, source.width, source.height, r, k);
    }
  }

  /** What the threshold's outcome calls for: its error, or the interpretation of the symbols it separates. */
  ghost predicate Recognizes(hypot: Hypot, source: PreparedLayoutSource, thresholded: Result<Option<int>, RecognitionError>,
                             r: Result<Recognition, RecognitionError>)
    requires source.Valid()
  {
    match thresholded
    case Err(e) => r == Err(e)
    case Ok(threshold) =>
      match (if threshold.None? then Ok([]) else Extracted(source, threshold.value))
      case Err(e) => r == Err(e)
      case Ok(shapes) =>
        if |shapes| * |shapes| > 2_000_000 then r == Err(SourceTooComplex)
        else
          && r.Ok? && r.value.threshold == threshold && (forall c | c in shapes :: c.width > 0.0 && c.height > 0.0)
          && var symbols: seq<Symbol> := shapes;
          Interprets(hypot, symbols, source.width, source.height, Interpretation(r.value.elements, r.value.warnings))
  }

  /** Analyse a raster: refuse it, or return sound elements, the interpretation of its symbols at the best threshold. */
  method Analyze(hypot: Hypot, source: PreparedLayoutSource) returns (r: Result<Recognition, RecognitionError>)
    ensures !source.Valid() <==> r == Err(InvalidRaster)
    ensures source.Valid() ==> exists minimum, maximum, thresholded :: (
      && Otsu.IsRange(source.data, minimum, maximum) && Otsu.ThresholdOutcome(source.data, minimum, maximum, thresholded)
      && Recognizes(hypot, source, thresholded, r))
    ensures r.Ok? ==> SoundElements(r.value.elements)
    ensures r.Ok? && r.value.threshold.Some? ==>
      exists regions :: DepictsAll(source, r.value.threshold.value, SymbolsOf(source, r.value.elements), regions)
  {
    hide SoundElements, DepictsAll, SoundShapes, LabelOutcome, Fitted, Extracted, Interprets, Otsu.ThresholdOutcome, Otsu.IsRange;
    var thresholded := Otsu.BinaryThreshold(source);
    if thresholded.Err? {
      return Err(thresholded.error);
    }
    var symbols: seq<Symbol> := [];
    NoShapesAreSound(source);
    if thresholded.value.Some? {
      var extracted := ExtractShapes(source, thresholded.value.value);
      if extracted.Err? {
        LabelErrors(source, thresholded.value.value);
        return Err(extracted.error);
      }
      ExtractedAreSound(source, thresholded.value.value);
      ShapesAreSymbols(source, extracted.value);
      symbols := extracted.value;
    }
    var interpreted := InterpretShapes(hypot, symbols, source.width, source.height);
    if interpreted.Err? {
      return Err(interpreted.error);
    }
    InterpretationIsSound(hypot, source, symbols, interpreted.value);
    ElementIds(hypot, symbols, source.width, source.height, interpreted.value);
    if thresholded.value.Some? {
      ghost var regions := ElementsDepictComponents(hypot, source, thresholded.value.value, interpreted.value);
    }
    return Ok(Recognition(interpreted.value.elements, interpreted.value.warnings, thresholded.value));
  }

  lemma NoShapesAreSound(source: PreparedLayoutSource)
    ensures SoundShapes(source, [])
  {
  }

  lemma ExtractedAreSound(source: PreparedLayoutSource, threshold: int)
    requires source.Valid() && Extracted(source, threshold).Ok?
    ensures SoundShapes(source, Extracted(source, threshold).value)
  {
    hide LabelOutcome, Fitted, SoundShapes;
    ExtractedShapesAreSound(source, threshold, LabelOutcome(source, threshold).value);
  }

  lemma LabelErrors(source: PreparedLayoutSource, threshold: int)
    requires source.Valid()
    ensures Extracted(source, threshold) != Err(InvalidRaster)
  {
  }
}
