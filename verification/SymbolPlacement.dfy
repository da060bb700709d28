/** Where the extracted symbols are: each is the box of a connected region of dark pixels, and no region worth a symbol is missed. */
module SymbolPlacement {
  import opened Results
  import opened Reachability
  import opened Raster
  import opened FloodQueue
  import opened Labelling
  import opened Components
  import opened Silhouette
  import opened ShapeFit
  import opened FitProperties
  import opened ContourFitting
  import opened Extraction

  /** A dark pixel with all pixels that dark, pairwise adjacent pixels join to it. */
  ghost predicate IsComponent(source: PreparedLayoutSource, threshold: int, region: set<int>)
    requires source.Valid()
  {
    exists seed :: seed in region && IsDark(source.data, threshold, seed)
      && forall i :: i in region <==> Joined(DarkGraph(source.data, source.width, threshold), seed, i)
  }

  /** Every pixel of the region lies in these columns and rows, and each of the four limits is met. */
  ghost predicate Spans(source: PreparedLayoutSource, region: set<int>, left: int, top: int, right: int, bottom: int)
    requires source.Valid()
  {
    && (forall i | i in region :: left <= Column(source.width, i) <= right && top <= Row(source.width, i) <= bottom)
    && (exists i :: i in region && Column(source.width, i) == left)
    && (exists i :: i in region && Column(source.width, i) == right)
    && (exists i :: i in region && Row(source.width, i) == top)
    && (exists i :: i in region && Row(source.width, i) == bottom)
  }

  /** At least six pixels wide and high, at least twelve in all, and no side more than twenty times the other. */
  predicate WorthASymbol(width: int, height: int, size: int) {
    width >= 6 && height >= 6 && size >= 12 && width <= 20 * height && height <= 20 * width
  }

  ghost predicate Qualifies(source: PreparedLayoutSource, region: set<int>)
    requires source.Valid()
  {
    exists left, top, right, bottom ::
      Spans(source, region, left, top, right, bottom) && WorthASymbol(right - left + 1, bottom - top + 1, |region|)
  }

  /** The cells of a box of the raster whose pixels belong to the region. */
  ghost function CellsOf(source: PreparedLayoutSource, region: set<int>, left: int, top: int, width: int, height: int): set<Cell> {
    set x, y | 0 <= x < width && 0 <= y < height && (top + y) * source.width + (left + x) in region :: (x, y)
  }

  /** The pixel lies wholly inside the symbol's box. */
  predicate Frames(source: PreparedLayoutSource, c: ShapeCandidate, i: int)
    requires source.Valid()
  {
    && c.x - c.width / 2.0 <= Column(source.width, i) as real && Column(source.width, i) as real + 1.0 <= c.x + c.width / 2.0
    && c.y - c.height / 2.0 <= Row(source.width, i) as real && Row(source.width, i) as real + 1.0 <= c.y + c.height / 2.0
  }

  /** Each side of the symbol's box is the outer edge of some pixel of the region. */
  ghost predicate Touches(source: PreparedLayoutSource, c: ShapeCandidate, region: set<int>)
    requires source.Valid()
  {
    && (exists i :: i in region && Column(source.width, i) as real == c.x - c.width / 2.0)
    && (exists i :: i in region && Column(source.width, i) as real + 1.0 == c.x + c.width / 2.0)
    && (exists i :: i in region && Row(source.width, i) as real == c.y - c.height / 2.0)
    && (exists i :: i in region && Row(source.width, i) as real + 1.0 == c.y + c.height / 2.0)
  }

  /** The symbol has the fit of the region with its enclosed holes filled. */
  ghost predicate Fits(source: PreparedLayoutSource, c: ShapeCandidate, region: set<int>)
    requires source.Valid()
  {
    exists left, top, width: nat, height: nat ::
      && left as real == c.x - c.width / 2.0 && top as real == c.y - c.height / 2.0
      && width as real == c.width && height as real == c.height && width > 0 && height > 0
      && Fit(c.shape, c.quality) == FitOf(InCells(Filled(width, height, CellsOf(source, region, left, top, width, height))), width, height)
  }

  /** The symbol is the picture of the region. */
  ghost predicate Depicts(source: PreparedLayoutSource, c: ShapeCandidate, region: set<int>)
    requires source.Valid()
  {
    (forall i | i in region :: Frames(source, c, i)) && Touches(source, c, region) && Fits(source, c, region)
  }

  // ---------------------------------------------------------------- one symbol

  lemma BoxOfSymbol(source: PreparedLayoutSource, threshold: int, c: Component, index: nat, region: set<int>)
    requires source.Valid() && InRaster(source, c) && Describes(c, region, source.width)
    ensures var s := SymbolOf(source, threshold, c, index);
      (forall i | i in region :: Frames(source, s, i)) && Touches(source, s, region)
  {
    hide RegionFit;
  }

  lemma FitOfSymbol(source: PreparedLayoutSource, threshold: int, c: Component, index: nat, region: set<int>)
    requires source.Valid() && InRaster(source, c)
    requires forall x, y | 0 <= x < BoxWidth(c) && 0 <= y < BoxHeight(c) ::
      InRegionOf(source, threshold, c, x, y) <==> PixelOf(c, source.width, x, y) in region
    ensures Fits(source, SymbolOf(source, threshold, c, index), region)
  {
    hide InRegionOf, FitOf, Filled;
    var s, w, h := SymbolOf(source, threshold, c, index), BoxWidth(c), BoxHeight(c);
    assert RegionCells(source, threshold, c) == CellsOf(source, region, c.minX, c.minY, w, h);
    assert c.minX as real == s.x - s.width / 2.0 && c.minY as real == s.y - s.height / 2.0;
  }

  /** The region that a found component was measured on. */
  ghost function RegionOf(source: PreparedLayoutSource, threshold: int, c: Component): set<int>
    requires source.Valid()
  {
    var g := DarkGraph(source.data, source.width, threshold);
    var seeds := SeedsBelow(g, |source.data|);
    if 1 <= c.id <= |seeds| then Region(g, |source.data|, seeds[c.id - 1]) else {}
  }

  lemma RegionOfIs(source: PreparedLayoutSource, threshold: int, k: nat)
    requires source.Valid() && k < |Survey(source, threshold, |source.data|)|
    ensures var g, c := DarkGraph(source.data, source.width, threshold), Survey(source, threshold, |source.data|)[k];
      && c.id == k + 1 && k < |SeedsBelow(g, |source.data|)|
      && RegionOf(source, threshold, c) == Region(g, |source.data|, SeedsBelow(g, |source.data|)[k])
      && Describes(c, RegionOf(source, threshold, c), source.width)
  {
    hide *;
    SurveyLength(source, threshold);
    SurveyDescribes(source, threshold, |source.data|, k);
    RegionOfNumber(source, threshold, Survey(source, threshold, |source.data|)[k], k);
  }

  lemma RegionOfNumber(source: PreparedLayoutSource, threshold: int, c: Component, k: nat)
    requires source.Valid() && c.id == k + 1 && k < |SeedsBelow(DarkGraph(source.data, source.width, threshold), |source.data|)|
    ensures var g := DarkGraph(source.data, source.width, threshold);
      RegionOf(source, threshold, c) == Region(g, |source.data|, SeedsBelow(g, |source.data|)[k])
  {
    hide SeedsBelow, Region, DarkGraph;
  }

  lemma SurveyLength(source: PreparedLayoutSource, threshold: int)
    requires source.Valid()
    ensures |Survey(source, threshold, |source.data|)| == |SeedsBelow(DarkGraph(source.data, source.width, threshold), |source.data|)|
  {
    hide SeedsBelow;
  }

  /** Every pixel joined to a dark one is a pixel of the raster. */
  lemma RegionIsComponent(source: PreparedLayoutSource, threshold: int, seed: int)
    requires source.Valid() && IsDark(source.data, threshold, seed)
    ensures IsComponent(source, threshold, Region(DarkGraph(source.data, source.width, threshold), |source.data|, seed))
  {
    var g := DarkGraph(source.data, source.width, threshold);
    JoinedSelf(g, seed);
    forall i
      ensures i in Region(g, |source.data|, seed) <==> Joined(g, seed, i)
    {
      if Joined(g, seed, i) {
        JoinedOpen(g, seed, i);
      }
    }
  }

  lemma CandidateDepicts(source: PreparedLayoutSource, threshold: int, c: Component, index: nat)
    requires source.Valid() && c in Candidates(Survey(source, threshold, |source.data|)) && InRaster(source, c)
    ensures var region := RegionOf(source, threshold, c);
      && IsComponent(source, threshold, region) && Qualifies(source, region)
      && Depicts(source, SymbolOf(source, threshold, c, index), region)
  {
    hide Survey, RegionOf, IsComponent, Qualifies, Frames, Touches, Fits, Plausible, SymbolOf, Describes, InRaster, InRegionOf, Candidates;
    var region := RegionOf(source, threshold, c);
    CandidateRegion(source, threshold, c);
    DescribedQualifies(source, c, region);
    CellsOfRegion(source, threshold, c, region);
    BoxOfSymbol(source, threshold, c, index, region);
    FitOfSymbol(source, threshold, c, index, region);
  }

  lemma CandidateRegion(source: PreparedLayoutSource, threshold: int, c: Component)
    requires source.Valid() && c in Candidates(Survey(source, threshold, |source.data|))
    ensures IsComponent(source, threshold, RegionOf(source, threshold, c)) && Plausible(c)
    ensures Describes(c, RegionOf(source, threshold, c), source.width)
  {
    hide *;
    CandidateIsFound(source, threshold, c);
    FoundRegion(source, threshold, c.id - 1);
  }

  lemma FoundRegion(source: PreparedLayoutSource, threshold: int, k: nat)
    requires source.Valid() && k < |Survey(source, threshold, |source.data|)|
    ensures var c := Survey(source, threshold, |source.data|)[k];
      IsComponent(source, threshold, RegionOf(source, threshold, c)) && Describes(c, RegionOf(source, threshold, c), source.width)
  {
    RegionOfIs(source, threshold, k);
    SeedIsDark(source, threshold, k);
    hide Survey, SeedsBelow, Joined, RegionOf, Describes, IsComponent, DarkGraph, Region;
    RegionIsComponent(source, threshold, SeedsBelow(DarkGraph(source.data, source.width, threshold), |source.data|)[k]);
  }

  lemma SeedIsDark(source: PreparedLayoutSource, threshold: int, k: nat)
    requires source.Valid() && k < |SeedsBelow(DarkGraph(source.data, source.width, threshold), |source.data|)|
    ensures IsDark(source.data, threshold, SeedsBelow(DarkGraph(source.data, source.width, threshold), |source.data|)[k])
  {
    hide SeedsBelow, Joined;
  }

  lemma DescribedQualifies(source: PreparedLayoutSource, c: Component, region: set<int>)
    requires source.Valid() && Describes(c, region, source.width)
    ensures Spans(source, region, c.minX, c.minY, c.maxX, c.maxY)
    ensures Qualifies(source, region) <==> Plausible(c)
  {
    forall left, top, right, bottom | Spans(source, region, left, top, right, bottom)
      ensures left == c.minX && top == c.minY && right == c.maxX && bottom == c.maxY
    {
    }
    assert Spans(source, region, c.minX, c.minY, c.maxX, c.maxY);
    hide Spans;
  }

  lemma CellsOfRegion(source: PreparedLayoutSource, threshold: int, c: Component, region: set<int>)
    requires source.Valid() && InRaster(source, c) && region == RegionOf(source, threshold, c)
    ensures forall x, y | 0 <= x < BoxWidth(c) && 0 <= y < BoxHeight(c) ::
      InRegionOf(source, threshold, c, x, y) <==> PixelOf(c, source.width, x, y) in region
  {
    hide SeedsBelow, Joined, DarkGraph;
    forall x, y | 0 <= x < BoxWidth(c) && 0 <= y < BoxHeight(c)
      ensures 0 <= PixelOf(c, source.width, x, y) < |source.data|
    {
      CellInRange(source.width, source.height, x + c.minX, y + c.minY);
    }
    hide PixelOf;
  }

  // ---------------------------------------------------------------- all symbols

  lemma {:induction false} SeedsIncrease(g: Graph<int>, k: nat)
    ensures forall i, j | 0 <= i < j < |SeedsBelow(g, k)| :: SeedsBelow(g, k)[i] < SeedsBelow(g, k)[j]
    ensures forall s | 0 <= s < k && IsSeed(g, s) :: s in SeedsBelow(g, k)
  {
    if k > 0 {
      SeedsIncrease(g, k - 1);
      hide IsSeed;
    }
  }

  lemma {:induction false} CandidatesIncrease(found: seq<Component>)
    requires forall k | 0 <= k < |found| :: found[k].id == k + 1
    ensures forall i, j | 0 <= i < j < |Candidates(found)| :: Candidates(found)[i].id < Candidates(found)[j].id
    ensures forall c | c in found && Plausible(c) :: c in Candidates(found)
  {
    if found != [] {
      var last := |found| - 1;
      CandidatesIncrease(found[..last]);
      hide Plausible;
      forall c | c in Candidates(found[..last])
        ensures c.id < found[last].id
      {
        var k :| 0 <= k < last && found[k] == c;
      }
    }
  }

  /** Some pixel of the first region comes before all pixels of the second. */
  ghost predicate StartsBefore(a: set<int>, b: set<int>) {
    exists i :: i in a && forall j | j in b :: i < j
  }

  lemma SeedStarts(g: Graph<int>, n: nat, first: int, second: int)
    requires 0 <= first < n && first < second && IsSeed(g, first) && IsSeed(g, second)
    ensures StartsBefore(Region(g, n, first), Region(g, n, second))
  {
    hide Joined;
    JoinedSelf(g, first);
    assert first in Region(g, n, first);
  }

  lemma SeedAt(g: Graph<int>, n: nat, k: nat)
    requires k < |SeedsBelow(g, n)|
    ensures 0 <= SeedsBelow(g, n)[k] < n && IsSeed(g, SeedsBelow(g, n)[k])
  {
    hide IsSeed;
  }

  lemma RegionsInOrder(source: PreparedLayoutSource, threshold: int, j: nat, k: nat)
    requires source.Valid() && j < k < |Survey(source, threshold, |source.data|)|
    ensures var found := Survey(source, threshold, |source.data|);
      StartsBefore(RegionOf(source, threshold, found[j]), RegionOf(source, threshold, found[k]))
  {
    var g, n := DarkGraph(source.data, source.width, threshold), |source.data|;
    hide *;
    RegionOfIs(source, threshold, j);
    RegionOfIs(source, threshold, k);
    SeedsIncrease(g, n);
    SeedAt(g, n, j);
    SeedAt(g, n, k);
    SeedStarts(g, n, SeedsBelow(g, n)[j], SeedsBelow(g, n)[k]);
  }

  lemma SeedIsListed(g: Graph<int>, n: nat, s: int) returns (k: nat)
    requires 0 <= s < n && IsSeed(g, s)
    ensures k < |SeedsBelow(g, n)| && SeedsBelow(g, n)[k] == s
  {
    hide *;
    SeedsIncrease(g, n);
    k :| 0 <= k < |SeedsBelow(g, n)| && SeedsBelow(g, n)[k] == s;
  }

  lemma RegionFrom(g: Graph<int>, n: nat, seed: int, s: int, region: set<int>)
    requires Symmetric(g) && Joined(g, s, seed) && (forall i | g.open(i) :: 0 <= i < n)
    requires forall i :: i in region <==> Joined(g, seed, i)
    ensures Region(g, n, s) == region
  {
    hide Joined;
    forall i
      ensures i in region <==> i in Region(g, n, s)
    {
      SameComponent(g, seed, s, i);
      if Joined(g, s, i) {
        JoinedOpen(g, s, i);
      }
    }
  }

  /** A component is the region of a found one. */
  lemma ComponentIsFound(source: PreparedLayoutSource, threshold: int, region: set<int>) returns (k: nat)
    requires source.Valid() && IsComponent(source, threshold, region)
    ensures k < |Survey(source, threshold, |source.data|)|
    ensures RegionOf(source, threshold, Survey(source, threshold, |source.data|)[k]) == region
  {
    var g, n := DarkGraph(source.data, source.width, threshold), |source.data|;
    var seed :| seed in region && IsDark(source.data, threshold, seed) && forall i :: i in region <==> Joined(g, seed, i);
    DarkIsOpen(source, threshold, seed);
    hide *;
    var s := HasSeed(g, seed);
    k := SeedIsListed(g, n, s);
    SurveyLength(source, threshold);
    RegionOfIs(source, threshold, k);
    RegionFrom(g, n, seed, s, region);
  }

  lemma DarkIsOpen(source: PreparedLayoutSource, threshold: int, seed: int)
    requires source.Valid() && IsDark(source.data, threshold, seed)
    ensures var g := DarkGraph(source.data, source.width, threshold);
      && Symmetric(g) && 0 <= seed < |source.data| && g.open(seed) && forall i | g.open(i) :: 0 <= i < |source.data|
  {
  }

  lemma SameComponent(g: Graph<int>, a: int, b: int, i: int)
    requires Symmetric(g) && Joined(g, b, a)
    ensures Joined(g, a, i) <==> Joined(g, b, i)
  {
    hide Joined;
    JoinedSymmetric(g, b, a);
    if Joined(g, a, i) {
      JoinedTransitive(g, b, a, i);
    }
    if Joined(g, b, i) {
      JoinedTransitive(g, a, b, i);
    }
  }

  /** The regions that the symbols depict, one each, in raster order, none missing. */
  ghost predicate DepictsAll(source: PreparedLayoutSource, threshold: int, cs: seq<ShapeCandidate>, regions: seq<set<int>>)
    requires source.Valid()
  {
    && |regions| == |cs|
    && (forall k | 0 <= k < |cs| ::
      IsComponent(source, threshold, regions[k]) && Qualifies(source, regions[k]) && Depicts(source, cs[k], regions[k]))
    && (forall j, k | 0 <= j < k < |cs| :: StartsBefore(regions[j], regions[k]))
    && (forall region: set<int> | IsComponent(source, threshold, region) && Qualifies(source, region) :: region in regions)
  }

  /** The regions of the components. */
  ghost function RegionsOf(source: PreparedLayoutSource, threshold: int, components: seq<Component>): (regions: seq<set<int>>)
    requires source.Valid()
    ensures |regions| == |components|
    ensures forall k | 0 <= k < |components| :: regions[k] == RegionOf(source, threshold, components[k])
  {
    seq(|components|, k requires 0 <= k < |components| => RegionOf(source, threshold, components[k]))
  }

  /** Candidates come in the order of their regions. */
  lemma CandidatesInOrder(source: PreparedLayoutSource, threshold: int, a: Component, b: Component)
    requires source.Valid() && a.id < b.id
    requires var found := Survey(source, threshold, |source.data|); a in Candidates(found) && b in Candidates(found)
    ensures StartsBefore(RegionOf(source, threshold, a), RegionOf(source, threshold, b))
  {
    hide *;
    CandidateIsFound(source, threshold, a);
    CandidateIsFound(source, threshold, b);
    RegionsInOrder(source, threshold, a.id - 1, b.id - 1);
  }

  lemma QualifiedIsCandidate(source: PreparedLayoutSource, threshold: int, region: set<int>) returns (c: Component)
    requires source.Valid() && IsComponent(source, threshold, region) && Qualifies(source, region)
    ensures c in Candidates(Survey(source, threshold, |source.data|)) && RegionOf(source, threshold, c) == region
  {
    hide *;
    var found := Survey(source, threshold, |source.data|);
    var q := ComponentIsFound(source, threshold, region);
    c := found[q];
    RegionOfIs(source, threshold, q);
    DescribedQualifies(source, c, region);
    FoundNumbers(source, threshold);
    CandidatesIncrease(found);
  }

  /**
   The symbols are pictures of the connected regions of dark pixels that are worth a symbol, one for each region, in the
   order of their first pixels: each box is as tight around its region as it can be, and each fit is that of the region.
   */
  lemma SymbolsDepictComponents(source: PreparedLayoutSource, threshold: int) returns (regions: seq<set<int>>)
    requires source.Valid() && Extracted(source, threshold).Ok?
    ensures DepictsAll(source, threshold, Extracted(source, threshold).value, regions)
  {
    hide *;
    var components := ExtractedComponents(source, threshold);
    var cs := Extracted(source, threshold).value;
    FoundNumbers(source, threshold);
    CandidatesIncrease(Survey(source, threshold, |source.data|));
    regions := RegionsOf(source, threshold, components);
    forall k | 0 <= k < |cs|
      ensures IsComponent(source, threshold, regions[k]) && Qualifies(source, regions[k]) && Depicts(source, cs[k], regions[k])
    {
      CandidateDepicts(source, threshold, components[k], k);
    }
    forall j, k | 0 <= j < k < |cs|
      ensures StartsBefore(regions[j], regions[k])
    {
      CandidatesInOrder(source, threshold, components[j], components[k]);
    }
    forall region: set<int> | IsComponent(source, threshold, region) && Qualifies(source, region)
      ensures region in regions
    {
      var c := QualifiedIsCandidate(source, threshold, region);
      var k :| 0 <= k < |components| && components[k] == c;
      assert regions[k] == region;
    }
    AllDepicted(source, threshold, cs, regions);
  }

  lemma AllDepicted(source: PreparedLayoutSource, threshold: int, cs: seq<ShapeCandidate>, regions: seq<set<int>>)
    requires source.Valid() && |regions| == |cs|
    requires forall k | 0 <= k < |cs| ::
      IsComponent(source, threshold, regions[k]) && Qualifies(source, regions[k]) && Depicts(source, cs[k], regions[k])
    requires forall j, k | 0 <= j < k < |cs| :: StartsBefore(regions[j], regions[k])
    requires forall region: set<int> | IsComponent(source, threshold, region) && Qualifies(source, region) :: region in regions
    ensures DepictsAll(source, threshold, cs, regions)
  {
    hide IsComponent, Qualifies, Depicts, StartsBefore;
  }

  lemma ExtractedComponents(source: PreparedLayoutSource, threshold: int) returns (components: seq<Component>)
    requires source.Valid() && Extracted(source, threshold).Ok?
    ensures components == Candidates(Survey(source, threshold, |source.data|))
    ensures var cs := Extracted(source, threshold).value;
      && |cs| == |components|
      && forall k | 0 <= k < |cs| ::
        components[k] in components && InRaster(source, components[k]) && cs[k] == SymbolOf(source, threshold, components[k], k)
  {
    hide Survey, InRaster, SymbolOf, FitPixels, TooManyComponents;
    components := LabelOutcome(source, threshold).value;
    ComponentsAreInside(source, threshold, components);
  }

  lemma FoundNumbers(source: PreparedLayoutSource, threshold: int)
    requires source.Valid()
    ensures forall k | 0 <= k < |Survey(source, threshold, |source.data|)| :: Survey(source, threshold, |source.data|)[k].id == k + 1
  {
    hide *;
    forall k | 0 <= k < |Survey(source, threshold, |source.data|)|
      ensures Survey(source, threshold, |source.data|)[k].id == k + 1
    {
      RegionOfIs(source, threshold, k);
    }
  }

  lemma SymbolsAreNoCircles(source: PreparedLayoutSource, threshold: int)
    requires source.Valid() && Extracted(source, threshold).Ok?
    ensures forall c | c in Extracted(source, threshold).value :: c.shape != Some(Circle)
  {
    hide *;
    var components := ExtractedComponents(source, threshold);
    forall c | c in Extracted(source, threshold).value
      ensures c.shape != Some(Circle)
    {
      var k :| 0 <= k < |components| && Extracted(source, threshold).value[k] == c;
      SymbolIsNoCircle(source, threshold, components[k], k);
    }
  }

  lemma SymbolIsNoCircle(source: PreparedLayoutSource, threshold: int, c: Component, index: nat)
    requires source.Valid() && InRaster(source, c)
    ensures SymbolOf(source, threshold, c, index).shape != Some(Circle)
  {
    hide FitOf;
    var filled := InCells(Filled(BoxWidth(c), BoxHeight(c), RegionCells(source, threshold, c)));
    ShapeOfFit(filled, BoxWidth(c), BoxHeight(c));
  }
}
