/** The list of components of a raster, in raster order, and the loop that builds it. */
module Components {
  import opened Results
  import opened Reachability
  import opened Raster
  import opened FloodQueue
  import opened Labelling

  /** The first dark pixel, in raster order, of its component. */
  ghost predicate IsSeed(g: Graph<int>, i: int) {
    g.open(i) && forall j | 0 <= j < i :: !Joined(g, i, j)
  }

  ghost function SeedsBelow(g: Graph<int>, k: nat): (seeds: seq<int>)
    ensures forall i | 0 <= i < |seeds| :: 0 <= seeds[i] < k && IsSeed(g, seeds[i])
    ensures |seeds| <= k
  {
    if k == 0 then [] else SeedsBelow(g, k - 1) + if IsSeed(g, k - 1) then [k - 1] else []
  }

  /** The least value of [lo, hi) that satisfies `p`, or `hi`. */
  ghost function First(p: int -> bool, lo: int, hi: int): (x: int)
    requires lo <= hi
    ensures lo <= x <= hi && (x < hi ==> p(x)) && forall y | lo <= y < x :: !p(y)
    decreases hi - lo
  {
    if lo == hi || p(lo) then lo else First(p, lo + 1, hi)
  }

  /** The greatest value of [lo, hi) that satisfies `p`, or `lo - 1`. */
  ghost function Last(p: int -> bool, lo: int, hi: int): (x: int)
    requires lo <= hi
    ensures lo - 1 <= x < hi && (x >= lo ==> p(x)) && forall y | x < y < hi :: !p(y)
    decreases hi - lo
  {
    if lo == hi || p(hi - 1) then hi - 1 else Last(p, lo, hi - 1)
  }

  /** The values that `f` takes on `region`. */
  ghost function Taken(f: int -> int, region: set<int>): int -> bool {
    v => exists i :: i in region && f(i) == v
  }

  /** The exact measurements of one component. */
  ghost function Describe(source: PreparedLayoutSource, region: set<int>, id: int): Component
    requires source.Valid()
  {
    var columns := Taken(i => Column(source.width, i), region);
    var rows := Taken(i => Row(source.width, i), region);
    Component(id, First(columns, 0, source.width), First(rows, 0, source.height),
              Last(columns, 0, source.width), Last(rows, 0, source.height), |region|)
  }

  lemma TakenBetween(f: int -> int, region: set<int>, n: int, member: int)
    requires member in region && forall i | i in region :: 0 <= f(i) < n
    ensures var first, last := First(Taken(f, region), 0, n), Last(Taken(f, region), 0, n);
      && (forall i | i in region :: first <= f(i) <= last)
      && (exists i :: i in region && f(i) == first)
      && (exists i :: i in region && f(i) == last)
  {
    var p := Taken(f, region);
    forall i | i in region
      ensures First(p, 0, n) <= f(i) <= Last(p, 0, n)
    {
      assert p(f(i));
    }
    assert p(First(p, 0, n)) && p(Last(p, 0, n));
  }

  lemma FirstIs(p: int -> bool, lo: int, hi: int, x: int)
    requires lo <= x < hi && p(x) && forall y | lo <= y < x :: !p(y)
    ensures First(p, lo, hi) == x
  {
    var f := First(p, lo, hi);
  }

  lemma LastIs(p: int -> bool, lo: int, hi: int, x: int)
    requires lo <= x < hi && p(x) && forall y | x < y < hi :: !p(y)
    ensures Last(p, lo, hi) == x
  {
    var l := Last(p, lo, hi);
  }

  lemma DescriptionIsUnique(source: PreparedLayoutSource, region: set<int>, c: Component)
    requires source.Valid() && Describes(c, region, source.width)
    requires forall i | i in region :: 0 <= i < |source.data|
    ensures c == Describe(source, region, c.id)
  {
    var column := Taken(i => Column(source.width, i), region);
    var row := Taken(i => Row(source.width, i), region);
    forall i | i in region
      ensures 0 <= Column(source.width, i) < source.width && 0 <= Row(source.width, i) < source.height
    {
      CellOfIndex(source.width, source.height, i);
    }
    FirstIs(column, 0, source.width, c.minX);
    FirstIs(row, 0, source.height, c.minY);
    LastIs(column, 0, source.width, c.maxX);
    LastIs(row, 0, source.height, c.maxY);
  }

  /** The components whose first pixel comes before pixel `k`, numbered from 1. */
  ghost function Survey(source: PreparedLayoutSource, threshold: int, k: nat): (found: seq<Component>)
    requires source.Valid()
    ensures |found| == |SeedsBelow(DarkGraph(source.data, source.width, threshold), k)|
  {
    if k == 0 then []
    else
      var g := DarkGraph(source.data, source.width, threshold);
      var found := Survey(source, threshold, k - 1);
      if IsSeed(g, k - 1) then found + [Describe(source, Region(g, |source.data|, k - 1), |found| + 1)] else found
  }

  /** Large enough, filled enough and not too elongated to be a symbol. */
  predicate Plausible(c: Component) {
    var w, h := c.maxX - c.minX + 1, c.maxY - c.minY + 1;
    w >= 6 && h >= 6 && c.size >= 12 && w <= 20 * h && h <= 20 * w
  }

  function Candidates(found: seq<Component>): (kept: seq<Component>)
    ensures |kept| <= |found|
    ensures forall c | c in kept :: c in found && Plausible(c)
  {
    if found == [] then []
    else Candidates(found[..|found| - 1]) + if Plausible(found[|found| - 1]) then [found[|found| - 1]] else []
  }

  lemma CandidatesGrow(found: seq<Component>, c: Component)
    ensures Candidates(found + [c]) == Candidates(found) + if Plausible(c) then [c] else []
  {
    assert (found + [c])[..|found|] == found;
  }

  lemma SurveyStep(source: PreparedLayoutSource, threshold: int, m: nat)
    requires source.Valid() && m > 0
    ensures |Survey(source, threshold, m - 1)| <= |Survey(source, threshold, m)|
    ensures |Candidates(Survey(source, threshold, m - 1))| <= |Candidates(Survey(source, threshold, m))|
  {
    hide IsSeed, Describe, Region, DarkGraph, SeedsBelow;
    var found, more := Survey(source, threshold, m - 1), Survey(source, threshold, m);
    if more != found {
      assert more == found + [more[|found|]];
      CandidatesGrow(found, more[|found|]);
    }
  }

  /** Later pixels only add components and candidates. */
  lemma {:induction false} SurveyGrows(source: PreparedLayoutSource, threshold: int, k: nat, m: nat)
    requires source.Valid() && k <= m
    ensures |Survey(source, threshold, k)| <= |Survey(source, threshold, m)|
    ensures |Candidates(Survey(source, threshold, k))| <= |Candidates(Survey(source, threshold, m))|
  {
    hide *;
    if k < m {
      SurveyGrows(source, threshold, k, m - 1);
      SurveyStep(source, threshold, m);
    }
  }

  /** Label k + 1 marks the component of the k-th seed; other pixels are 0. */
  ghost predicate LabelsSeeds(g: Graph<int>, labels: seq<int>, seeds: seq<int>) {
    forall i | 0 <= i < |labels| ::
      && 0 <= labels[i] <= |seeds|
      && forall k | 0 <= k < |seeds| :: labels[i] == k + 1 <==> Joined(g, seeds[k], i)
  }

  ghost predicate DarkBelowLabelled(g: Graph<int>, labels: seq<int>, k: int) {
    forall i | 0 <= i < k && i < |labels| && g.open(i) :: labels[i] != 0
  }

  ghost function LabelledPixels(labels: seq<int>): set<int> {
    set i | 0 <= i < |labels| && labels[i] != 0
  }

  /** A dark pixel without a label starts a component; one with a label does not. */
  lemma UnlabelledIsSeed(g: Graph<int>, labels: seq<int>, index: int)
    requires Symmetric(g) && Uniform(g, labels) && 0 <= index < |labels| && g.open(index)
    requires forall i | g.open(i) :: 0 <= i < |labels|
    requires LabelsSeeds(g, labels, SeedsBelow(g, index)) && DarkBelowLabelled(g, labels, index)
    ensures labels[index] == 0 <==> IsSeed(g, index)
  {
    if labels[index] == 0 {
      forall j | 0 <= j < index
        ensures !Joined(g, index, j)
      {
        if Joined(g, index, j) {
          JoinedOpen(g, index, j);
          LabelledAlike(g, labels, index, j);
        }
      }
    } else {
      var seeds := SeedsBelow(g, index);
      var s := seeds[labels[index] - 1];
      JoinedSymmetric(g, s, index);
    }
  }

  lemma LabelsNextSeed(g: Graph<int>, before: seq<int>, labels: seq<int>, seeds: seq<int>, index: int)
    requires Symmetric(g) && Uniform(g, before) && 0 <= index < |before| && before[index] == 0
    requires forall i | g.open(i) :: 0 <= i < |before|
    requires LabelsSeeds(g, before, seeds) && |labels| == |before|
    requires forall i | 0 <= i < |labels| :: labels[i] == if Joined(g, index, i) then |seeds| + 1 else before[i]
    ensures LabelsSeeds(g, labels, seeds + [index])
    ensures Region(g, |labels|, index) !! LabelledPixels(before)
    ensures LabelledPixels(labels) == LabelledPixels(before) + Region(g, |labels|, index)
  {
    forall i | 0 <= i < |labels|
      ensures Joined(g, index, i) ==> before[i] == 0
    {
      if Joined(g, index, i) {
        LabelledAlike(g, before, index, i);
      }
    }
    forall i, k | 0 <= i < |labels| && 0 <= k < |seeds|
      ensures labels[i] == k + 1 <==> Joined(g, (seeds + [index])[k], i)
    {
      assert before[i] == k + 1 <==> Joined(g, seeds[k], i);
    }
  }

  ghost function DarkPixels(data: seq<Byte>, threshold: int): set<int> {
    set i | 0 <= i < |data| && IsDark(data, threshold, i)
  }

  ghost predicate TooManyComponents(found: seq<Component>) {
    |found| > MAX_COMPONENTS || |Candidates(found)| > MAX_CANDIDATES
  }

  /** The outcome of labelling: the plausible components in raster order, or the reason to refuse. */
  ghost function LabelOutcome(source: PreparedLayoutSource, threshold: int): Result<seq<Component>, RecognitionError>
    requires source.Valid()
  {
    var found := Survey(source, threshold, |source.data|);
    if TooManyComponents(found) then Err(SourceTooComplex)
    else if 10 * |DarkPixels(source.data, threshold)| > 6 * |source.data| then Err(UnsupportedContrast)
    else Ok(Candidates(found))
  }

  /** Everything the labelling loop knows when the pixels before `index` are done. */
  ghost predicate Labelled(source: PreparedLayoutSource, threshold: int, labels: seq<int>, index: int)
    requires source.Valid()
  {
    var g := DarkGraph(source.data, source.width, threshold);
    && 0 <= index <= |labels| == |source.data|
    && Uniform(g, labels)
    && LabelsSeeds(g, labels, SeedsBelow(g, index))
    && DarkBelowLabelled(g, labels, index)
  }

  lemma SkipPixel(source: PreparedLayoutSource, threshold: int, labels: seq<int>, index: int)
    requires source.Valid() && Labelled(source, threshold, labels, index) && index < |labels|
    requires source.data[index] > threshold || labels[index] != 0
    ensures Labelled(source, threshold, labels, index + 1)
    ensures Survey(source, threshold, index + 1) == Survey(source, threshold, index)
  {
    var g := DarkGraph(source.data, source.width, threshold);
    if g.open(index) {
      UnlabelledIsSeed(g, labels, index);
    }
    assert SeedsBelow(g, index + 1) == SeedsBelow(g, index);
  }

  lemma RegionInRange(g: Graph<int>, n: int, seed: int)
    ensures forall i | i in Region(g, n, seed) :: 0 <= i < n
  {
  }

  lemma DescribesSize(c: Component, region: set<int>, width: int)
    requires width > 0 && Describes(c, region, width)
    ensures c.size == |region|
  {
  }

  lemma LabelledFurther(g: Graph<int>, before: seq<int>, labels: seq<int>, index: int, id: int)
    requires 0 <= index < |before| == |labels| && DarkBelowLabelled(g, before, index) && id > 0
    requires Joined(g, index, index)
    requires forall i | 0 <= i < |labels| :: labels[i] == if Joined(g, index, i) then id else before[i]
    ensures DarkBelowLabelled(g, labels, index + 1)
  {
  }

  lemma NewComponent(source: PreparedLayoutSource, threshold: int, before: seq<int>, labels: seq<int>, index: int, c: Component)
    requires source.Valid() && Labelled(source, threshold, before, index) && index < |before| == |labels|
    requires IsDark(source.data, threshold, index) && before[index] == 0
    requires var g := DarkGraph(source.data, source.width, threshold);
      && Uniform(g, labels)
      && (forall i | 0 <= i < |labels| :: labels[i] == if Joined(g, index, i) then c.id else before[i])
      && c.id == |Survey(source, threshold, index)| + 1
      && Describes(c, Region(g, |labels|, index), source.width)
    ensures Labelled(source, threshold, labels, index + 1)
    ensures Survey(source, threshold, index + 1) == Survey(source, threshold, index) + [c]
    ensures |LabelledPixels(labels)| == |LabelledPixels(before)| + c.size
  {
    hide Joined, Describes, Describe, IsSeed, Region, Column, Row, Symmetric;
    var g := DarkGraph(source.data, source.width, threshold);
    UnlabelledIsSeed(g, before, index);
    LabelsNextSeed(g, before, labels, SeedsBelow(g, index), index);
    RegionInRange(g, |labels|, index);
    DescriptionIsUnique(source, Region(g, |labels|, index), c);
    DescribesSize(c, Region(g, |labels|, index), source.width);
    JoinedSelf(g, index);
    hide Uniform, DarkGraph, IsDark, LabelledPixels;
    LabelledFurther(g, before, labels, index, c.id);
  }

  /** The labels, once every pixel is done: exactly the dark pixels carry one, and the same one exactly within a component. */
  lemma LabelsAreComponents(source: PreparedLayoutSource, threshold: int, labels: seq<int>)
    requires source.Valid() && Labelled(source, threshold, labels, |source.data|)
    ensures forall i | 0 <= i < |labels| :: labels[i] != 0 <==> source.data[i] <= threshold
    ensures forall i, j | IsDark(source.data, threshold, i) && IsDark(source.data, threshold, j)
              :: labels[i] == labels[j] <==> Joined(DarkGraph(source.data, source.width, threshold), i, j)
  {
    var g := DarkGraph(source.data, source.width, threshold);
    forall i | 0 <= i < |labels|
      ensures labels[i] != 0 <==> source.data[i] <= threshold
    {
      assert g.open(i) <==> source.data[i] <= threshold;
    }
    forall i, j | IsDark(source.data, threshold, i) && IsDark(source.data, threshold, j)
      ensures labels[i] == labels[j] <==> Joined(g, i, j)
    {
      if Joined(g, i, j) {
        LabelledAlike(g, labels, i, j);
      } else if labels[i] == labels[j] {
        var s := SeedsBelow(g, |labels|)[labels[i] - 1];
        JoinedSymmetric(g, s, i);
        JoinedTransitive(g, i, s, j);
      }
    }
  }

  lemma NothingLabelled(source: PreparedLayoutSource, threshold: int, labels: seq<int>)
    requires source.Valid() && |labels| == |source.data| && forall i | 0 <= i < |labels| :: labels[i] == 0
    ensures Labelled(source, threshold, labels, 0)
    ensures LabelledPixels(labels) == {} && Survey(source, threshold, 0) == []
  {
  }

  lemma LabelledIsUniform(source: PreparedLayoutSource, threshold: int, labels: seq<int>, index: int)
    requires source.Valid() && Labelled(source, threshold, labels, index)
    ensures Uniform(DarkGraph(source.data, source.width, threshold), labels)
  {
  }

  lemma DarkIsLabelled(source: PreparedLayoutSource, threshold: int, labels: seq<int>)
    requires source.Valid() && Labelled(source, threshold, labels, |source.data|)
    ensures LabelledPixels(labels) == DarkPixels(source.data, threshold)
  {
    LabelsAreComponents(source, threshold, labels);
  }

  lemma OneMoreComponent(source: PreparedLayoutSource, threshold: int, labels: seq<int>, index: int)
    requires source.Valid() && Labelled(source, threshold, labels, index) && index < |labels|
    requires IsDark(source.data, threshold, index) && labels[index] == 0
    ensures |Survey(source, threshold, |source.data|)| > |Survey(source, threshold, index)|
  {
    UnlabelledIsSeed(DarkGraph(source.data, source.width, threshold), labels, index);
    assert |Survey(source, threshold, index + 1)| == |Survey(source, threshold, index)| + 1;
    SurveyGrows(source, threshold, index + 1, |source.data|);
  }

  /** Label every component and keep the plausible ones. */
  method LabelComponents(source: PreparedLayoutSource, threshold: int, labels: array<int>, queue: array<int>)
    returns (outcome: Result<seq<Component>, RecognitionError>)
    requires source.Valid() && labels != queue && labels.Length == queue.Length == |source.data|
    requires forall i | 0 <= i < labels.Length :: labels[i] == 0
    modifies labels, queue
    ensures outcome == LabelOutcome(source, threshold)
    ensures outcome.Ok? ==> Labelled(source, threshold, labels[..], |source.data|)
  {
    hide Labelled, Describes, Survey, Candidates, LabelledPixels, Region, Uniform, Joined;
    ghost var total := Survey(source, threshold, |source.data|);
    var components := [];
    var componentCount, darkCount := 0, 0;
    NothingLabelled(source, threshold, labels[..]);
    for index := 0 to |source.data|
      invariant Labelled(source, threshold, labels[..], index)
      invariant componentCount == |Survey(source, threshold, index)| && !TooManyComponents(Survey(source, threshold, index))
      invariant components == Candidates(Survey(source, threshold, index))
      invariant darkCount == |LabelledPixels(labels[..])|
    {
      ghost var before := labels[..];
      if source.data[index] > threshold || labels[index] != 0 {
        SkipPixel(source, threshold, before, index);
        continue;
      }
      componentCount := componentCount + 1;
      if componentCount > MAX_COMPONENTS {
        OneMoreComponent(source, threshold, before, index);
        return Err(SourceTooComplex);
      }
      LabelledIsUniform(source, threshold, before, index);
      var component := FloodComponent(source, threshold, labels, queue, index, componentCount);
      NewComponent(source, threshold, before, labels[..], index, component);
      darkCount := darkCount + component.size;
      CandidatesGrow(Survey(source, threshold, index), component);
      SurveyGrows(source, threshold, index + 1, |source.data|);
      if Plausible(component) {
        components := components + [component];
        if |components| > MAX_CANDIDATES {
          return Err(SourceTooComplex);
        }
      }
    }
    DarkIsLabelled(source, threshold, labels[..]);
    if 10 * darkCount > 6 * |source.data| {
      return Err(UnsupportedContrast);
    }
    return Ok(components);
  }

  ghost function TotalSize(found: seq<Component>): int {
    if found == [] then 0 else TotalSize(found[..|found| - 1]) + found[|found| - 1].size
  }

  ghost predicate HasSeedBelow(g: Graph<int>, k: int, i: int) {
    exists s :: 0 <= s < k && IsSeed(g, s) && Joined(g, s, i)
  }

  /** The pixels of the components whose first pixel comes before `k`. */
  ghost function Covered(g: Graph<int>, n: nat, k: int): set<int> {
    set i | 0 <= i < n && HasSeedBelow(g, k, i)
  }

  /** Every dark pixel belongs to the component of some seed. */
  lemma {:induction false} HasSeed(g: Graph<int>, i: nat) returns (s: nat)
    requires Symmetric(g) && g.open(i)
    ensures s <= i && IsSeed(g, s) && Joined(g, s, i)
  {
    if IsSeed(g, i) {
      s := i;
      JoinedSelf(g, i);
    } else {
      var j :| 0 <= j < i && Joined(g, i, j);
      JoinedOpen(g, i, j);
      s := HasSeed(g, j);
      JoinedSymmetric(g, i, j);
      JoinedTransitive(g, s, j, i);
    }
  }

  lemma CoveredGrows(g: Graph<int>, n: nat, k: nat)
    requires Symmetric(g) && k < n
    ensures IsSeed(g, k) ==> Covered(g, n, k) !! Region(g, n, k) && Covered(g, n, k + 1) == Covered(g, n, k) + Region(g, n, k)
    ensures !IsSeed(g, k) ==> Covered(g, n, k + 1) == Covered(g, n, k)
  {
    if IsSeed(g, k) {
      forall i | i in Covered(g, n, k)
        ensures i !in Region(g, n, k)
      {
        var s :| 0 <= s < k && IsSeed(g, s) && Joined(g, s, i);
        if Joined(g, k, i) {
          JoinedSymmetric(g, s, i);
          JoinedTransitive(g, k, i, s);
        }
      }
    }
  }

  lemma RegionSize(source: PreparedLayoutSource, region: set<int>, id: int)
    requires source.Valid()
    ensures Describe(source, region, id).size == |region|
  {
  }

  lemma TotalSizeGrows(found: seq<Component>, c: Component)
    ensures TotalSize(found + [c]) == TotalSize(found) + c.size
  {
    assert (found + [c])[..|found|] == found;
  }

  lemma SurveyNext(source: PreparedLayoutSource, threshold: int, k: nat)
    requires source.Valid() && k < |source.data|
    ensures var g := DarkGraph(source.data, source.width, threshold); var found := Survey(source, threshold, k);
      Survey(source, threshold, k + 1)
      == if IsSeed(g, k) then found + [Describe(source, Region(g, |source.data|, k), |found| + 1)] else found
  {
    hide IsSeed, Region, Describe, SeedsBelow, DarkGraph;
  }

  lemma DisjointSizes(a: set<int>, b: set<int>)
    requires a !! b
    ensures |a + b| == |a| + |b|
  {
  }

  lemma NothingCovered(source: PreparedLayoutSource, threshold: int)
    requires source.Valid()
    ensures TotalSize(Survey(source, threshold, 0)) == |Covered(DarkGraph(source.data, source.width, threshold), |source.data|, 0)| == 0
  {
    assert Covered(DarkGraph(source.data, source.width, threshold), |source.data|, 0) == {};
  }

  lemma SizesAdd(found: seq<Component>, c: Component, before: set<int>, region: set<int>)
    requires TotalSize(found) == |before| && c.size == |region| && before !! region
    ensures TotalSize(found + [c]) == |before + region|
  {
    hide TotalSize;
    TotalSizeGrows(found, c);
    DisjointSizes(before, region);
  }

  lemma SizesStep(source: PreparedLayoutSource, threshold: int, k: nat)
    requires source.Valid() && k < |source.data|
    requires TotalSize(Survey(source, threshold, k)) == |Covered(DarkGraph(source.data, source.width, threshold), |source.data|, k)|
    ensures TotalSize(Survey(source, threshold, k + 1)) == |Covered(DarkGraph(source.data, source.width, threshold), |source.data|, k + 1)|
  {
    var g, found := DarkGraph(source.data, source.width, threshold), Survey(source, threshold, k);
    hide IsSeed, Covered, Region, Describe, SeedsBelow, DarkGraph, Survey, TotalSize, Symmetric;
    CoveredGrows(g, |source.data|, k);
    SurveyNext(source, threshold, k);
    if IsSeed(g, k) {
      var region := Region(g, |source.data|, k);
      RegionSize(source, region, |found| + 1);
      SizesAdd(found, Describe(source, region, |found| + 1), Covered(g, |source.data|, k), region);
    }
  }

  lemma {:induction false} SizesBelow(source: PreparedLayoutSource, threshold: int, k: nat)
    requires source.Valid() && k <= |source.data|
    ensures TotalSize(Survey(source, threshold, k))
         == |Covered(DarkGraph(source.data, source.width, threshold), |source.data|, k)|
  {
    if k == 0 {
      NothingCovered(source, threshold);
    } else {
      SizesBelow(source, threshold, k - 1);
      hide *;
      SizesStep(source, threshold, k - 1);
    }
  }

  /** The components share out the dark pixels: their sizes add up to the number of dark pixels. */
  lemma ComponentsPartitionDarkPixels(source: PreparedLayoutSource, threshold: int)
    requires source.Valid()
    ensures TotalSize(Survey(source, threshold, |source.data|)) == |DarkPixels(source.data, threshold)|
  {
    var g, n := DarkGraph(source.data, source.width, threshold), |source.data|;
    SizesBelow(source, threshold, n);
    forall i | 0 <= i < n
      ensures HasSeedBelow(g, n, i) <==> g.open(i)
    {
      if g.open(i) {
        var s := HasSeed(g, i);
      } else if s :| 0 <= s < n && Joined(g, s, i) {
        JoinedOpen(g, s, i);
      }
    }
    assert Covered(g, n, n) == DarkPixels(source.data, threshold);
  }
}
