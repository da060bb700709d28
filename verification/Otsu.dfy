/** binaryThreshold: the threshold search over the histogram, and what its result means for the pixels. */
module Otsu {
  import opened Results
  import opened Numbers
  import opened Raster
  import opened PixelClasses

  ghost predicate IsRange(data: seq<Byte>, minimum: int, maximum: int) {
    && (forall i | 0 <= i < |data| :: minimum <= data[i] <= maximum)
    && (exists i :: 0 <= i < |data| && data[i] == minimum)
    && (exists i :: 0 <= i < |data| && data[i] == maximum)
  }

  /** `t` is the least threshold in [minimum, maximum) that no other one beats. */
  ghost predicate BestThreshold(data: seq<Byte>, minimum: int, maximum: int, t: int) {
    && minimum <= t < maximum
    && (forall v | minimum <= v < maximum :: Between(data, AtMost(data, v)) <= Between(data, AtMost(data, t)))
    && (forall v | minimum <= v < t :: Between(data, AtMost(data, v)) < Between(data, AtMost(data, t)))
  }

  /** Every threshold in [minimum, maximum) leaves pixels on both sides. */
  lemma ThresholdSplits(data: seq<Byte>, minimum: int, maximum: int, t: int)
    requires IsRange(data, minimum, maximum) && minimum <= t < maximum
    ensures Splits(data, AtMost(data, t))
  {
    var i :| 0 <= i < |data| && data[i] == minimum;
    var j :| 0 <= j < |data| && data[j] == maximum;
    assert AtMost(data, t)(i) && !AtMost(data, t)(j);
  }

  lemma PositiveProduct(a: real, b: real)
    ensures a > 0.0 && b > 0.0 ==> a * b > 0.0
  {
  }

  lemma ScoreAgainstScatter(n: real, w: real, b: real, w': real, b': real, s: real)
    requires n > 0.0 && Product(n, w) + b == s && Product(n, w') + b' == s && b <= b'
    ensures w' <= w
  {
    assert n * (w' - w) == b - b';
    PositiveProduct(n, w' - w);
  }

  lemma BestThresholdHasLeastScatter(data: seq<Byte>, minimum: int, maximum: int, t: int, v: int)
    requires IsRange(data, minimum, maximum) && BestThreshold(data, minimum, maximum, t) && minimum <= v < maximum
    ensures Within(data, AtMost(data, t)) <= Within(data, AtMost(data, v))
  {
    ThresholdSplits(data, minimum, maximum, t);
    ThresholdSplits(data, minimum, maximum, v);
    BetweenComplementsWithin(data, AtMost(data, t));
    BetweenComplementsWithin(data, AtMost(data, v));
    hide Product, Within, Between, Scatter, Size;
    ScoreAgainstScatter(Size(data, ALL), Within(data, AtMost(data, v)), Between(data, AtMost(data, v)),
                        Within(data, AtMost(data, t)), Between(data, AtMost(data, t)), Product(Size(data, ALL), Scatter(data, ALL)));
  }

  /** The cost of a split when its classes are measured from arbitrary centres. */
  ghost function Cost(data: seq<Byte>, group: Group, a: real, b: real): real {
    Sum(data, group, From(a), |data|) + Sum(data, Not(group), From(b), |data|)
  }

  lemma WithinIsBestCost(data: seq<Byte>, group: Group, a: real, b: real)
    requires Splits(data, group)
    ensures Within(data, group) <= Cost(data, group, a, b)
  {
    SplitSizes(data, group);
    MeanIsBestCentre(data, group, a);
    MeanIsBestCentre(data, Not(group), b);
  }

  /** Moving every pixel to the nearer of two centres never costs more. */
  lemma {:induction false} NearerCentreIsCheaper(data: seq<Byte>, p: Group, q: Group, near: Group, a: real, b: real, k: nat)
    requires k <= |data| && forall i | 0 <= i < k :: q(i) <==> !p(i)
    requires forall i | 0 <= i < k :: near(i) ==> From(a)(data[i]) <= From(b)(data[i])
    requires forall i | 0 <= i < k :: !near(i) ==> From(b)(data[i]) <= From(a)(data[i])
    ensures Sum(data, near, From(a), k) + Sum(data, Not(near), From(b), k)
         <= Sum(data, p, From(a), k) + Sum(data, q, From(b), k)
  {
    if k > 0 {
      hide From;
      NearerCentreIsCheaper(data, p, q, near, a, b, k - 1);
      assert Not(near)(k - 1) == !near(k - 1) && q(k - 1) == !p(k - 1);
    }
  }

  lemma NearerByThreshold(x: int, a: real, b: real, mid: real)
    requires a <= b && 2.0 * mid == a + b
    ensures x as real <= mid ==> From(a)(x) <= From(b)(x)
    ensures x as real >= mid ==> From(b)(x) <= From(a)(x)
  {
    var y := x as real;
    assert (y - b) * (y - b) - (y - a) * (y - a) == (b - a) * (a + b - 2.0 * y);
    if y <= mid {
      assert (b - a) * (a + b - 2.0 * y) >= 0.0;
    }
    if y >= mid {
      assert (b - a) * (2.0 * y - (a + b)) >= 0.0;
    }
  }

  /** A class mean lies between bounds of the class, strictly inside if it differs from one of them. */
  lemma MeanBetween(data: seq<Byte>, group: Group, lo: real, hi: real)
    requires Size(data, group) > 0.0
    requires forall i | 0 <= i < |data| :: lo <= data[i] as real <= hi
    ensures lo <= Mean(data, group) <= hi
  {
    TotalBetween(data, group, lo, hi, |data|);
    MeanTimesSize(data, group);
    MeanBounds(Mean(data, group), Size(data, group), Total(data, group), lo, hi);
  }

  lemma ProductGrows(a: real, b: real, n: real)
    requires n > 0.0
    ensures a < b ==> Product(a, n) < Product(b, n)
  {
    if a < b {
      assert (b - a) * n > 0.0;
    }
  }

  lemma MeanBounds(m: real, n: real, s: real, lo: real, hi: real)
    requires n > 0.0 && Product(m, n) == s && Product(lo, n) <= s <= Product(hi, n)
    ensures lo <= m <= hi
  {
    ProductGrows(m, lo, n);
    ProductGrows(hi, m, n);
  }

  lemma {:induction false} TotalBetween(data: seq<Byte>, group: Group, lo: real, hi: real, k: nat)
    requires k <= |data| && forall i | 0 <= i < k :: lo <= data[i] as real <= hi
    ensures Product(lo, Sum(data, group, ONE, k)) <= Sum(data, group, VALUE, k) <= Product(hi, Sum(data, group, ONE, k))
  {
    if k > 0 {
      TotalBetween(data, group, lo, hi, k - 1);
      ProductOfSum(lo, Sum(data, group, ONE, k - 1));
      ProductOfSum(hi, Sum(data, group, ONE, k - 1));
      hide Product;
    }
  }

  lemma ProductOfSum(a: real, n: real)
    ensures Product(a, n + 1.0) == Product(a, n) + a
  {
  }

  lemma BestThresholdBeatsOrdered(data: seq<Byte>, minimum: int, maximum: int, t: int, p: Group, q: Group)
    requires IsRange(data, minimum, maximum) && BestThreshold(data, minimum, maximum, t)
    requires forall i | 0 <= i < |data| :: q(i) <==> !p(i)
    requires Size(data, p) > 0.0 && Size(data, q) > 0.0 && Mean(data, p) <= Mean(data, q)
    ensures Within(data, AtMost(data, t)) <= Scatter(data, p) + Scatter(data, q)
  {
    var a, b := Mean(data, p), Mean(data, q);
    var mid := (a + b) / 2.0;
    var v := if a == b then t else mid.Floor;
    MeanBetween(data, p, minimum as real, maximum as real);
    MeanBetween(data, q, minimum as real, maximum as real);
    assert minimum <= v < maximum;
    forall i | 0 <= i < |data|
      ensures AtMost(data, v)(i) ==> From(a)(data[i]) <= From(b)(data[i])
      ensures !AtMost(data, v)(i) ==> From(b)(data[i]) <= From(a)(data[i])
    {
      NearerByThreshold(data[i], a, b, mid);
    }
    ThresholdSplits(data, minimum, maximum, v);
    BestThresholdHasLeastScatter(data, minimum, maximum, t, v);
    WithinIsBestCost(data, AtMost(data, v), a, b);
    NearerCentreIsCheaper(data, p, q, AtMost(data, v), a, b, |data|);
  }

  /**
   No way at all of splitting the pixels in two non-empty classes, by threshold or not, has less
   scatter inside the classes than the threshold found.
   */
  lemma BestThresholdIsOptimal(data: seq<Byte>, minimum: int, maximum: int, t: int, group: Group)
    requires IsRange(data, minimum, maximum) && BestThreshold(data, minimum, maximum, t) && Splits(data, group)
    ensures Within(data, AtMost(data, t)) <= Within(data, group)
  {
    SplitSizes(data, group);
    hide Within;
    assert Within(data, group) == Scatter(data, group) + Scatter(data, Not(group));
    hide Scatter, Size, Mean;
    if Mean(data, group) <= Mean(data, Not(group)) {
      BestThresholdBeatsOrdered(data, minimum, maximum, t, group, Not(group));
    } else {
      BestThresholdBeatsOrdered(data, minimum, maximum, t, Not(group), group);
    }
  }

  /** The pixels of exactly one value: one bar of the histogram. */
  ghost function Exactly(data: seq<Byte>, v: int): Group { i => 0 <= i < |data| && data[i] == v }

  /** The histogram, the sum and the range of the first `k` pixels. */
  ghost predicate Tallied(data: seq<Byte>, histogram: seq<int>, sum: int, minimum: int, maximum: int, k: nat) {
    && k <= |data| && |histogram| == 256
    && (forall v | 0 <= v < 256 :: histogram[v] as real == Sum(data, Exactly(data, v), ONE, k))
    && sum as real == Sum(data, ALL, VALUE, k)
    && 0 <= minimum < 256 && 0 <= maximum < 256
    && (forall i | 0 <= i < k :: minimum <= data[i] <= maximum)
    && (k > 0 ==> exists i :: 0 <= i < k && data[i] == minimum)
    && (k > 0 ==> exists i :: 0 <= i < k && data[i] == maximum)
    && (k == 0 ==> minimum == 255 && maximum == 0)
  }

  lemma TallyPixel(data: seq<Byte>, histogram: seq<int>, sum: int, minimum: int, maximum: int, k: nat)
    requires k < |data| && Tallied(data, histogram, sum, minimum, maximum, k)
    ensures var x := data[k];
      Tallied(data, histogram[x := histogram[x] + 1], sum + x, if x < minimum then x else minimum,
              if x > maximum then x else maximum, k + 1)
  {
    var x := data[k];
    var min', max' := if x < minimum then x else minimum, if x > maximum then x else maximum;
    assert exists i :: 0 <= i < k + 1 && data[i] == min' by {
      if x < minimum || k == 0 {
        assert data[k] == min';
      }
    }
    assert exists i :: 0 <= i < k + 1 && data[i] == max' by {
      if x > maximum || k == 0 {
        assert data[k] == max';
      }
    }
    forall v | 0 <= v < 256
      ensures histogram[x := histogram[x] + 1][v] as real == Sum(data, Exactly(data, v), ONE, k + 1)
    {
      assert Exactly(data, v)(k) <==> v == x;
    }
  }

  method Tally(source: PreparedLayoutSource) returns (histogram: array<int>, sum: int, minimum: int, maximum: int)
    requires source.Valid()
    ensures Tallied(source.data, histogram[..], sum, minimum, maximum, |source.data|)
  {
    histogram := new int[256](_ => 0);
    sum, minimum, maximum := 0, 255, 0;
    for k := 0 to |source.data|
      invariant Tallied(source.data, histogram[..], sum, minimum, maximum, k)
    {
      var value := source.data[k];
      TallyPixel(source.data, histogram[..], sum, minimum, maximum, k);
      histogram[value] := histogram[value] + 1;
      sum := sum + value;
      minimum := if value < minimum then value else minimum;
      maximum := if value > maximum then value else maximum;
    }
  }

  /** Raising the threshold by one moves one bar of the histogram to the lower class. */
  lemma NextThreshold(data: seq<Byte>, v: int)
    ensures Size(data, AtMost(data, v)) == Size(data, AtMost(data, v - 1)) + Size(data, Exactly(data, v))
    ensures Total(data, AtMost(data, v)) == Total(data, AtMost(data, v - 1)) + v as real * Size(data, Exactly(data, v))
  {
    SumOfDisjoint(data, AtMost(data, v - 1), Exactly(data, v), AtMost(data, v), ONE, |data|);
    SumOfDisjoint(data, AtMost(data, v - 1), Exactly(data, v), AtMost(data, v), VALUE, |data|);
    BarTotal(data, v, |data|);
  }

  lemma {:induction false} BarTotal(data: seq<Byte>, v: int, k: nat)
    requires k <= |data|
    ensures Sum(data, Exactly(data, v), VALUE, k) == v as real * Sum(data, Exactly(data, v), ONE, k)
  {
    if k > 0 {
      BarTotal(data, v, k - 1);
      var r, n := v as real, Sum(data, Exactly(data, v), ONE, k - 1);
      assert r * (n + 1.0) == r * n + r;
    }
  }

  lemma {:induction false} EmptySum(data: seq<Byte>, group: Group, v: int -> real, k: nat)
    requires k <= |data| && forall i | 0 <= i < k :: !group(i)
    ensures Sum(data, group, v, k) == 0.0
  {
    if k > 0 {
      EmptySum(data, group, v, k - 1);
    }
  }

  lemma {:induction false} SizeOfAll(data: seq<Byte>, k: nat)
    requires k <= |data|
    ensures Sum(data, ALL, ONE, k) == k as real
  {
    if k > 0 {
      SizeOfAll(data, k - 1);
    }
  }

  /** The running sums give the from-scratch score of the threshold, and both classes have pixels. */
  lemma RunningScore(data: seq<Byte>, minimum: int, maximum: int, v: int, weight: int, partialSum: int, sum: int)
    requires IsRange(data, minimum, maximum) && minimum <= v < maximum
    requires weight as real == Size(data, AtMost(data, v)) && partialSum as real == Total(data, AtMost(data, v))
    requires sum as real == Total(data, ALL)
    ensures weight > 0 && |data| - weight > 0
    ensures Between(data, AtMost(data, v))
         == Score(weight as real, (|data| - weight) as real, partialSum as real / weight as real,
                  (sum - partialSum) as real / (|data| - weight) as real)
    ensures Between(data, AtMost(data, v)) >= 0.0
  {
    var group := AtMost(data, v);
    ThresholdSplits(data, minimum, maximum, v);
    SplitSizes(data, group);
    SumOfDisjoint(data, group, Not(group), ALL, ONE, |data|);
    SumOfDisjoint(data, group, Not(group), ALL, VALUE, |data|);
    SizeOfAll(data, |data|);
    hide Score, Sum;
    assert Size(data, Not(group)) == (|data| - weight) as real;
    assert Total(data, Not(group)) == (sum - partialSum) as real;
    ScoreNotNegative(Size(data, group), Size(data, Not(group)), Mean(data, group), Mean(data, Not(group)));
  }

  lemma ScoreNotNegative(w: real, r: real, a: real, b: real)
    requires w > 0.0 && r > 0.0
    ensures Score(w, r, a, b) >= 0.0
  {
    var d, p := a - b, w * r;
    assert p > 0.0 && d * d >= 0.0;
    assert p * (d * d) >= 0.0;
    assert Score(w, r, a, b) == p * (d * d);
  }

  /** The best threshold among those below `value`, with its score. */
  ghost predicate BestSoFar(data: seq<Byte>, minimum: int, value: int, threshold: int, best: real) {
    if value == minimum then best == -1.0 && threshold == minimum
    else
      && minimum <= threshold < value
      && best == Between(data, AtMost(data, threshold))
      && (forall v | minimum <= v < value :: Between(data, AtMost(data, v)) <= best)
      && (forall v | minimum <= v < threshold :: Between(data, AtMost(data, v)) < best)
  }

  /** Too little contrast gives no threshold or an error; otherwise the best threshold. */
  ghost predicate ThresholdOutcome(data: seq<Byte>, minimum: int, maximum: int, r: Result<Option<int>, RecognitionError>) {
    if maximum - minimum >= 24 then r.Ok? && r.value.Some? && BestThreshold(data, minimum, maximum, r.value.value)
    else if minimum >= 224 then r == Ok(None)
    else r == Err(UnsupportedContrast)
  }

  /** Otsu's threshold, or none for a uniform bright image. */
  method BinaryThreshold(source: PreparedLayoutSource) returns (r: Result<Option<int>, RecognitionError>)
    ensures !source.Valid() <==> r == Err(InvalidRaster)
    ensures source.Valid() ==>
              exists minimum, maximum :: IsRange(source.data, minimum, maximum) && ThresholdOutcome(source.data, minimum, maximum, r)
  {
    if source.width < 1 || source.height < 1 || Max(source.width, source.height) > 1_600 || source.width * source.height > 1_600 * 1_600
       || source.channels != 1 || |source.data| != source.width * source.height {
      return Err(InvalidRaster);
    }
    var data := source.data;
    var histogram, sum, minimum, maximum := Tally(source);
    PixelsExist(source);
    assert IsRange(data, minimum, maximum);
    if maximum - minimum < 24 {
      if minimum >= 224 {
        return Ok(None);
      }
      return Err(UnsupportedContrast);
    }
    var threshold := SearchThreshold(source, histogram, sum, minimum, maximum);
    return Ok(Some(threshold));
  }

  lemma PixelsExist(source: PreparedLayoutSource)
    requires source.Valid()
    ensures |source.data| > 0
  {
    CellInRange(source.width, source.height, 0, 0);
  }

  method SearchThreshold(source: PreparedLayoutSource, histogram: array<int>, sum: int, minimum: int, maximum: int)
    returns (threshold: int)
    requires source.Valid() && Tallied(source.data, histogram[..], sum, minimum, maximum, |source.data|)
    requires IsRange(source.data, minimum, maximum) && minimum < maximum
    ensures BestThreshold(source.data, minimum, maximum, threshold)
  {
    hide Size, Total, AtMost, Exactly, Between, IsRange, Score;
    var data := source.data;
    var weight, partialSum := 0, 0;
    var bestVariance := -1.0;
    threshold := minimum;
    NothingBelowMinimum(data, minimum, maximum);
    for value := minimum to maximum
      invariant weight as real == Size(data, AtMost(data, value - 1))
      invariant partialSum as real == Total(data, AtMost(data, value - 1))
      invariant BestSoFar(data, minimum, value, threshold, bestVariance)
    {
      NextThreshold(data, value);
      HistogramBar(data, histogram[..], sum, minimum, maximum, value);
      weight := weight + histogram[value];
      partialSum := partialSum + value * histogram[value];
      var remaining := |data| - weight;
      RunningScore(data, minimum, maximum, value, weight, partialSum, sum);
      if weight != 0 && remaining != 0 {
        var variance := Score(weight as real, remaining as real, partialSum as real / weight as real,
                              (sum - partialSum) as real / remaining as real);
        if variance > bestVariance {
          bestVariance := variance;
          threshold := value;
        }
      }
    }
  }

  lemma NothingBelowMinimum(data: seq<Byte>, minimum: int, maximum: int)
    requires IsRange(data, minimum, maximum)
    ensures Size(data, AtMost(data, minimum - 1)) == 0.0 && Total(data, AtMost(data, minimum - 1)) == 0.0
  {
    EmptySum(data, AtMost(data, minimum - 1), ONE, |data|);
    EmptySum(data, AtMost(data, minimum - 1), VALUE, |data|);
  }

  lemma HistogramBar(data: seq<Byte>, histogram: seq<int>, sum: int, minimum: int, maximum: int, v: int)
    requires Tallied(data, histogram, sum, minimum, maximum, |data|) && 0 <= v < 256
    ensures histogram[v] as real == Size(data, Exactly(data, v))
    ensures (v * histogram[v]) as real == v as real * Size(data, Exactly(data, v))
    ensures sum as real == Total(data, ALL)
  {
    ProductAsReal(v, histogram[v]);
  }

  lemma ProductAsReal(a: int, b: int)
    ensures (a * b) as real == a as real * b as real
  {
  }
}
