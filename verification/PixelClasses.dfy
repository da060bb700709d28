/** Two-class splits of the pixels and their scatter around the class means. */
module PixelClasses {
  import opened Raster

  /** A class of pixels, by pixel index. */
  type Group = int -> bool

  ghost function Sum(data: seq<Byte>, group: Group, v: int -> real, k: nat): real
    requires k <= |data|
  {
    if k == 0 then 0.0 else Sum(data, group, v, k - 1) + if group(k - 1) then v(data[k - 1]) else 0.0
  }

  const ONE: int -> real := x => 1.0
  const VALUE: int -> real := x => x as real
  const SQUARE: int -> real := x => Product(x as real, x as real)

  function Product(a: real, b: real): real { a * b }

  /** The squared distance from the centre `c`. */
  function From(c: real): int -> real { x => Product(x as real - c, x as real - c) }

  /** A sum of squared distances from `c`, from the sums of squares, of values and of ones. */
  function Quadratic(squares: real, values: real, ones: real, c: real): real {
    squares - 2.0 * c * values + c * c * ones
  }

  ghost function Size(data: seq<Byte>, group: Group): real { Sum(data, group, ONE, |data|) }
  ghost function Total(data: seq<Byte>, group: Group): real { Sum(data, group, VALUE, |data|) }

  ghost function Mean(data: seq<Byte>, group: Group): real {
    if Size(data, group) == 0.0 then 0.0 else Total(data, group) / Size(data, group)
  }

  ghost function Not(group: Group): Group { i => !group(i) }

  /** The class of the pixels whose value is at most `t`. */
  ghost function AtMost(data: seq<Byte>, t: int): Group { i => 0 <= i < |data| && data[i] <= t }

  /** Squared deviations of one class from its own mean. */
  ghost function Scatter(data: seq<Byte>, group: Group): real {
    Sum(data, group, From(Mean(data, group)), |data|)
  }

  /** Squared deviations of both classes of a split from their own means. */
  ghost function Within(data: seq<Byte>, group: Group): real {
    Scatter(data, group) + Scatter(data, Not(group))
  }

  function Score(weight: real, remaining: real, mean: real, otherMean: real): real {
    weight * remaining * (mean - otherMean) * (mean - otherMean)
  }

  ghost predicate Splits(data: seq<Byte>, group: Group) {
    && (exists i :: 0 <= i < |data| && group(i))
    && (exists i :: 0 <= i < |data| && !group(i))
  }

  /** The score that the threshold search maximises: weight * remaining * (difference of means)^2. */
  ghost function Between(data: seq<Byte>, group: Group): real {
    Score(Size(data, group), Size(data, Not(group)), Mean(data, group), Mean(data, Not(group)))
  }

  lemma {:induction false} SumLinear(data: seq<Byte>, group: Group, c: real, k: nat)
    requires k <= |data|
    ensures Sum(data, group, From(c), k)
         == Quadratic(Sum(data, group, SQUARE, k), Sum(data, group, VALUE, k), Sum(data, group, ONE, k), c)
  {
    if k > 0 {
      hide Quadratic, Product;
      SumLinear(data, group, c, k - 1);
      AddTerm(Sum(data, group, SQUARE, k - 1), Sum(data, group, VALUE, k - 1), Sum(data, group, ONE, k - 1), c,
              data[k - 1] as real);
    }
  }

  lemma AddTerm(q: real, s: real, n: real, c: real, x: real)
    ensures Quadratic(q, s, n, c) + Product(x - c, x - c) == Quadratic(q + Product(x, x), s + x, n + 1.0, c)
  {
  }

  lemma {:induction false} SumOfDisjoint(data: seq<Byte>, a: Group, b: Group, c: Group, v: int -> real, k: nat)
    requires k <= |data| && forall i | 0 <= i < k :: (c(i) <==> a(i) || b(i)) && !(a(i) && b(i))
    ensures Sum(data, c, v, k) == Sum(data, a, v, k) + Sum(data, b, v, k)
  {
    if k > 0 {
      SumOfDisjoint(data, a, b, c, v, k - 1);
    }
  }

  lemma {:induction false} SumCounts(data: seq<Byte>, group: Group, k: nat)
    requires k <= |data|
    ensures Sum(data, group, ONE, k) >= 0.0
    ensures (exists i :: 0 <= i < k && group(i)) ==> Sum(data, group, ONE, k) >= 1.0
    ensures (forall i | 0 <= i < k :: !group(i)) ==> Sum(data, group, ONE, k) == 0.0
  {
    if k > 0 {
      SumCounts(data, group, k - 1);
    }
  }

  /** Any centre but the mean costs more. */
  lemma MeanIsBestCentre(data: seq<Byte>, group: Group, c: real)
    requires Size(data, group) > 0.0
    ensures Sum(data, group, From(c), |data|)
         == Scatter(data, group) + Product(Size(data, group), Product(c - Mean(data, group), c - Mean(data, group)))
    ensures Scatter(data, group) <= Sum(data, group, From(c), |data|)
  {
    hide Quadratic, Mean;
    SumLinear(data, group, c, |data|);
    SumLinear(data, group, Mean(data, group), |data|);
    MeanTimesSize(data, group);
    CentreAlgebra(Sum(data, group, SQUARE, |data|), Total(data, group), Size(data, group), Mean(data, group), c);
  }

  lemma MeanTimesSize(data: seq<Byte>, group: Group)
    requires Size(data, group) > 0.0
    ensures Product(Mean(data, group), Size(data, group)) == Total(data, group)
  {
  }

  lemma CentreAlgebra(q: real, s: real, n: real, m: real, c: real)
    requires n > 0.0 && Product(m, n) == s
    ensures Quadratic(q, s, n, c) == Quadratic(q, s, n, m) + Product(n, Product(c - m, c - m))
    ensures Product(n, Product(c - m, c - m)) >= 0.0
  {
    var d := c - m;
    assert d * d >= 0.0;
    assert q - 2.0 * c * s + c * c * n == (q - 2.0 * m * s + m * m * n) + n * (c - m) * (c - m);
  }

  /** A split of at least one pixel each side has both sizes positive. */
  lemma SplitSizes(data: seq<Byte>, group: Group)
    requires Splits(data, group)
    ensures Size(data, group) >= 1.0 && Size(data, Not(group)) >= 1.0
  {
    SumCounts(data, group, |data|);
    SumCounts(data, Not(group), |data|);
    var i :| 0 <= i < |data| && !group(i);
    assert Not(group)(i);
  }

  ghost const ALL: Group := i => true

  /**
   The scatter inside the classes and the score between them add up to the scatter of all pixels:
   a larger score is a smaller scatter, whatever the split.
   */
  lemma BetweenComplementsWithin(data: seq<Byte>, group: Group)
    requires Splits(data, group)
    ensures Size(data, ALL) > 0.0
    ensures Product(Size(data, ALL), Within(data, group)) + Between(data, group) == Product(Size(data, ALL), Scatter(data, ALL))
  {
    SplitSizes(data, group);
    var other := Not(group);
    SumOfDisjoint(data, group, other, ALL, ONE, |data|);
    SumOfDisjoint(data, group, other, ALL, VALUE, |data|);
    SumOfDisjoint(data, group, other, ALL, SQUARE, |data|);
    hide Quadratic, Mean, Score, Product, From;
    SumLinear(data, group, Mean(data, group), |data|);
    SumLinear(data, other, Mean(data, other), |data|);
    SumLinear(data, ALL, Mean(data, ALL), |data|);
    MeanTimesSize(data, group);
    MeanTimesSize(data, other);
    MeanTimesSize(data, ALL);
    VarianceAlgebra(Sum(data, group, SQUARE, |data|), Total(data, group), Size(data, group),
                    Sum(data, other, SQUARE, |data|), Total(data, other), Size(data, other),
                    Mean(data, group), Mean(data, other), Mean(data, ALL));
  }

  lemma VarianceAlgebra(q1: real, s1: real, n1: real, q2: real, s2: real, n2: real, a: real, b: real, m: real)
    requires Product(a, n1) == s1 && Product(b, n2) == s2 && Product(m, n1 + n2) == s1 + s2
    ensures Product(n1 + n2, Quadratic(q1, s1, n1, a) + Quadratic(q2, s2, n2, b)) + Score(n1, n2, a, b)
         == Product(n1 + n2, Quadratic(q1 + q2, s1 + s2, n1 + n2, m))
  {
    var n, q := n1 + n2, q1 + q2;
    assert a * s1 == a * a * n1 && b * s2 == b * b * n2;
    assert m * (s1 + s2) == m * (m * n);
    assert n * (m * (m * n)) == (m * n) * (m * n);
    assert (m * n) * (m * n) == (a * n1 + b * n2) * (a * n1 + b * n2);
    assert (n1 + n2) * ((q1 - 2.0 * a * s1 + a * a * n1) + (q2 - 2.0 * b * s2 + b * b * n2)) + n1 * n2 * (a - b) * (a - b)
        == (n1 + n2) * ((q1 + q2) - 2.0 * m * (s1 + s2) + m * m * (n1 + n2));
  }
}
