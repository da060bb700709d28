/** The raster handed to the recognizer, its limits and its coordinates. */
module Raster {
  import opened Reachability

  const MAX_SIDE := 1600
  const MAX_PIXELS := 1600 * 1600
  const MAX_COMPONENTS := 20_000
  const MAX_CANDIDATES := 10_000
  const MAX_FIT_PIXELS := 10_000_000

  type Byte = v: int | 0 <= v < 256

  datatype RecognitionError = InvalidRaster | SourceTooComplex | UnsupportedContrast

  datatype DetectedShape = Round | Rectangle | Oval | Circle

  /** An oriented grayscale raster, row after row. */
  datatype PreparedLayoutSource = PreparedLayoutSource(data: seq<Byte>, width: int, height: int, channels: int) {
    predicate Valid() {
      && 1 <= width <= MAX_SIDE
      && 1 <= height <= MAX_SIDE
      && width * height <= MAX_PIXELS
      && channels == 1
      && |data| == width * height
    }
  }

  function Column(width: int, index: int): (x: int)
    requires width > 0
    ensures 0 <= x < width
  {
    index % width
  }

  function Row(width: int, index: int): (y: int)
    requires width > 0
  {
    index / width
  }

  /** Row-major indices and (column, row) pairs determine each other. */
  lemma IndexOfCell(width: int, x: int, y: int)
    requires 0 <= x < width && 0 <= y
    ensures Column(width, y * width + x) == x && Row(width, y * width + x) == y
  {
    assert (y * width + x) - y * width == x;
    var q, r := (y * width + x) / width, (y * width + x) % width;
    assert q * width + r == y * width + x;
    SameQuotient(width, q, r, y, x);
  }

  lemma MultipleBounds(width: int, d: int)
    requires width > 0
    ensures d >= 1 ==> d * width >= width
    ensures d <= -1 ==> d * width <= -width
  {
    if d >= 1 {
      assert (d - 1) * width >= 0;
    } else if d <= -1 {
      assert (d + 1) * width <= 0;
    }
  }

  lemma SameQuotient(width: int, q: int, r: int, y: int, x: int)
    requires width > 0 && 0 <= r < width && 0 <= x < width
    requires q * width + r == y * width + x
    ensures q == y && r == x
  {
    var d := q - y;
    assert d * width == q * width - y * width;
    MultipleBounds(width, d);
  }

  lemma CellOfIndex(width: int, height: int, index: int)
    requires width > 0 && 0 <= index < width * height
    ensures 0 <= Row(width, index) < height
    ensures index == Row(width, index) * width + Column(width, index)
  {
    var y := Row(width, index);
    assert index == y * width + Column(width, index);
    assert (y - height) * width == y * width - height * width;
    MultipleBounds(width, y);
    MultipleBounds(width, y - height);
  }

  lemma CellInRange(width: int, height: int, x: int, y: int)
    requires 0 <= x < width && 0 <= y < height
    ensures 0 <= y * width + x < width * height
  {
    NotNegative(height - 1 - y, width);
    NotNegative(y, width);
    assert (height - 1 - y) * width == height * width - width - y * width;
  }

  lemma {:induction false} NotNegative(a: nat, b: nat)
    ensures a * b >= 0
  {
    if a > 0 {
      NotNegative(a - 1, b);
      assert a * b == (a - 1) * b + b;
    }
  }

  /** The eight neighbours of a pixel, and the pixel itself. */
  predicate Adjacent8(width: int, i: int, j: int)
    requires width > 0
  {
    && -1 <= Column(width, i) - Column(width, j) <= 1
    && -1 <= Row(width, i) - Row(width, j) <= 1
  }

  predicate IsDark(data: seq<Byte>, threshold: int, i: int) {
    0 <= i < |data| && data[i] <= threshold
  }

  /** Dark pixels joined through their eight neighbours. */
  ghost function DarkGraph(data: seq<Byte>, width: int, threshold: int): (g: Graph<int>)
    requires width > 0
    ensures Symmetric(g)
  {
    Graph(i => IsDark(data, threshold, i), (i, j) => Adjacent8(width, i, j))
  }
}
