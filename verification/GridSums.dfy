/** Sums over the cells of a box, row by row, as the loops of fitContour add them up. */
module GridSums {

  type Weight = (int, int) -> real

  ghost function RowSum(f: Weight, y: int, n: nat): real {
    if n == 0 then 0.0 else RowSum(f, y, n - 1) + f(n - 1, y)
  }

  ghost function GridSum(f: Weight, width: nat, rows: nat): real {
    if rows == 0 then 0.0 else GridSum(f, width, rows - 1) + RowSum(f, rows - 1, width)
  }

  lemma {:induction false} RowSumMonotone(f: Weight, g: Weight, y: int, n: nat)
    requires forall x | 0 <= x < n :: f(x, y) <= g(x, y)
    ensures RowSum(f, y, n) <= RowSum(g, y, n)
  {
    if n > 0 {
      RowSumMonotone(f, g, y, n - 1);
    }
  }

  lemma {:induction false} GridSumMonotone(f: Weight, g: Weight, width: nat, rows: nat)
    requires forall x, y | 0 <= x < width && 0 <= y < rows :: f(x, y) <= g(x, y)
    ensures GridSum(f, width, rows) <= GridSum(g, width, rows)
  {
    if rows > 0 {
      GridSumMonotone(f, g, width, rows - 1);
      RowSumMonotone(f, g, rows - 1, width);
    }
  }

  lemma {:induction false} RowSumConstant(f: Weight, c: real, y: int, n: nat)
    requires forall x | 0 <= x < n :: f(x, y) == c
    ensures RowSum(f, y, n) == c * n as real
  {
    if n > 0 {
      RowSumConstant(f, c, y, n - 1);
      OnceMore(c, n);
    }
  }

  lemma OnceMore(a: real, n: nat)
    requires n > 0
    ensures a * n as real == a * (n - 1) as real + a
  {
    var r := (n - 1) as real;
    assert n as real == r + 1.0;
    Distribute(a, r);
  }

  lemma Distribute(a: real, r: real)
    ensures a * (r + 1.0) == a * r + a
  {
  }

  lemma {:induction false} GridSumConstant(f: Weight, c: real, width: nat, rows: nat)
    requires forall x, y | 0 <= x < width && 0 <= y < rows :: f(x, y) == c
    ensures GridSum(f, width, rows) == c * width as real * rows as real
  {
    if rows > 0 {
      GridSumConstant(f, c, width, rows - 1);
      RowSumConstant(f, c, rows - 1, width);
      OnceMore(c * width as real, rows);
    }
  }

  /** Sums are linear: weights that combine cell by cell combine in the sum. */
  lemma {:induction false} RowSumLinear(f: Weight, g: Weight, h: Weight, k: Weight, a: real, b: real, c: real, y: int, n: nat)
    requires forall x | 0 <= x < n :: k(x, y) == a * f(x, y) + b * g(x, y) + c * h(x, y)
    ensures RowSum(k, y, n) == a * RowSum(f, y, n) + b * RowSum(g, y, n) + c * RowSum(h, y, n)
  {
    if n > 0 {
      var m := n - 1;
      OneMoreCell(f, y, m);
      OneMoreCell(g, y, m);
      OneMoreCell(h, y, m);
      OneMoreCell(k, y, m);
      hide *;
      RowSumLinear(f, g, h, k, a, b, c, y, m);
      Distribute3(a, b, c, RowSum(f, y, m), f(m, y), RowSum(g, y, m), g(m, y), RowSum(h, y, m), h(m, y));
    }
  }

  lemma OneMoreCell(f: Weight, y: int, n: nat)
    ensures RowSum(f, y, n + 1) == RowSum(f, y, n) + f(n, y)
  {
  }

  lemma Distribute3(a: real, b: real, c: real, s: real, s': real, t: real, t': real, u: real, u': real)
    ensures a * (s + s') + b * (t + t') + c * (u + u') == (a * s + b * t + c * u) + (a * s' + b * t' + c * u')
  {
  }

  lemma {:induction false} GridSumLinear(f: Weight, g: Weight, h: Weight, k: Weight, a: real, b: real, c: real, width: nat, rows: nat)
    requires forall x, y | 0 <= x < width && 0 <= y < rows :: k(x, y) == a * f(x, y) + b * g(x, y) + c * h(x, y)
    ensures GridSum(k, width, rows) == a * GridSum(f, width, rows) + b * GridSum(g, width, rows) + c * GridSum(h, width, rows)
  {
    if rows > 0 {
      var last := rows - 1;
      OneMoreRow(f, width, last);
      OneMoreRow(g, width, last);
      OneMoreRow(h, width, last);
      OneMoreRow(k, width, last);
      hide *;
      GridSumLinear(f, g, h, k, a, b, c, width, last);
      RowSumLinear(f, g, h, k, a, b, c, last, width);
      Distribute3(a, b, c, GridSum(f, width, last), RowSum(f, last, width), GridSum(g, width, last),
                  RowSum(g, last, width), GridSum(h, width, last), RowSum(h, last, width));
    }
  }

  lemma OneMoreRow(f: Weight, width: nat, rows: nat)
    ensures GridSum(f, width, rows + 1) == GridSum(f, width, rows) + RowSum(f, rows, width)
  {
  }
}
