/** geometry-engine.ts, the placements without angles: one position per table or seat, and none overlapping. */
module Placement {
  import opened Numbers
  import opened SeatPlan

  datatype Position = Position(x: real, y: real, rotation: real)

  const GRID_SIZE := 180.0
  const TABLE_SPACING := 200.0
  const SEAT_SPACING := 44.0

  /** Along one of the axes the two are at least `d` apart. */
  predicate Apart(p: Position, q: Position, d: real) {
    p.x - q.x >= d || q.x - p.x >= d || p.y - q.y >= d || q.y - p.y >= d
  }

  predicate Spread(positions: seq<Position>, d: real) {
    forall i, j | 0 <= i < j < |positions| :: Apart(positions[i], positions[j], d)
  }

  /** The least number whose square is at least `n`, searching from `c`. */
  function CeilSqrt(n: nat, c: nat): (r: nat)
    requires c == 0 || (c - 1) * (c - 1) < n
    ensures n <= r * r && (r == 0 || (r - 1) * (r - 1) < n)
    decreases n - c
  {
    if n <= c * c then c
    else
      assert c < n by {
        assert c <= c * c;
      }
      CeilSqrt(n, c + 1)
  }

  function Step(x0: real, i: nat, spacing: real): real {
    x0 + i as real * spacing
  }

  function GridPosition(cols: int, i: nat): Position
    requires cols > 0
  {
    Position(Step(-(cols as real * GRID_SIZE / 2.0), i % cols, GRID_SIZE), Step(-GRID_SIZE, i / cols, GRID_SIZE), 0.0)
  }

  function PlaceTablesGrid(n: nat): (positions: seq<Position>)
    ensures |positions| == n
  {
    var cols := CeilSqrt(n, 0);
    seq(n, i requires 0 <= i < n => GridPosition(cols, i))
  }

  /** A row of positions to the right of `x0`. */
  predicate InRow(p: Position, i: nat, x0: real, y: real, spacing: real) {
    p.x == Step(x0, i, spacing) && p.y == y
  }

  predicate IsRow(row: seq<Position>, x0: real, y: real, spacing: real) {
    forall i | 0 <= i < |row| :: InRow(row[i], i, x0, y, spacing)
  }

  method PlaceTablesU(n: nat) returns (positions: seq<Position>)
    ensures |positions| == n && Spread(positions, TABLE_SPACING)
    ensures var half := CeilDiv(n, 2);
      && 0 <= half <= n && IsRow(positions[..half], 0.0, -TABLE_SPACING, TABLE_SPACING) && IsRow(positions[half..], 0.0, TABLE_SPACING, TABLE_SPACING)
  {
    var half := CeilDiv(n, 2);
    var front, back := [], [];
    for i := 0 to half
      invariant |front| == i && IsRow(front, 0.0, -TABLE_SPACING, TABLE_SPACING)
    {
      front := front + [Position(i as real * TABLE_SPACING, -TABLE_SPACING, 0.0)];
    }
    for j := half to n
      invariant |back| == j - half && IsRow(back, 0.0, TABLE_SPACING, TABLE_SPACING)
    {
      back := back + [Position((j - half) as real * TABLE_SPACING, TABLE_SPACING, 0.0)];
    }
    positions := front + back;
    RowsAreSpread(front, back, 0.0, 0.0, -TABLE_SPACING, TABLE_SPACING, TABLE_SPACING);
  }

  method PlaceTablesHorseshoe(n: nat) returns (positions: seq<Position>)
    ensures |positions| == n && Spread(positions, TABLE_SPACING)
    ensures var top := CeilDiv(6 * n, 10);
      && 0 <= top <= n && IsRow(positions[..top], 0.0, 0.0, TABLE_SPACING)
      && IsRow(positions[top..], 0.5 * TABLE_SPACING, TABLE_SPACING, TABLE_SPACING)
  {
    var top := CeilDiv(6 * n, 10);
    var bottom := n - top;
    var upper, lower := [], [];
    for i := 0 to top
      invariant |upper| == i && IsRow(upper, 0.0, 0.0, TABLE_SPACING)
    {
      upper := upper + [Position(i as real * TABLE_SPACING, 0.0, 0.0)];
    }
    for j := 0 to bottom
      invariant |lower| == j && IsRow(lower, 0.5 * TABLE_SPACING, TABLE_SPACING, TABLE_SPACING)
    {
      lower := lower + [Position((j as real + 0.5) * TABLE_SPACING, TABLE_SPACING, 0.0)];
    }
    positions := upper + lower;
    RowsAreSpread(upper, lower, 0.0, 0.5 * TABLE_SPACING, 0.0, TABLE_SPACING, TABLE_SPACING);
  }

  /** Two banks of seats, each centred on the table, facing each other. */
  method PlaceSeatsGridBankStyle(count: int) returns (seats: seq<Position>)
    ensures |seats| == Max(0, count) && Spread(seats, SEAT_SPACING)
    ensures count >= 0 ==> var half := CeilDiv(count, 2);
      && 0 <= half <= count && IsRow(seats[..half], -(half as real / 2.0) * SEAT_SPACING, -60.0, SEAT_SPACING)
      && IsRow(seats[half..], -((count - half) as real / 2.0) * SEAT_SPACING, 60.0, SEAT_SPACING)
    ensures forall i | 0 <= i < |seats| :: seats[i].rotation == if i < CeilDiv(count, 2) then 180.0 else 0.0
  {
    if count < 0 {
      return [];
    }
    var half := CeilDiv(count, 2);
    var lower, upper := [], [];
    for i := 0 to half
      invariant |lower| == i && IsRow(lower, -(half as real / 2.0) * SEAT_SPACING, -60.0, SEAT_SPACING)
      invariant forall k | 0 <= k < i :: lower[k].rotation == 180.0
    {
      lower := lower + [Position((i as real - half as real / 2.0) * SEAT_SPACING, -60.0, 180.0)];
    }
    for i := half to count
      invariant |upper| == i - half && IsRow(upper, -((count - half) as real / 2.0) * SEAT_SPACING, 60.0, SEAT_SPACING)
      invariant forall k | 0 <= k < i - half :: upper[k].rotation == 0.0
    {
      var idx := i - half;
      upper := upper + [Position((idx as real - (count - half) as real / 2.0) * SEAT_SPACING, 60.0, 0.0)];
    }
    seats := lower + upper;
    RowsAreSpread(lower, upper, -(half as real / 2.0) * SEAT_SPACING, -((count - half) as real / 2.0) * SEAT_SPACING, -60.0, 60.0, SEAT_SPACING);
  }

  function PlaceSeatsRow(count: int, yOffset: real): (seats: seq<Position>)
    ensures |seats| == Max(0, count)
  {
    seq(Max(0, count), i requires 0 <= i => Position((i as real - count as real / 2.0) * SEAT_SPACING, yOffset, 0.0))
  }

  // ---------------------------------------------------------------- nothing overlaps

  /** By induction on the distance, so that only one step is ever added. */
  lemma {:induction false} StepsAreApart(x0: real, i: nat, j: nat, spacing: real)
    requires i < j && spacing > 0.0
    ensures Step(x0, j, spacing) - Step(x0, i, spacing) >= spacing
    decreases j
  {
    hide Step;
    OneStep(x0, j - 1, spacing);
    if i < j - 1 {
      StepsAreApart(x0, i, j - 1, spacing);
    }
  }

  lemma OneStep(x0: real, i: nat, spacing: real)
    ensures Step(x0, i + 1, spacing) == Step(x0, i, spacing) + spacing
  {
    assert (i + 1) as real * spacing == i as real * spacing + spacing;
  }

  lemma RowIsSpread(row: seq<Position>, x0: real, y: real, spacing: real)
    requires spacing > 0.0 && IsRow(row, x0, y, spacing)
    ensures Spread(row, spacing)
  {
    hide Step;
    forall i, j | 0 <= i < j < |row|
      ensures Apart(row[i], row[j], spacing)
    {
      assert InRow(row[i], i, x0, y, spacing) && InRow(row[j], j, x0, y, spacing);
      StepsAreApart(x0, i, j, spacing);
    }
  }

  lemma RowsAreSpread(a: seq<Position>, b: seq<Position>, x0: real, x1: real, y0: real, y1: real, spacing: real)
    requires spacing > 0.0 && IsRow(a, x0, y0, spacing) && IsRow(b, x1, y1, spacing) && y1 - y0 >= spacing
    ensures Spread(a + b, spacing)
  {
    RowIsSpread(a, x0, y0, spacing);
    RowIsSpread(b, x1, y1, spacing);
    forall i, j | 0 <= i < j < |a + b|
      ensures Apart((a + b)[i], (a + b)[j], spacing)
    {
      if i < |a| <= j {
        assert InRow(a[i], i, x0, y0, spacing) && InRow(b[j - |a|], j - |a|, x1, y1, spacing);
      }
    }
  }

  /** Tables on the grid stand a full cell apart, and within as many rows as the grid has columns. */
  lemma GridIsSpread(n: nat)
    ensures Spread(PlaceTablesGrid(n), GRID_SIZE)
    ensures forall i | 0 <= i < n :: i / CeilSqrt(n, 0) < CeilSqrt(n, 0)
  {
    var cols := CeilSqrt(n, 0);
    forall i, j | 0 <= i < j < n
      ensures Apart(GridPosition(cols, i), GridPosition(cols, j), GRID_SIZE)
    {
      CellsAreApart(cols, i, j);
    }
    forall i | 0 <= i < n
      ensures i / cols < cols
    {
      assert i < cols * cols;
      QuotientBelow(i, cols, cols);
    }
  }

  lemma QuotientBelow(i: nat, cols: int, rows: int)
    requires cols > 0 && i < rows * cols
    ensures i / cols < rows
  {
  }

  lemma CellsAreApart(cols: int, i: nat, j: nat)
    requires cols > 0 && i < j
    ensures Apart(GridPosition(cols, i), GridPosition(cols, j), GRID_SIZE)
  {
    hide Step;
    var p, q := GridPosition(cols, i), GridPosition(cols, j);
    if i / cols == j / cols {
      assert i == i / cols * cols + i % cols && j == j / cols * cols + j % cols;
      StepsAreApart(-(cols as real * GRID_SIZE / 2.0), i % cols, j % cols, GRID_SIZE);
    } else if i / cols < j / cols {
      StepsAreApart(-GRID_SIZE, i / cols, j / cols, GRID_SIZE);
    } else {
      StepsAreApart(-GRID_SIZE, j / cols, i / cols, GRID_SIZE);
    }
  }

  lemma SeatRowIsSpread(count: int, yOffset: real)
    ensures Spread(PlaceSeatsRow(count, yOffset), SEAT_SPACING)
  {
    var seats := PlaceSeatsRow(count, yOffset);
    forall i | 0 <= i < |seats|
      ensures InRow(seats[i], i, -(count as real / 2.0) * SEAT_SPACING, yOffset, SEAT_SPACING)
    {
    }
    RowIsSpread(seats, -(count as real / 2.0) * SEAT_SPACING, yOffset, SEAT_SPACING);
  }
}
