/**
 The filled silhouette of a component, stated in the unbounded plane: a cell belongs to it unless a
 4-connected path that avoids the component leads from the cell out of the component's box. The
 recognizer only looks at the box and one ring of padding around it; `PaddingIsEnough` proves that
 this finds the same cells.
 */
module Silhouette {
  import opened Reachability

  /** Column and row, counted from the upper left corner of the component's box. */
  type Cell = (int, int)

  predicate Adjacent4(p: Cell, q: Cell) {
    (p.0 == q.0 && (p.1 - q.1 == 1 || q.1 - p.1 == 1)) || (p.1 == q.1 && (p.0 - q.0 == 1 || q.0 - p.0 == 1))
  }

  predicate InBox(width: int, height: int, p: Cell) {
    0 <= p.0 < width && 0 <= p.1 < height
  }

  predicate InPaddedBox(width: int, height: int, p: Cell) {
    -1 <= p.0 <= width && -1 <= p.1 <= height
  }

  ghost predicate Within(cells: set<Cell>, width: int, height: int) {
    forall p | p in cells :: InBox(width, height, p)
  }

  ghost function PlaneGraph(cells: set<Cell>): (g: Graph<Cell>)
    ensures Symmetric(g)
  {
    Graph(p => p !in cells, (p, q) => Adjacent4(p, q))
  }

  ghost function PaddedGraph(width: int, height: int, cells: set<Cell>): (g: Graph<Cell>)
    ensures Symmetric(g)
  {
    Graph(p => InPaddedBox(width, height, p) && p !in cells, (p, q) => Adjacent4(p, q))
  }

  const CORNER: Cell := (-1, -1)

  /** The padded corner reaches `p` without touching the component: what the flood marks. */
  ghost predicate Exterior(width: int, height: int, cells: set<Cell>, p: Cell) {
    Joined(PaddedGraph(width, height, cells), CORNER, p)
  }

  /** Some path in the plane leads from `p` out of the box without touching the component. */
  ghost predicate Escapes(width: int, height: int, cells: set<Cell>, p: Cell) {
    exists q :: !InBox(width, height, q) && Joined(PlaneGraph(cells), p, q)
  }

  /** The component and the holes it encloses. */
  ghost function Filled(width: int, height: int, cells: set<Cell>): set<Cell> {
    set x, y | 0 <= x < width && 0 <= y < height && !Escapes(width, height, cells, (x, y)) :: (x, y)
  }

  lemma {:induction false} WalkRow(width: int, height: int, cells: set<Cell>, y: int, a: int, b: int)
    requires a <= b && Exterior(width, height, cells, (a, y))
    requires forall x | a <= x <= b :: InPaddedBox(width, height, (x, y)) && (x, y) !in cells
    ensures Exterior(width, height, cells, (b, y))
    decreases b - a
  {
    if a < b {
      WalkRow(width, height, cells, y, a, b - 1);
      JoinedStep(PaddedGraph(width, height, cells), CORNER, (b - 1, y), (b, y));
    }
  }

  lemma {:induction false} WalkColumn(width: int, height: int, cells: set<Cell>, x: int, a: int, b: int)
    requires a <= b && Exterior(width, height, cells, (x, a))
    requires forall y | a <= y <= b :: InPaddedBox(width, height, (x, y)) && (x, y) !in cells
    ensures Exterior(width, height, cells, (x, b))
    decreases b - a
  {
    if a < b {
      WalkColumn(width, height, cells, x, a, b - 1);
      JoinedStep(PaddedGraph(width, height, cells), CORNER, (x, b - 1), (x, b));
    }
  }

  /** The ring of padding is free, and the corner reaches all of it. */
  lemma RingIsExterior(width: int, height: int, cells: set<Cell>, p: Cell)
    requires width > 0 && height > 0 && Within(cells, width, height)
    requires InPaddedBox(width, height, p) && !InBox(width, height, p)
    ensures Exterior(width, height, cells, p)
  {
    JoinedSelf(PaddedGraph(width, height, cells), CORNER);
    hide Exterior;
    var (x, y) := p;
    if y == -1 {
      WalkRow(width, height, cells, -1, -1, x);
    } else if x == -1 {
      WalkColumn(width, height, cells, -1, -1, y);
    } else if x == width {
      WalkRow(width, height, cells, -1, -1, width);
      WalkColumn(width, height, cells, width, -1, y);
    } else {
      WalkColumn(width, height, cells, -1, -1, height);
      WalkRow(width, height, cells, height, -1, x);
    }
  }

  function Clamp(x: int, hi: int): int {
    if x < -1 then -1 else if x > hi then hi else x
  }

  /** The plane retracts onto the padded box: steps become steps or stand still, and free cells stay free. */
  function Retract(width: int, height: int, p: Cell): Cell {
    (Clamp(p.0, width), Clamp(p.1, height))
  }

  lemma RetractStep(width: int, height: int, cells: set<Cell>, x: Cell, y: Cell)
    requires width > 0 && height > 0 && Within(cells, width, height) && y !in cells && Adjacent4(x, y)
    ensures InPaddedBox(width, height, Retract(width, height, y)) && Retract(width, height, y) !in cells
    ensures Retract(width, height, x) == Retract(width, height, y)
         || Adjacent4(Retract(width, height, x), Retract(width, height, y))
  {
    if InPaddedBox(width, height, y) {
      assert Retract(width, height, y) == y;
    } else {
      assert !InBox(width, height, Retract(width, height, y));
    }
  }

  lemma JoinedWhenRetracted(width: int, height: int, cells: set<Cell>, p: Cell, q: Cell)
    requires width > 0 && height > 0 && Within(cells, width, height)
    requires InPaddedBox(width, height, p) && Joined(PlaneGraph(cells), p, q)
    ensures Joined(PaddedGraph(width, height, cells), p, Retract(width, height, q))
  {
    var plane, padded := PlaneGraph(cells), PaddedGraph(width, height, cells);
    var inside := x => Joined(padded, p, Retract(width, height, x));
    JoinedOpen(plane, p, q);
    JoinedSelf(padded, p);
    assert Retract(width, height, p) == p;
    hide Joined, Retract, Within, InPaddedBox;
    forall x, y | inside(x) && plane.open(x) && plane.open(y) && plane.adjacent(x, y)
      ensures inside(y)
    {
      RetractStep(width, height, cells, x, y);
      if Retract(width, height, x) != Retract(width, height, y) {
        JoinedStep(padded, p, Retract(width, height, x), Retract(width, height, y));
      }
    }
    JoinedStays(plane, inside, p, q);
  }

  lemma JoinedInPlane(width: int, height: int, cells: set<Cell>, p: Cell, q: Cell)
    requires Joined(PaddedGraph(width, height, cells), p, q)
    ensures Joined(PlaneGraph(cells), p, q)
  {
    var path :| PathBetween(PaddedGraph(width, height, cells), path, p, q);
    assert PathBetween(PlaneGraph(cells), path, p, q);
  }

  /** One ring of padding decides exactly which cells escape in the whole plane. */
  lemma PaddingIsEnough(width: int, height: int, cells: set<Cell>, p: Cell)
    requires width > 0 && height > 0 && Within(cells, width, height) && InPaddedBox(width, height, p)
    ensures Exterior(width, height, cells, p) <==> Escapes(width, height, cells, p)
  {
    var plane, padded := PlaneGraph(cells), PaddedGraph(width, height, cells);
    if Exterior(width, height, cells, p) {
      JoinedInPlane(width, height, cells, CORNER, p);
      JoinedSymmetric(plane, CORNER, p);
    }
    if Escapes(width, height, cells, p) {
      var q :| !InBox(width, height, q) && Joined(plane, p, q);
      var r := Retract(width, height, q);
      JoinedWhenRetracted(width, height, cells, p, q);
      RingIsExterior(width, height, cells, r);
      JoinedSymmetric(padded, p, r);
      JoinedTransitive(padded, CORNER, r, p);
    }
  }

  lemma FewerObstacles(cells: set<Cell>, more: set<Cell>, p: Cell, q: Cell)
    requires cells <= more && Joined(PlaneGraph(more), p, q)
    ensures Joined(PlaneGraph(cells), p, q)
  {
    var path :| PathBetween(PlaneGraph(more), path, p, q);
    assert PathBetween(PlaneGraph(cells), path, p, q);
  }

  /** Filling keeps the component, respects inclusion, and leaves no hole to fill. */
  lemma FillIsClosure(width: int, height: int, cells: set<Cell>, more: set<Cell>)
    requires Within(cells, width, height) && Within(more, width, height) && cells <= more
    ensures cells <= Filled(width, height, cells) <= Filled(width, height, more)
    ensures Filled(width, height, Filled(width, height, cells)) == Filled(width, height, cells)
  {
    var filled := Filled(width, height, cells);
    forall p | p in cells
      ensures p in filled
    {
      CellsAreFilled(width, height, cells, p);
    }
    forall p | p in filled
      ensures p in Filled(width, height, more)
    {
      if Escapes(width, height, more, p) {
        var q :| !InBox(width, height, q) && Joined(PlaneGraph(more), p, q);
        FewerObstacles(cells, more, p, q);
      }
    }
    forall x, y | InBox(width, height, (x, y))
      ensures Escapes(width, height, filled, (x, y)) <==> Escapes(width, height, cells, (x, y))
    {
      EscapeAvoidsHoles(width, height, cells, (x, y));
    }
  }

  lemma CellsAreFilled(width: int, height: int, cells: set<Cell>, p: Cell)
    requires Within(cells, width, height) && p in cells
    ensures p in Filled(width, height, cells)
  {
    forall q
      ensures !Joined(PlaneGraph(cells), p, q)
    {
      if Joined(PlaneGraph(cells), p, q) {
        JoinedOpen(PlaneGraph(cells), p, q);
      }
    }
    assert p == (p.0, p.1);
  }

  /** A way out never crosses a hole, so filling the holes closes no way out. */
  lemma EscapeAvoidsHoles(width: int, height: int, cells: set<Cell>, p: Cell)
    requires Within(cells, width, height)
    ensures Escapes(width, height, Filled(width, height, cells), p) <==> Escapes(width, height, cells, p)
  {
    var filled := Filled(width, height, cells);
    var plane, blocked := PlaneGraph(cells), PlaneGraph(filled);
    forall c | c in cells
      ensures c in filled
    {
      CellsAreFilled(width, height, cells, c);
    }
    if Escapes(width, height, filled, p) {
      var q :| !InBox(width, height, q) && Joined(blocked, p, q);
      FewerObstacles(cells, filled, p, q);
    }
    if Escapes(width, height, cells, p) {
      var q :| !InBox(width, height, q) && Joined(plane, p, q);
      var inside := x => Joined(blocked, q, x);
      JoinedSelf(blocked, q);
      JoinedSymmetric(plane, p, q);
      forall x, y | inside(x) && plane.open(x) && plane.open(y) && plane.adjacent(x, y)
        ensures inside(y)
      {
        FewerObstacles(cells, filled, q, x);
        JoinedStep(plane, q, x, y);
        JoinedSymmetric(plane, q, y);
        assert y == (y.0, y.1) && Escapes(width, height, cells, y);
        JoinedStep(blocked, q, x, y);
      }
      JoinedStays(plane, inside, q, p);
      JoinedSymmetric(blocked, q, p);
    }
  }
}
