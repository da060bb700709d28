/** layout-interpreter.ts: geometry suggests what each symbol is, and which table or section it belongs to. */
module Interpreter {
  import opened Results
  import opened Numbers
  import opened Sequences
  import opened Raster
  import opened Extraction
  import opened StableSort

  /** A symbol with a proper extent, as the extraction yields them. */
  type Symbol = c: ShapeCandidate | c.width > 0.0 && c.height > 0.0
    witness ShapeCandidate("", 0.0, 0.0, 1.0, 1.0, None, 0.0)

  /** Math.hypot is a parameter: nothing below depends on its values. */
  type Hypot = (real, real) -> real

  datatype Gap = Infinite | Finite(distance: real)

  function Abs(a: real): real { if a >= 0.0 then a else -a }

  function Area(s: Symbol): (a: real)
    ensures a > 0.0
  {
    s.width * s.height
  }

  function Diameter(s: Symbol): (d: real)
    ensures d > 0.0
  {
    RealMax(s.width, s.height)
  }

  predicate IsElliptic(s: Symbol) {
    s.shape == Some(Round) || s.shape == Some(Oval)
  }

  /** The farthest reach of `inner` from the centre of `outer`, along x and along y. */
  function ReachX(outer: Symbol, inner: Symbol): real { Abs(outer.x - inner.x) + inner.width / 2.0 }
  function ReachY(outer: Symbol, inner: Symbol): real { Abs(outer.y - inner.y) + inner.height / 2.0 }

  predicate Contains(outer: Symbol, inner: Symbol) {
    var dx, dy := ReachX(outer, inner), ReachY(outer, inner);
    if IsElliptic(outer) then Square(dx / (outer.width / 2.0)) + Square(dy / (outer.height / 2.0)) < 1.0
    else dx < outer.width / 2.0 && dy < outer.height / 2.0
  }

  predicate SimilarSize(a: Symbol, b: Symbol) {
    RealMax(a.width / b.width, b.width / a.width) <= 1.35 && RealMax(a.height / b.height, b.height / a.height) <= 1.35
  }

  function BodyGap(hypot: Hypot, table: Symbol, seat: Symbol): Gap {
    var dx, dy := Abs(table.x - seat.x), Abs(table.y - seat.y);
    if IsElliptic(table) then
      var radius := hypot(dx / (table.width / 2.0), dy / (table.height / 2.0));
      if radius <= 1.0 then Infinite else Finite(hypot(dx, dy) * (1.0 - 1.0 / radius))
    else if dx <= table.width / 2.0 && dy <= table.height / 2.0 then Infinite
    else Finite(hypot(RealMax(0.0, dx - table.width / 2.0), RealMax(0.0, dy - table.height / 2.0)))
  }

  // ---------------------------------------------------------------- containment

  lemma RatioSquares(a: real, b: real, h: real)
    requires h > 0.0 && 0.0 <= a <= b
    ensures 0.0 <= Square(a / h) <= Square(b / h)
    ensures Square(b / h) < 1.0 ==> b < h
  {
    hide Square;
    var p, q := a / h, b / h;
    assert p * h == a && q * h == b;
    assert p >= 0.0 && q >= 0.0;
    assert (q - p) * h >= 0.0;
    assert p <= q;
    SquareMonotone(p, q);
    SquareBelowOne(q, h, b);
  }

  lemma SquareMonotone(p: real, q: real)
    requires 0.0 <= p <= q
    ensures 0.0 <= Square(p) <= Square(q)
  {
    assert Square(q) - Square(p) == (q - p) * (q + p);
  }

  lemma SquareBelowOne(q: real, h: real, b: real)
    requires q >= 0.0 && h > 0.0 && q * h == b
    ensures Square(q) < 1.0 ==> b < h
  {
    if q < 1.0 {
      assert (1.0 - q) * h > 0.0;
    } else {
      SquareMonotone(1.0, q);
    }
  }

  lemma ContainedReach(outer: Symbol, inner: Symbol)
    requires Contains(outer, inner)
    ensures ReachX(outer, inner) < outer.width / 2.0 && ReachY(outer, inner) < outer.height / 2.0
  {
    if IsElliptic(outer) {
      RatioSquares(0.0, ReachX(outer, inner), outer.width / 2.0);
      RatioSquares(0.0, ReachY(outer, inner), outer.height / 2.0);
    }
  }

  lemma ShorterReachIsContained(outer: Symbol, inner: Symbol, deeper: Symbol)
    requires Contains(outer, inner)
    requires ReachX(outer, deeper) <= ReachX(outer, inner) && ReachY(outer, deeper) <= ReachY(outer, inner)
    ensures Contains(outer, deeper)
  {
    if IsElliptic(outer) {
      RatioSquares(ReachX(outer, deeper), ReachX(outer, inner), outer.width / 2.0);
      RatioSquares(ReachY(outer, deeper), ReachY(outer, inner), outer.height / 2.0);
    }
  }

  lemma ContainedIsTransitive(a: Symbol, b: Symbol, c: Symbol)
    requires Contains(a, b) && Contains(b, c)
    ensures Contains(a, c)
  {
    ContainedReach(b, c);
    hide Contains;
    ShorterReachIsContained(a, b, c);
  }

  /** Containment is irreflexive and transitive, whatever the mix of shapes, and a container has the larger area. */
  lemma ContainmentIsStrictOrder(a: Symbol, b: Symbol, c: Symbol)
    ensures !Contains(a, a)
    ensures Contains(a, b) && Contains(b, c) ==> Contains(a, c)
    ensures Contains(a, b) ==> Area(a) > Area(b)
  {
    if Contains(a, a) {
      ContainedReach(a, a);
    }
    if Contains(a, b) {
      ContainedReach(a, b);
      LargerArea(a, b);
      if Contains(b, c) {
        ContainedIsTransitive(a, b, c);
      }
    }
  }

  lemma LargerArea(a: Symbol, b: Symbol)
    requires b.width < a.width && b.height < a.height
    ensures Area(a) > Area(b)
  {
    assert (a.width - b.width) * b.height > 0.0;
    assert a.width * (a.height - b.height) > 0.0;
    assert a.width * a.height - b.width * b.height
        == (a.width - b.width) * b.height + a.width * (a.height - b.height);
  }

  // ---------------------------------------------------------------- classification

  datatype Kind = SECTION | TABLE | SEAT | UNKNOWN

  datatype Plan = Plan(sections: seq<Symbol>, bodies: seq<Symbol>, seats: seq<Symbol>, tables: seq<Symbol>)

  datatype Family = Family(members: seq<Symbol>, area: real)

  ghost predicate DistinctIds(candidates: seq<Symbol>) {
    forall j, k | 0 <= j < k < |candidates| :: candidates[j].id != candidates[k].id
  }

  function Ids(symbols: seq<Symbol>): set<string> {
    set s | s in symbols :: s.id
  }

  function Children(c: Symbol, fitted: seq<Symbol>): seq<Symbol> {
    Filter(fitted, (other: Symbol) => other != c && Contains(c, other))
  }

  predicate IsSection(c: Symbol, fitted: seq<Symbol>, width: int, height: int) {
    var children := Children(c, fitted);
    && |children| >= 3
    && (exists child | child in children :: Area(c) >= Area(child) * 4.0)
    && Area(c) >= width as real * height as real * 0.08
  }

  function Families(bodies: seq<Symbol>, all: seq<Symbol>): (families: seq<Family>)
    ensures |families| == |bodies|
    ensures forall k | 0 <= k < |bodies| ::
      families[k] == Family(Filter(all, (other: Symbol) => SimilarSize(bodies[k], other)), Area(bodies[k]))
  {
    seq(|bodies|, k requires 0 <= k < |bodies| =>
      Family(Filter(all, (other: Symbol) => SimilarSize(bodies[k], other)), Area(bodies[k])))
  }

  predicate FamilyBefore(a: Family, b: Family) {
    |a.members| > |b.members| || (|a.members| == |b.members| && a.area < b.area)
  }

  /** The members of the largest family of similar bodies, the smaller body winning ties. */
  function Repeated(bodies: seq<Symbol>): (repeated: seq<Symbol>)
    ensures forall s | s in repeated :: s in bodies
  {
    var families := Families(bodies, bodies);
    if families == [] then []
    else
      var sorted := Sort(FamilyBefore, families);
      SortKeeps(FamilyBefore, families);
      assert sorted[0] in families;
      sorted[0].members
  }

  predicate Eligible(hypot: Hypot, table: Symbol, seat: Symbol) {
    Area(table) >= Area(seat) * 4.0 && match BodyGap(hypot, table, seat)
      case Infinite => false
      case Finite(gap) => gap <= Diameter(seat) * 2.5
  }

  predicate IsTable(hypot: Hypot, body: Symbol, seats: seq<Symbol>) {
    body.id !in Ids(seats) && |Filter(seats, (seat: Symbol) => Eligible(hypot, body, seat))| >= 3
  }

  function Classify(hypot: Hypot, candidates: seq<Symbol>, width: int, height: int): Plan {
    var fitted := Filter(candidates, (c: Symbol) => c.shape.Some?);
    var sections := Filter(fitted, (c: Symbol) => IsSection(c, fitted, width, height));
    var bodies := Filter(fitted, (c: Symbol) => c.id !in Ids(sections));
    var repeated := Repeated(bodies);
    var seats := if |repeated| >= 3 then repeated else [];
    Plan(sections, bodies, seats, Filter(bodies, (body: Symbol) => IsTable(hypot, body, seats)))
  }

  function KindOf(plan: Plan, id: string): Kind {
    if id in Ids(plan.sections) then SECTION
    else if id in Ids(plan.tables) then TABLE
    else if id in Ids(plan.seats) then SEAT
    else UNKNOWN
  }

  /** No id plays two roles, the kind of an id is its role, and every role is played by a candidate. */
  lemma RolesAreDisjoint(hypot: Hypot, candidates: seq<Symbol>, width: int, height: int)
    ensures var plan := Classify(hypot, candidates, width, height);
      && Ids(plan.sections) !! Ids(plan.tables) !! Ids(plan.seats)
      && (forall s | s in plan.sections || s in plan.tables || s in plan.seats :: s in candidates && s.shape.Some?)
      && forall id ::
        && (KindOf(plan, id) == SECTION <==> id in Ids(plan.sections))
        && (KindOf(plan, id) == TABLE <==> id in Ids(plan.tables))
        && (KindOf(plan, id) == SEAT <==> id in Ids(plan.seats))
  {
    var plan := Classify(hypot, candidates, width, height);
    forall id | id in Ids(plan.tables)
      ensures id !in Ids(plan.sections) && id !in Ids(plan.seats)
    {
      var t :| t in plan.tables && t.id == id;
    }
    forall id | id in Ids(plan.seats)
      ensures id !in Ids(plan.sections)
    {
      var t :| t in plan.seats && t.id == id;
    }
  }

  /** The bodies of similar size. */
  function FamilyOf(c: Symbol, bodies: seq<Symbol>): seq<Symbol> {
    Filter(bodies, (other: Symbol) => SimilarSize(c, other))
  }

  /** No body has a larger family, nor one as large that is smaller itself. */
  ghost predicate HasBestFamily(c: Symbol, bodies: seq<Symbol>) {
    && c in bodies
    && forall b | b in bodies ::
      |FamilyOf(b, bodies)| < |FamilyOf(c, bodies)| || (|FamilyOf(b, bodies)| == |FamilyOf(c, bodies)| && Area(c) <= Area(b))
  }

  lemma RepeatedIsBestFamily(bodies: seq<Symbol>) returns (c: Symbol)
    requires bodies != []
    ensures HasBestFamily(c, bodies) && Repeated(bodies) == FamilyOf(c, bodies)
  {
    var families := Families(bodies, bodies);
    var sorted := Sort(FamilyBefore, families);
    SortKeeps(FamilyBefore, families);
    SortSorted(FamilyBefore, families);
    assert sorted[0] in families;
    var i :| 0 <= i < |bodies| && families[i] == sorted[0];
    c := bodies[i];
    forall b | b in bodies
      ensures |FamilyOf(b, bodies)| < |FamilyOf(c, bodies)| || (|FamilyOf(b, bodies)| == |FamilyOf(c, bodies)| && Area(c) <= Area(b))
    {
      var k :| 0 <= k < |bodies| && bodies[k] == b;
      assert families[k] in sorted;
      var j :| 0 <= j < |sorted| && sorted[j] == families[k];
      assert j == 0 || !FamilyBefore(sorted[j], sorted[0]);
    }
  }

  /**
   The seats are the largest family of bodies of similar size, that of the smallest body when several are as large; there
   are none when no family has three members.
   */
  lemma SeatsAreLargestFamily(hypot: Hypot, candidates: seq<Symbol>, width: int, height: int)
    ensures var plan := Classify(hypot, candidates, width, height);
      if exists b :: b in plan.bodies && |FamilyOf(b, plan.bodies)| >= 3
      then exists c :: HasBestFamily(c, plan.bodies) && plan.seats == FamilyOf(c, plan.bodies)
      else plan.seats == []
  {
    var plan := Classify(hypot, candidates, width, height);
    SeatsAreRepeated(hypot, candidates, width, height);
    hide *;
    RepeatedIsLargest(plan.bodies);
  }

  lemma SeatsAreRepeated(hypot: Hypot, candidates: seq<Symbol>, width: int, height: int)
    ensures var plan := Classify(hypot, candidates, width, height);
      plan.seats == if |Repeated(plan.bodies)| >= 3 then Repeated(plan.bodies) else []
  {
    hide IsSection, IsTable, Repeated;
  }

  lemma RepeatedIsLargest(bodies: seq<Symbol>)
    ensures if exists b :: b in bodies && |FamilyOf(b, bodies)| >= 3
      then |Repeated(bodies)| >= 3 && exists c :: HasBestFamily(c, bodies) && Repeated(bodies) == FamilyOf(c, bodies)
      else |Repeated(bodies)| < 3
  {
    if bodies == [] {
      NothingRepeated();
    } else {
      var c := RepeatedIsBestFamily(bodies);
      hide FamilyOf, Repeated;
      if b :| b in bodies && |FamilyOf(b, bodies)| >= 3 {
        assert |FamilyOf(c, bodies)| >= 3;
      }
    }
  }

  lemma NothingRepeated()
    ensures Repeated([]) == []
  {
  }
}
