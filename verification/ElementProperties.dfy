/** What holds of every interpretation: the parent forest, the seat links and the seat counts. */
module ElementProperties {
  import opened Results
  import opened Sequences
  import opened Raster
  import opened Extraction
  import opened StableSort
  import opened Interpreter
  import opened Elements

  /** The element at `j` names the candidate at `k` as its parent. */
  ghost predicate IsParent(candidates: seq<Symbol>, r: Interpretation, j: int, k: int) {
    && 0 <= j < |r.elements| == |candidates| && 0 <= k < |candidates|
    && r.elements[j].parent == Some(candidates[k].id)
  }

  lemma SectionParentIsSmallest(sections: seq<Symbol>, c: Symbol)
    ensures SectionParent(sections, c) == None <==> forall s | s in sections && s.id != c.id :: !Contains(s, c)
    ensures SectionParent(sections, c) != None ==>
              exists p :: p in sections && p.id != c.id && Contains(p, c) && SectionParent(sections, c) == Some(p.id)
                && forall s | s in sections && s.id != c.id && Contains(s, c) :: Area(p) <= Area(s)
  {
    var around := Filter(sections, (s: Symbol) => s.id != c.id && Contains(s, c));
    SortKeeps(AreaBefore, around);
    SortSorted(AreaBefore, around);
    var enclosing := Enclosing(sections, c);
    hide Contains;
    if enclosing != [] {
      var p := enclosing[0];
      forall s | s in sections && s.id != c.id && Contains(s, c)
        ensures Area(p) <= Area(s)
      {
        assert s in enclosing;
        var j :| 0 <= j < |enclosing| && enclosing[j] == s;
        assert j == 0 || !AreaBefore(enclosing[j], enclosing[0]);
      }
    } else {
      forall s | s in sections && s.id != c.id
        ensures !Contains(s, c)
      {
        assert s !in enclosing;
      }
    }
  }

  /** A linked seat's table is one of the tables, and at least four times the seat. */
  lemma LinkIsEligible(hypot: Hypot, tables: seq<Symbol>, seat: Symbol)
    requires LinkOf(hypot, tables, seat).Linked?
    ensures var t := LinkOf(hypot, tables, seat).near.table; t in tables && Eligible(hypot, t, seat)
  {
    assert Nearby(hypot, tables, seat)[0] in Nearby(hypot, tables, seat);
  }

  /** The candidate that an element names as its parent: a section around it, or a table four times a seat. */
  ghost predicate ProperParent(r: Interpretation, candidates: seq<Symbol>, j: int, k: int)
    requires 0 <= j < |r.elements| == |candidates| && 0 <= k < |candidates|
  {
    || (r.elements[k].kind == SECTION && Contains(candidates[k], candidates[j]))
    || (r.elements[j].kind == SEAT && r.elements[k].kind == TABLE && Area(candidates[k]) >= 4.0 * Area(candidates[j]))
  }

  /** The parent's id comes from the table a seat is linked to, or from the smallest section around. */
  lemma ParentSource(hypot: Hypot, plan: Plan, c: Symbol, width: int, height: int) returns (p: Symbol)
    requires width > 0 && height > 0 && ElementOf(hypot, plan, c, width, height).parent != None
    ensures ElementOf(hypot, plan, c, width, height).parent == Some(p.id)
    ensures (p in plan.sections && Contains(p, c))
         || (KindOf(plan, c.id) == SEAT && p in plan.tables && Area(p) >= 4.0 * Area(c))
  {
    hide Contains, Eligible, SectionParent, LinkOf, Normalized;
    if KindOf(plan, c.id) == SEAT && LinkOf(hypot, plan.tables, c).Linked? {
      LinkIsEligible(hypot, plan.tables, c);
      p := LinkOf(hypot, plan.tables, c).near.table;
      EligibleArea(hypot, p, c);
    } else {
      SectionParentIsSmallest(plan.sections, c);
      p :| p in plan.sections && Contains(p, c) && SectionParent(plan.sections, c) == Some(p.id);
    }
  }

  /** Every parent named is the id of a candidate, and a proper parent. */
  lemma ParentExists(hypot: Hypot, candidates: seq<Symbol>, width: int, height: int, r: Interpretation, j: int)
    requires width > 0 && height > 0 && Interprets(hypot, candidates, width, height, r)
    requires 0 <= j < |candidates| && r.elements[j].parent != None
    ensures exists k :: IsParent(candidates, r, j, k) && ProperParent(r, candidates, j, k)
  {
    var plan, c := Classify(hypot, candidates, width, height), candidates[j];
    RolesAreDisjoint(hypot, candidates, width, height);
    var p := ParentSource(hypot, plan, c, width, height);
    hide Classify, Contains, ElementOf, LinkedSeats, AllWarnings, Area;
    assert p in candidates;
    var k :| 0 <= k < |candidates| && candidates[k] == p;
    assert p in plan.sections ==> p.id in Ids(plan.sections);
    assert p in plan.tables ==> p.id in Ids(plan.tables);
    assert r.elements[k].kind == KindOf(plan, p.id);
    assert IsParent(candidates, r, j, k);
  }

  lemma EligibleArea(hypot: Hypot, table: Symbol, seat: Symbol)
    requires Eligible(hypot, table, seat)
    ensures Area(table) >= 4.0 * Area(seat)
  {
  }

  /** A parent has a strictly larger area than its child. */
  lemma ParentIsLarger(hypot: Hypot, candidates: seq<Symbol>, width: int, height: int, r: Interpretation, j: int, k: int)
    requires width > 0 && height > 0 && Interprets(hypot, candidates, width, height, r)
    requires DistinctIds(candidates) && IsParent(candidates, r, j, k)
    ensures ProperParent(r, candidates, j, k)
    ensures Area(candidates[k]) > Area(candidates[j])
  {
    ParentExists(hypot, candidates, width, height, r, j);
    var k' :| IsParent(candidates, r, j, k') && ProperParent(r, candidates, j, k');
    assert candidates[k'].id == candidates[k].id;
    assert k' == k;
    ContainmentIsStrictOrder(candidates[k], candidates[j], candidates[j]);
  }

  /** Each entry of `chain` is the parent of the one before it. */
  ghost predicate ParentChain(candidates: seq<Symbol>, r: Interpretation, chain: seq<int>) {
    forall i | 0 < i < |chain| :: IsParent(candidates, r, chain[i - 1], chain[i])
  }

  /** Parent links never lead back: along every chain of parents the area grows. */
  lemma {:induction false} ParentsFormForest(hypot: Hypot, candidates: seq<Symbol>, width: int, height: int, r: Interpretation, chain: seq<int>)
    requires width > 0 && height > 0 && Interprets(hypot, candidates, width, height, r) && DistinctIds(candidates)
    requires |chain| >= 2 && ParentChain(candidates, r, chain)
    ensures 0 <= chain[0] < |candidates| && 0 <= chain[|chain| - 1] < |candidates|
    ensures Area(candidates[chain[0]]) < Area(candidates[chain[|chain| - 1]])
    ensures chain[0] != chain[|chain| - 1]
  {
    hide Interprets, DistinctIds, Area;
    var n := |chain|;
    assert IsParent(candidates, r, chain[n - 2], chain[n - 1]);
    ParentIsLarger(hypot, candidates, width, height, r, chain[n - 2], chain[n - 1]);
    if n > 2 {
      ParentsFormForest(hypot, candidates, width, height, r, chain[..n - 1]);
    }
  }

  // ---------------------------------------------------------------- links

  /** Farther by at least half of either side of the seat, and by more than a quarter. */
  predicate ClearlyFarther(near: real, far: real, seat: Symbol) {
    far - near >= 0.5 * seat.width && far - near >= 0.5 * seat.height && far > 1.25 * near
  }

  lemma ClearlyFartherIff(near: real, far: real, seat: Symbol)
    ensures ClearlyFarther(near, far, seat) <==> !TooClose(near, far, seat)
  {
  }

  /** Every other eligible table is clearly farther from the seat than `t`. */
  ghost predicate ClearlyNearest(hypot: Hypot, tables: seq<Symbol>, t: Symbol, seat: Symbol) {
    && t in tables && Eligible(hypot, t, seat)
    && forall u | u in tables && u != t && Eligible(hypot, u, seat) ::
      ClearlyFarther(BodyGap(hypot, t, seat).distance, BodyGap(hypot, u, seat).distance, seat)
  }

  lemma {:induction false} DistinctIsSingle<T(!new)>(s: seq<T>)
    requires Distinct(s)
    ensures forall x :: multiset(s)[x] <= 1
  {
    if s != [] {
      DistinctIsSingle(s[1..]);
      assert s == [s[0]] + s[1..];
      assert s[0] !in s[1..];
    }
  }

  lemma {:induction false} SingleIsDistinct<T(!new)>(s: seq<T>)
    requires forall x :: multiset(s)[x] <= 1
    ensures Distinct(s)
  {
    if s != [] {
      assert s == [s[0]] + s[1..];
      forall x
        ensures multiset(s[1..])[x] <= 1
      {
        assert multiset(s)[x] <= 1;
      }
      SingleIsDistinct(s[1..]);
      assert multiset(s)[s[0]] == 1 + multiset(s[1..])[s[0]];
    }
  }

  lemma {:induction false} FilterDistinct<T>(s: seq<T>, p: T -> bool)
    requires Distinct(s)
    ensures Distinct(Filter(s, p))
  {
    if s != [] {
      FilterDistinct(s[..|s| - 1], p);
    }
  }

  lemma SortDistinct<T(!new)>(before: (T, T) -> bool, s: seq<T>)
    requires Distinct(s)
    ensures Distinct(Sort(before, s))
  {
    DistinctIsSingle(s);
    SingleIsDistinct(Sort(before, s));
  }

  lemma NearbyIsOrdered(hypot: Hypot, tables: seq<Symbol>, seat: Symbol)
    requires Distinct(tables)
    ensures var nearby := Nearby(hypot, tables, seat);
      && Distinct(nearby)
      && (forall i, j | 0 <= i < j < |nearby| :: nearby[i].gap.distance <= nearby[j].gap.distance)
      && (forall t | t in tables && Eligible(hypot, t, seat) :: Near(t, BodyGap(hypot, t, seat)) in nearby)
  {
    hide BodyGap;
    var all := Nears(hypot, tables, seat);
    var nears := Filter(all, (n: Near) => Eligible(hypot, n.table, seat));
    var nearby := Nearby(hypot, tables, seat);
    SortKeeps(GapBefore, nears);
    SortSorted(GapBefore, nears);
    FilterDistinct(all, (n: Near) => Eligible(hypot, n.table, seat));
    SortDistinct(GapBefore, nears);
    forall i, j | 0 <= i < j < |nearby|
      ensures nearby[i].gap.distance <= nearby[j].gap.distance
    {
      assert nearby[i] in nearby && nearby[j] in nearby;
      assert !GapBefore(nearby[j], nearby[i]);
    }
    forall t | t in tables && Eligible(hypot, t, seat)
      ensures Near(t, BodyGap(hypot, t, seat)) in nearby
    {
      var k :| 0 <= k < |tables| && tables[k] == t;
      assert all[k] in all;
    }
  }

  /** A seat is linked to a table exactly when that table is clearly the nearest. */
  lemma LinkedIffClearlyNearest(hypot: Hypot, tables: seq<Symbol>, t: Symbol, seat: Symbol)
    requires Distinct(tables)
    ensures LinkOf(hypot, tables, seat) == Linked(Near(t, BodyGap(hypot, t, seat))) <==> ClearlyNearest(hypot, tables, t, seat)
  {
    NearbyIsOrdered(hypot, tables, seat);
    hide Eligible, BodyGap, Nears;
    var nearby := Nearby(hypot, tables, seat);
    hide Nearby;
    if LinkOf(hypot, tables, seat) == Linked(Near(t, BodyGap(hypot, t, seat))) {
      assert nearby[0] in nearby;
      forall u | u in tables && u != t && Eligible(hypot, u, seat)
        ensures ClearlyFarther(BodyGap(hypot, t, seat).distance, BodyGap(hypot, u, seat).distance, seat)
      {
        ClearlyFartherIff(BodyGap(hypot, t, seat).distance, BodyGap(hypot, u, seat).distance, seat);
        var j :| 0 <= j < |nearby| && nearby[j] == Near(u, BodyGap(hypot, u, seat));
        assert j >= 1;
        assert nearby[1].gap.distance <= nearby[j].gap.distance;
      }
    }
    if ClearlyNearest(hypot, tables, t, seat) {
      var i :| 0 <= i < |nearby| && nearby[i] == Near(t, BodyGap(hypot, t, seat));
      assert nearby[0] in nearby;
      assert i == 0;
      if |nearby| >= 2 {
        assert nearby[1] in nearby && nearby[1] != nearby[0];
        ClearlyFartherIff(nearby[0].gap.distance, nearby[1].gap.distance, seat);
      }
    }
  }

  // ---------------------------------------------------------------- seat counts

  lemma TablesAreDistinct(hypot: Hypot, candidates: seq<Symbol>, width: int, height: int)
    requires DistinctIds(candidates)
    ensures var plan := Classify(hypot, candidates, width, height);
      && Distinct(plan.tables)
      && forall t, u | t in plan.tables && u in plan.tables && t.id == u.id :: t == u
  {
    var plan := Classify(hypot, candidates, width, height);
    RolesAreDisjoint(hypot, candidates, width, height);
    var fitted := Filter(candidates, (c: Symbol) => c.shape.Some?);
    FilterDistinct(candidates, (c: Symbol) => c.shape.Some?);
    FilterDistinct(fitted, (c: Symbol) => c.id !in Ids(plan.sections));
    FilterDistinct(plan.bodies, (body: Symbol) => IsTable(hypot, body, plan.seats));
    hide Classify, Filter, IsTable;
    forall t, u | t in plan.tables && u in plan.tables && t.id == u.id
      ensures t == u
    {
      SameIdSameCandidate(candidates, t, u);
    }
  }

  lemma SameIdSameCandidate(candidates: seq<Symbol>, t: Symbol, u: Symbol)
    requires DistinctIds(candidates) && t in candidates && u in candidates && t.id == u.id
    ensures t == u
  {
  }

  /** A section never shares its id with a table, so only links make a table a parent. */
  lemma TableParentIsLink(hypot: Hypot, candidates: seq<Symbol>, width: int, height: int, c: Symbol, t: Symbol)
    requires width > 0 && height > 0
    requires t in Classify(hypot, candidates, width, height).tables
    ensures var plan := Classify(hypot, candidates, width, height);
      var e := ElementOf(hypot, plan, c, width, height);
      e.kind == SEAT && e.parent == Some(t.id) <==> LinksTo(hypot, plan, c, t.id)
  {
    var plan := Classify(hypot, candidates, width, height);
    RolesAreDisjoint(hypot, candidates, width, height);
    SectionParentIsSmallest(plan.sections, c);
    hide Classify, Contains, LinkOf, SectionParent;
    assert t.id in Ids(plan.tables);
    assert forall s | s in plan.sections :: s.id in Ids(plan.sections);
  }

  /** A seat's parent is a table exactly when that table is clearly the nearest: ambiguous seats are left out. */
  lemma SeatParentIsClearlyNearest(hypot: Hypot, candidates: seq<Symbol>, width: int, height: int, r: Interpretation, j: int, t: Symbol)
    requires width > 0 && height > 0 && DistinctIds(candidates) && Interprets(hypot, candidates, width, height, r)
    requires 0 <= j < |candidates| && t in Classify(hypot, candidates, width, height).tables && r.elements[j].kind == SEAT
    ensures r.elements[j].parent == Some(t.id)
       <==> ClearlyNearest(hypot, Classify(hypot, candidates, width, height).tables, t, candidates[j])
  {
    var plan := Classify(hypot, candidates, width, height);
    TableParentIsLink(hypot, candidates, width, height, candidates[j], t);
    TablesAreDistinct(hypot, candidates, width, height);
    LinkedIffClearlyNearest(hypot, plan.tables, t, candidates[j]);
    hide ElementOf, Classify, ClearlyNearest, LinkedSeats, AllWarnings;
    if LinkOf(hypot, plan.tables, candidates[j]).Linked? {
      LinkIsEligible(hypot, plan.tables, candidates[j]);
      LinkedGap(hypot, plan.tables, candidates[j]);
    }
  }

  lemma LinkedGap(hypot: Hypot, tables: seq<Symbol>, seat: Symbol)
    requires LinkOf(hypot, tables, seat).Linked?
    ensures var near := LinkOf(hypot, tables, seat).near; near == Near(near.table, BodyGap(hypot, near.table, seat))
  {
    assert Nearby(hypot, tables, seat)[0] in Nearby(hypot, tables, seat);
  }

  /** The first `m` elements that are seats of the table `id`. */
  ghost function SeatsOf(r: Interpretation, id: string, m: int): set<int> {
    set j | 0 <= j < m && j < |r.elements| && r.elements[j].kind == SEAT && r.elements[j].parent == Some(id)
  }

  lemma OneMoreLinked(hypot: Hypot, plan: Plan, candidates: seq<Symbol>, id: string, m: nat)
    requires m < |candidates|
    ensures LinkedSeats(hypot, plan, candidates[..m + 1], id)
         == LinkedSeats(hypot, plan, candidates[..m], id) + if LinksTo(hypot, plan, candidates[m], id) then 1 else 0
  {
    hide LinksTo;
    assert candidates[..m + 1][..m] == candidates[..m];
  }

  lemma OneMoreSeat(r: Interpretation, id: string, m: nat)
    requires m < |r.elements|
    ensures |SeatsOf(r, id, m + 1)| == |SeatsOf(r, id, m)| + if r.elements[m].kind == SEAT && r.elements[m].parent == Some(id) then 1 else 0
  {
    var before, after := SeatsOf(r, id, m), SeatsOf(r, id, m + 1);
    assert after == if r.elements[m].kind == SEAT && r.elements[m].parent == Some(id) then before + {m} else before;
  }

  lemma {:induction false} LinkedSeatsAreCounted(hypot: Hypot, candidates: seq<Symbol>, width: int, height: int, r: Interpretation, t: Symbol, m: nat)
    requires width > 0 && height > 0 && Interprets(hypot, candidates, width, height, r) && m <= |candidates|
    requires t in Classify(hypot, candidates, width, height).tables
    ensures LinkedSeats(hypot, Classify(hypot, candidates, width, height), candidates[..m], t.id) == |SeatsOf(r, t.id, m)|
  {
    hide ElementOf, Classify, LinksTo, AllWarnings;
    if m == 0 {
      assert SeatsOf(r, t.id, 0) == {};
    } else {
      LinkedSeatsAreCounted(hypot, candidates, width, height, r, t, m - 1);
      TableParentIsLink(hypot, candidates, width, height, candidates[m - 1], t);
      OneMoreLinked(hypot, Classify(hypot, candidates, width, height), candidates, t.id, m - 1);
      OneMoreSeat(r, t.id, m - 1);
      hide LinkedSeats, SeatsOf;
    }
  }

  /** The seat count of a table is the number of seat elements that name it as their parent. */
  lemma SeatCountIsExact(hypot: Hypot, candidates: seq<Symbol>, width: int, height: int, r: Interpretation, k: int)
    requires width > 0 && height > 0 && Interprets(hypot, candidates, width, height, r) && 0 <= k < |candidates|
    ensures r.elements[k].seatCount
         == if r.elements[k].kind == TABLE then Some(|SeatsOf(r, r.elements[k].id, |candidates|)|) else None
  {
    hide *;
    var plan := Classify(hypot, candidates, width, height);
    InterpretedElement(hypot, candidates, width, height, r, k);
    OpenSeatCount(hypot, plan, candidates[k], width, height);
    var e := r.elements[k];
    if e.kind == TABLE {
      TableOfId(plan, e.id);
      var t :| t in plan.tables && t.id == e.id;
      LinkedSeatsAreCounted(hypot, candidates, width, height, r, t, |candidates|);
      assert candidates[..|candidates|] == candidates;
    }
  }

  lemma InterpretedElement(hypot: Hypot, candidates: seq<Symbol>, width: int, height: int, r: Interpretation, k: int)
    requires width > 0 && height > 0 && Interprets(hypot, candidates, width, height, r) && 0 <= k < |candidates|
    ensures |r.elements| == |candidates|
    ensures var plan := Classify(hypot, candidates, width, height);
      var e := ElementOf(hypot, plan, candidates[k], width, height);
      && e.kind == KindOf(plan, e.id)
      && r.elements[k] == if e.kind == TABLE then e.(seatCount := Some(LinkedSeats(hypot, plan, candidates, e.id))) else e
  {
    hide Classify, LinkedSeats;
  }

  lemma TableOfId(plan: Plan, id: string)
    requires KindOf(plan, id) == TABLE
    ensures exists t :: t in plan.tables && t.id == id
  {
  }

  lemma OpenSeatCount(hypot: Hypot, plan: Plan, c: Symbol, width: int, height: int)
    requires width > 0 && height > 0
    ensures ElementOf(hypot, plan, c, width, height).seatCount == None
  {
  }

  // ---------------------------------------------------------------- geometry

  ghost predicate InUnitSquare(g: Geometry) {
    && 0.0 <= g.x - g.width / 2.0 && g.x + g.width / 2.0 <= 1.0
    && 0.0 <= g.y - g.height / 2.0 && g.y + g.height / 2.0 <= 1.0
  }

  lemma NormalizedSpan(c: real, extent: real, side: real)
    requires side > 0.0 && 0.0 <= c - extent / 2.0 && c + extent / 2.0 <= side
    ensures 0.0 <= c / side - extent / side / 2.0 && c / side + extent / side / 2.0 <= 1.0
  {
    var x, w := c / side, extent / side;
    assert x * side == c && w * side == extent;
    assert (x - w / 2.0) * side == c - extent / 2.0;
    assert (x + w / 2.0) * side == c + extent / 2.0;
    NotNegative(x - w / 2.0, side);
    NotNegative(1.0 - (x + w / 2.0), side);
  }

  lemma NotNegative(a: real, b: real)
    requires b > 0.0 && a * b >= 0.0
    ensures a >= 0.0
  {
  }

  /** Extracted symbols are normalised into the unit square. */
  lemma ElementsInUnitSquare(hypot: Hypot, source: PreparedLayoutSource, candidates: seq<Symbol>, r: Interpretation)
    requires source.Valid() && SoundShapes(source, candidates)
    requires Interprets(hypot, candidates, source.width, source.height, r)
    ensures forall k | 0 <= k < |r.elements| :: InUnitSquare(r.elements[k].geometry)
  {
    forall k | 0 <= k < |r.elements|
      ensures InUnitSquare(r.elements[k].geometry)
    {
      hide Classify, ElementOf, AllWarnings, LinkedSeats;
      var c := candidates[k];
      NormalizedSpan(c.x, c.width, source.width as real);
      NormalizedSpan(c.y, c.height, source.height as real);
    }
  }
}
