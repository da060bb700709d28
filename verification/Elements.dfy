/** interpretShapes: the detected elements, their parents, the seat counts and the warnings. */
module Elements {
  import opened Results
  import opened Sequences
  import opened Raster
  import opened StableSort
  import opened Interpreter

  datatype Geometry = Geometry(x: real, y: real, width: real, height: real, rotation: real)

  datatype Confidence = Confidence(geometry: real, classification: real, relationship: Option<real>)

  datatype Element = Element(id: string, kind: Kind, geometry: Geometry, sourceBounds: Geometry, shape: Option<DetectedShape>,
                             parent: Option<string>, seatCount: Option<int>, needsReview: bool, confidence: Confidence)
  {
    function Related(relationship: real): Element {
      this.(confidence := confidence.(relationship := Some(relationship)))
    }
  }

  datatype Warning = GeometryOnly | AmbiguousParent(seat: string, first: string, second: string)
                   | UnknownObject(id: string) | NoObjects

  datatype Near = Near(table: Symbol, gap: Gap)

  /** What the tables around a seat say about its table. */
  datatype Link = Free | Ambiguous(first: Near, second: Near) | Linked(near: Near)

  predicate GapBefore(a: Near, b: Near) {
    a.gap.Finite? && (b.gap.Infinite? || a.gap.distance < b.gap.distance)
  }

  function Nears(hypot: Hypot, tables: seq<Symbol>, seat: Symbol): (nears: seq<Near>)
    ensures |nears| == |tables|
    ensures forall k | 0 <= k < |tables| :: nears[k] == Near(tables[k], BodyGap(hypot, tables[k], seat))
  {
    seq(|tables|, k requires 0 <= k < |tables| => Near(tables[k], BodyGap(hypot, tables[k], seat)))
  }

  /** The eligible tables around a seat, nearest first. */
  function Nearby(hypot: Hypot, tables: seq<Symbol>, seat: Symbol): (nearby: seq<Near>)
    ensures forall n | n in nearby ::
      n.table in tables && Eligible(hypot, n.table, seat) && n.gap == BodyGap(hypot, n.table, seat) && n.gap.Finite?
    ensures |nearby| <= |tables|
  {
    var nears := Filter(Nears(hypot, tables, seat), (n: Near) => Eligible(hypot, n.table, seat));
    SortKeeps(GapBefore, nears);
    Sort(GapBefore, nears)
  }

  /** The second table is too close to call. */
  predicate TooClose(closest: real, second: real, seat: Symbol) {
    second - closest < Diameter(seat) * 0.5 || second <= closest * 1.25
  }

  function LinkOf(hypot: Hypot, tables: seq<Symbol>, seat: Symbol): Link {
    var nearby := Nearby(hypot, tables, seat);
    if nearby == [] then Free
    else if |nearby| >= 2 && TooClose(nearby[0].gap.distance, nearby[1].gap.distance, seat) then Ambiguous(nearby[0], nearby[1])
    else Linked(nearby[0])
  }

  predicate AreaBefore(a: Symbol, b: Symbol) {
    Area(a) < Area(b)
  }

  /** The sections around a candidate, smallest first. */
  function Enclosing(sections: seq<Symbol>, c: Symbol): (enclosing: seq<Symbol>)
    ensures forall s | s in enclosing :: s in sections && s.id != c.id && Contains(s, c)
  {
    var around := Filter(sections, (s: Symbol) => s.id != c.id && Contains(s, c));
    SortKeeps(AreaBefore, around);
    Sort(AreaBefore, around)
  }

  function SectionParent(sections: seq<Symbol>, c: Symbol): Option<string> {
    var enclosing := Enclosing(sections, c);
    if enclosing == [] then None else Some(enclosing[0].id)
  }

  function Normalized(c: Symbol, width: int, height: int): Geometry
    requires width > 0 && height > 0
  {
    Geometry(c.x / width as real, c.y / height as real, c.width / width as real, c.height / height as real, 0.0)
  }

  /** An element before the link to a table is considered. */
  function Unlinked(plan: Plan, c: Symbol, width: int, height: int): Element
    requires width > 0 && height > 0
  {
    var kind := KindOf(plan, c.id);
    Element(c.id, kind, Normalized(c, width, height), Normalized(c, width, height),
            if kind == SEAT && c.shape == Some(Round) then Some(Circle) else c.shape,
            SectionParent(plan.sections, c), None, kind == UNKNOWN,
            Confidence(c.quality, if kind == UNKNOWN then 0.35 else 0.8, None))
  }

  /** The element of a candidate, its seat count still open. */
  function ElementOf(hypot: Hypot, plan: Plan, c: Symbol, width: int, height: int): (e: Element)
    requires width > 0 && height > 0
    ensures e.id == c.id && e.kind == KindOf(plan, c.id) && e.geometry == e.sourceBounds == Normalized(c, width, height)
    ensures e.confidence.geometry == c.quality
  {
    var e := Unlinked(plan, c, width, height);
    if e.kind != SEAT then e
    else match LinkOf(hypot, plan.tables, c)
      case Free => e
      case Ambiguous(_, _) => e.(needsReview := true).Related(0.4)
      case Linked(near) => e.(parent := Some(near.table.id)).Related(0.85)
  }

  function WarningsOf(hypot: Hypot, plan: Plan, c: Symbol): seq<Warning> {
    match KindOf(plan, c.id)
    case UNKNOWN => [UnknownObject(c.id)]
    case SEAT => (
      match LinkOf(hypot, plan.tables, c)
      case Ambiguous(first, second) => [AmbiguousParent(c.id, first.table.id, second.table.id)]
      case _ => [])
    case _ => []
  }

  /** The candidate is a seat linked to the table `id`. */
  predicate LinksTo(hypot: Hypot, plan: Plan, c: Symbol, id: string) {
    KindOf(plan, c.id) == SEAT && match LinkOf(hypot, plan.tables, c)
      case Linked(near) => near.table.id == id
      case _ => false
  }

  function LinkedSeats(hypot: Hypot, plan: Plan, candidates: seq<Symbol>, id: string): nat {
    if candidates == [] then 0
    else
      var last := |candidates| - 1;
      LinkedSeats(hypot, plan, candidates[..last], id) + if LinksTo(hypot, plan, candidates[last], id) then 1 else 0
  }

  function AllWarnings(hypot: Hypot, plan: Plan, candidates: seq<Symbol>): seq<Warning> {
    if candidates == [] then [GeometryOnly]
    else
      var last := |candidates| - 1;
      AllWarnings(hypot, plan, candidates[..last]) + WarningsOf(hypot, plan, candidates[last])
  }

  datatype Interpretation = Interpretation(elements: seq<Element>, warnings: seq<Warning>)

  /** The interpretation of `candidates`: one element each, in order, with the seat counts filled in. */
  ghost predicate Interprets(hypot: Hypot, candidates: seq<Symbol>, width: int, height: int, r: Interpretation)
    requires width > 0 && height > 0
  {
    var plan := Classify(hypot, candidates, width, height);
    && |r.elements| == |candidates|
    && (forall k | 0 <= k < |candidates| ::
      var e := ElementOf(hypot, plan, candidates[k], width, height);
      r.elements[k] == if e.kind == TABLE then e.(seatCount := Some(LinkedSeats(hypot, plan, candidates, e.id))) else e)
    && r.warnings == AllWarnings(hypot, plan, candidates) + if candidates == [] then [NoObjects] else []
  }

  ghost predicate Counts(hypot: Hypot, plan: Plan, done: seq<Symbol>, seatCounts: map<string, int>) {
    && seatCounts.Keys == Ids(plan.tables)
    && forall id | id in seatCounts :: seatCounts[id] == LinkedSeats(hypot, plan, done, id)
  }

  lemma CountSeat(hypot: Hypot, plan: Plan, done: seq<Symbol>, c: Symbol, seatCounts: map<string, int>, counted: map<string, int>)
    requires Counts(hypot, plan, done, seatCounts)
    requires KindOf(plan, c.id) == SEAT && LinkOf(hypot, plan.tables, c).Linked?
    requires var id := LinkOf(hypot, plan.tables, c).near.table.id;
      counted == seatCounts[id := (if id in seatCounts then seatCounts[id] else 0) + 1]
    ensures Counts(hypot, plan, done + [c], counted)
  {
    hide LinkOf;
    var id := LinkOf(hypot, plan.tables, c).near.table.id;
    assert (done + [c])[..|done|] == done;
    LinkedIsTable(hypot, plan.tables, c);
  }

  lemma LinkedIsTable(hypot: Hypot, tables: seq<Symbol>, c: Symbol)
    requires LinkOf(hypot, tables, c).Linked?
    ensures LinkOf(hypot, tables, c).near.table.id in Ids(tables)
  {
  }

  lemma SkipSeat(hypot: Hypot, plan: Plan, done: seq<Symbol>, c: Symbol, seatCounts: map<string, int>)
    requires Counts(hypot, plan, done, seatCounts)
    requires !(KindOf(plan, c.id) == SEAT && LinkOf(hypot, plan.tables, c).Linked?)
    ensures Counts(hypot, plan, done + [c], seatCounts)
  {
    assert (done + [c])[..|done|] == done;
  }

  /** One turn of the element loop: the element, the updated seat counts, and the warnings it adds. */
  method InterpretCandidate(hypot: Hypot, plan: Plan, candidate: Symbol, width: int, height: int,
                            seatCounts: map<string, int>, ghost done: seq<Symbol>)
    returns (element: Element, seatCounts': map<string, int>, added: seq<Warning>)
    requires width > 0 && height > 0 && Counts(hypot, plan, done, seatCounts)
    ensures element == ElementOf(hypot, plan, candidate, width, height)
    ensures added == WarningsOf(hypot, plan, candidate)
    ensures Counts(hypot, plan, done + [candidate], seatCounts')
  {
    hide LinkOf, KindOf, Unlinked, Counts, LinkedSeats;
    element, seatCounts', added := Unlinked(plan, candidate, width, height), seatCounts, [];
    UnlinkedKind(plan, candidate, width, height);
    var link := LinkOf(hypot, plan.tables, candidate);
    if element.kind == SEAT && link.Linked? {
      var id := link.near.table.id;
      element := element.(parent := Some(id)).Related(0.85);
      seatCounts' := seatCounts[id := (if id in seatCounts then seatCounts[id] else 0) + 1];
      CountSeat(hypot, plan, done, candidate, seatCounts, seatCounts');
    } else {
      SkipSeat(hypot, plan, done, candidate, seatCounts);
      if element.kind == SEAT && link.Ambiguous? {
        element := element.(needsReview := true).Related(0.4);
        added := added + [AmbiguousParent(candidate.id, link.first.table.id, link.second.table.id)];
      }
    }
    if element.kind == UNKNOWN {
      added := added + [UnknownObject(candidate.id)];
    }
  }

  lemma NothingCounted(hypot: Hypot, plan: Plan, seatCounts: map<string, int>)
    requires seatCounts == map id | id in Ids(plan.tables) :: 0
    ensures Counts(hypot, plan, [], seatCounts)
  {
  }

  lemma WarningsGrow(hypot: Hypot, plan: Plan, done: seq<Symbol>, c: Symbol)
    ensures AllWarnings(hypot, plan, done + [c]) == AllWarnings(hypot, plan, done) + WarningsOf(hypot, plan, c)
  {
    assert (done + [c])[..|done|] == done;
  }

  method InterpretShapes(hypot: Hypot, candidates: seq<Symbol>, width: int, height: int)
    returns (r: Result<Interpretation, RecognitionError>)
    requires width > 0 && height > 0
    ensures |candidates| * |candidates| > 2_000_000 ==> r == Err(SourceTooComplex)
    ensures |candidates| * |candidates| <= 2_000_000 ==> r.Ok? && Interprets(hypot, candidates, width, height, r.value)
  {
    hide Classify, ElementOf, WarningsOf, Counts, LinkedSeats;
    if |candidates| * |candidates| > 2_000_000 {
      return Err(SourceTooComplex);
    }
    var warnings := [GeometryOnly];
    var plan := Classify(hypot, candidates, width, height);
    var seatCounts: map<string, int> := map id | id in Ids(plan.tables) :: 0;
    NothingCounted(hypot, plan, seatCounts);
    var elements: seq<Element> := [];
    for k := 0 to |candidates|
      invariant |elements| == k
      invariant forall j | 0 <= j < k :: elements[j] == ElementOf(hypot, plan, candidates[j], width, height)
      invariant warnings == AllWarnings(hypot, plan, candidates[..k])
      invariant Counts(hypot, plan, candidates[..k], seatCounts)
    {
      assert candidates[..k + 1] == candidates[..k] + [candidates[k]];
      WarningsGrow(hypot, plan, candidates[..k], candidates[k]);
      var element, counts, added := InterpretCandidate(hypot, plan, candidates[k], width, height, seatCounts, candidates[..k]);
      elements, seatCounts, warnings := elements + [element], counts, warnings + added;
    }
    assert candidates[..|candidates|] == candidates;
    elements := FillSeatCounts(hypot, plan, candidates, elements, seatCounts, width, height);
    if |elements| == 0 {
      warnings := warnings + [NoObjects];
    }
    return Ok(Interpretation(elements, warnings));
  }

  lemma UnlinkedKind(plan: Plan, c: Symbol, width: int, height: int)
    requires width > 0 && height > 0
    ensures Unlinked(plan, c, width, height).kind == KindOf(plan, c.id)
  {
  }

  method FillSeatCounts(hypot: Hypot, plan: Plan, candidates: seq<Symbol>, elements: seq<Element>, seatCounts: map<string, int>,
                        width: int, height: int)
    returns (filled: seq<Element>)
    requires width > 0 && height > 0 && |elements| == |candidates|
    requires forall k | 0 <= k < |candidates| :: elements[k] == ElementOf(hypot, plan, candidates[k], width, height)
    requires Counts(hypot, plan, candidates, seatCounts)
    ensures |filled| == |elements|
    ensures forall k | 0 <= k < |elements| ::
      filled[k] == if elements[k].kind == TABLE
                   then elements[k].(seatCount := Some(LinkedSeats(hypot, plan, candidates, elements[k].id))) else elements[k]
  {
    hide LinkOf, LinkedSeats, ElementOf;
    filled := elements;
    for k := 0 to |elements|
      invariant |filled| == |elements| && filled[k..] == elements[k..]
      invariant forall j | 0 <= j < k ::
        filled[j] == if elements[j].kind == TABLE
                     then elements[j].(seatCount := Some(LinkedSeats(hypot, plan, candidates, elements[j].id))) else elements[j]
    {
      assert filled[k] == filled[k..][0] == elements[k..][0] == elements[k];
      var element := filled[k];
      if element.kind == TABLE {
        filled := filled[k := element.(seatCount := Some(if element.id in seatCounts then seatCounts[element.id] else 0))];
      }
    }
  }
}
