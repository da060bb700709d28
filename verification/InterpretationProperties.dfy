/** What makes a symbol a section, a seat or a table, and which elements a user is asked to review. */
module InterpretationProperties {
  import opened Results
  import opened Sequences
  import opened Raster
  import opened StableSort
  import opened Interpreter
  import opened Elements
  import opened ElementProperties

  // ---------------------------------------------------------------- roles

  /** The fitted symbols inside a symbol. */
  ghost predicate Holds(c: Symbol, other: Symbol) {
    other.shape.Some? && Contains(c, other)
  }

  /**
   A fitted symbol that contains at least three fitted symbols, one of them of at most a quarter of its area, and that
   covers at least 8 percent of the raster.
   */
  ghost predicate SectionLike(c: Symbol, candidates: seq<Symbol>, width: int, height: int) {
    && c.shape.Some?
    && Three(candidates, (other: Symbol) => Holds(c, other))
    && (exists other :: other in candidates && Holds(c, other) && c.width * c.height >= 4.0 * (other.width * other.height))
    && c.width * c.height >= 0.08 * (width as real * height as real)
  }

  lemma ChildrenAreHeld(c: Symbol, candidates: seq<Symbol>)
    ensures var children := Children(c, Filter(candidates, (s: Symbol) => s.shape.Some?));
      && (|children| >= 3 <==> Three(candidates, (other: Symbol) => Holds(c, other)))
      && forall other :: other in children <==> other in candidates && Holds(c, other)
  {
    forall other: Symbol
      ensures Contains(c, other) ==> other != c
    {
      ContainmentIsStrictOrder(c, c, c);
    }
    hide Contains;
    var fitted := (s: Symbol) => s.shape.Some?;
    var inside := (other: Symbol) => other != c && Contains(c, other);
    FilterTwice(candidates, fitted, inside, (other: Symbol) => Holds(c, other));
    FilterHasThree(candidates, (other: Symbol) => Holds(c, other));
  }

  /** The sections are the section-like candidates. */
  lemma SectionIff(hypot: Hypot, candidates: seq<Symbol>, width: int, height: int, c: Symbol)
    ensures c in Classify(hypot, candidates, width, height).sections <==> c in candidates && SectionLike(c, candidates, width, height)
  {
    ChildrenAreHeld(c, candidates);
    hide Children, Repeated, IsTable, Holds, Three;
    var fitted := Filter(candidates, (s: Symbol) => s.shape.Some?);
    assert c in fitted <==> c in candidates && c.shape.Some?;
    var children := Children(c, fitted);
    assert (exists child | child in children :: Area(c) >= Area(child) * 4.0)
      <==> exists other :: other in candidates && Holds(c, other) && c.width * c.height >= 4.0 * (other.width * other.height);
  }

  /** The tables are the other fitted candidates that are no seats and to which at least three seats are close. */
  lemma TableIff(hypot: Hypot, candidates: seq<Symbol>, width: int, height: int, c: Symbol)
    ensures var plan := Classify(hypot, candidates, width, height);
      && (c in plan.bodies <==> c in candidates && c.shape.Some? && c.id !in Ids(plan.sections))
      && (c in plan.tables <==>
        && c in candidates && c.shape.Some? && c.id !in Ids(plan.sections) && c.id !in Ids(plan.seats)
        && Three(plan.seats, (seat: Symbol) => Eligible(hypot, c, seat)))
  {
    var plan := Classify(hypot, candidates, width, height);
    FilterHasThree(plan.seats, (seat: Symbol) => Eligible(hypot, c, seat));
    hide Repeated, IsSection, Eligible, Three;
  }

  /** The body has a larger family, or one as large and less area itself. */
  ghost predicate Beats(a: Symbol, b: Symbol, bodies: seq<Symbol>) {
    || |FamilyOf(a, bodies)| > |FamilyOf(b, bodies)|
    || (|FamilyOf(a, bodies)| == |FamilyOf(b, bodies)| && a.width * a.height < b.width * b.height)
  }

  /** No body beats this one, and this one beats all bodies before it. */
  ghost predicate FirstBest(bodies: seq<Symbol>, i: int) {
    && 0 <= i < |bodies|
    && (forall k | 0 <= k < |bodies| :: !Beats(bodies[k], bodies[i], bodies))
    && (forall k | 0 <= k < i :: Beats(bodies[i], bodies[k], bodies))
  }

  lemma BeatsIs(bodies: seq<Symbol>, j: nat, k: nat)
    requires j < |bodies| && k < |bodies|
    ensures var families := Families(bodies, bodies);
      && |families| == |bodies| && families[j].members == FamilyOf(bodies[j], bodies)
      && (FamilyBefore(families[j], families[k]) <==> Beats(bodies[j], bodies[k], bodies))
  {
    hide SimilarSize;
  }

  /** The seats are the family of the first best body, when it has at least three members; there are none otherwise. */
  lemma SeatsAreFirstBest(hypot: Hypot, candidates: seq<Symbol>, width: int, height: int)
    ensures var plan := Classify(hypot, candidates, width, height);
      if plan.bodies == [] then plan.seats == []
      else exists i ::
        FirstBest(plan.bodies, i) && plan.seats == if |FamilyOf(plan.bodies[i], plan.bodies)| >= 3 then FamilyOf(plan.bodies[i], plan.bodies) else []
  {
    var plan := Classify(hypot, candidates, width, height);
    SeatsAreRepeated(hypot, candidates, width, height);
    hide *;
    if plan.bodies == [] {
      NothingRepeated();
    } else {
      var i := RepeatedIsFirstBest(plan.bodies);
    }
  }

  lemma RepeatedIsFirstBest(bodies: seq<Symbol>) returns (i: nat)
    requires bodies != []
    ensures FirstBest(bodies, i) && Repeated(bodies) == FamilyOf(bodies[i], bodies)
  {
    var families := Families(bodies, bodies);
    i := FirstOfSort(FamilyBefore, families);
    hide Sort, Beats, Families, FamilyBefore;
    BeatsIs(bodies, i, i);
    forall k | 0 <= k < |bodies|
      ensures !Beats(bodies[k], bodies[i], bodies) && (k < i ==> Beats(bodies[i], bodies[k], bodies))
    {
      BeatsIs(bodies, k, i);
      BeatsIs(bodies, i, k);
    }
  }

  /** The section that a symbol is put into: of those around it the smallest, and of several as small the first. */
  lemma SectionParentIsFirst(sections: seq<Symbol>, c: Symbol) returns (i: nat)
    requires SectionParent(sections, c) != None
    ensures i < |sections| && SectionParent(sections, c) == Some(sections[i].id) && sections[i].id != c.id && Contains(sections[i], c)
    ensures forall k | 0 <= k < |sections| && sections[k].id != c.id && Contains(sections[k], c) ::
      Area(sections[i]) <= Area(sections[k]) && (k < i ==> Area(sections[i]) < Area(sections[k]))
  {
    var p := (s: Symbol) => s.id != c.id && Contains(s, c);
    assert Enclosing(sections, c) == Sort(AreaBefore, Filter(sections, p));
    hide Contains, Area, Sort, Filter;
    i := FirstOfSortedFilter(AreaBefore, sections, p);
    forall k | 0 <= k < |sections| && sections[k].id != c.id && Contains(sections[k], c)
      ensures Area(sections[i]) <= Area(sections[k]) && (k < i ==> Area(sections[i]) < Area(sections[k]))
    {
      assert p(sections[k]);
    }
  }

  // ---------------------------------------------------------------- links

  /** Some table is close enough, but none is clearly the nearest. */
  ghost predicate Undecided(hypot: Hypot, tables: seq<Symbol>, seat: Symbol) {
    && (exists t :: t in tables && Eligible(hypot, t, seat))
    && forall t | t in tables :: !ClearlyNearest(hypot, tables, t, seat)
  }

  /** Two tables close to the seat that no other table is closer than. */
  ghost predicate TwoNearest(hypot: Hypot, tables: seq<Symbol>, seat: Symbol, first: Symbol, second: Symbol) {
    && first in tables && second in tables && first != second && Eligible(hypot, first, seat) && Eligible(hypot, second, seat)
    && BodyGap(hypot, first, seat).distance <= BodyGap(hypot, second, seat).distance
    && forall t | t in tables && t != first && Eligible(hypot, t, seat) ::
      BodyGap(hypot, second, seat).distance <= BodyGap(hypot, t, seat).distance
  }

  lemma LinkIff(hypot: Hypot, tables: seq<Symbol>, seat: Symbol)
    requires Distinct(tables)
    ensures var link := LinkOf(hypot, tables, seat);
      && (link.Free? <==> forall t | t in tables :: !Eligible(hypot, t, seat))
      && (link.Linked? <==> exists t :: ClearlyNearest(hypot, tables, t, seat))
      && (link.Ambiguous? <==> Undecided(hypot, tables, seat))
      && (link.Ambiguous? ==> TwoNearest(hypot, tables, seat, link.first.table, link.second.table))
  {
    FreeIff(hypot, tables, seat);
    LinkedIff(hypot, tables, seat);
    if LinkOf(hypot, tables, seat).Ambiguous? {
      AmbiguousAreNearest(hypot, tables, seat);
    }
    hide Eligible, LinkOf, ClearlyNearest;
    if t :| ClearlyNearest(hypot, tables, t, seat) {
      NearestIsEligible(hypot, tables, t, seat);
    }
  }

  lemma NearestIsEligible(hypot: Hypot, tables: seq<Symbol>, t: Symbol, seat: Symbol)
    requires ClearlyNearest(hypot, tables, t, seat)
    ensures t in tables && Eligible(hypot, t, seat)
  {
    hide Eligible;
  }

  lemma FreeIff(hypot: Hypot, tables: seq<Symbol>, seat: Symbol)
    requires Distinct(tables)
    ensures LinkOf(hypot, tables, seat).Free? <==> forall t | t in tables :: !Eligible(hypot, t, seat)
  {
    NearbyIsOrdered(hypot, tables, seat);
    hide Eligible, BodyGap, Nears;
    var nearby := Nearby(hypot, tables, seat);
    hide Nearby;
    if nearby != [] {
      assert nearby[0] in nearby;
    }
  }

  lemma LinkedIff(hypot: Hypot, tables: seq<Symbol>, seat: Symbol)
    requires Distinct(tables)
    ensures LinkOf(hypot, tables, seat).Linked? <==> exists t :: ClearlyNearest(hypot, tables, t, seat)
  {
    var link := LinkOf(hypot, tables, seat);
    if link.Linked? {
      LinkedGap(hypot, tables, seat);
      LinkedIffClearlyNearest(hypot, tables, link.near.table, seat);
    }
    hide ClearlyNearest, LinkOf;
    if t :| ClearlyNearest(hypot, tables, t, seat) {
      LinkedIffClearlyNearest(hypot, tables, t, seat);
    }
  }

  lemma AmbiguousAreNearest(hypot: Hypot, tables: seq<Symbol>, seat: Symbol)
    requires Distinct(tables) && LinkOf(hypot, tables, seat).Ambiguous?
    ensures var link := LinkOf(hypot, tables, seat); TwoNearest(hypot, tables, seat, link.first.table, link.second.table)
  {
    NearbyIsOrdered(hypot, tables, seat);
    hide Eligible, BodyGap, Nears;
    var nearby := Nearby(hypot, tables, seat);
    hide Nearby;
    assert nearby[0] in nearby && nearby[1] in nearby;
    forall t | t in tables && t != nearby[0].table && Eligible(hypot, t, seat)
      ensures nearby[1].gap.distance <= BodyGap(hypot, t, seat).distance
    {
      var j :| 0 <= j < |nearby| && nearby[j] == Near(t, BodyGap(hypot, t, seat));
      assert j >= 1;
      if j > 1 {
        assert nearby[1].gap.distance <= nearby[j].gap.distance;
      }
    }
  }

  // ---------------------------------------------------------------- what an element says

  /**
   A user is asked to review the elements of unknown kind and the seats that are close to several tables; only seats close
   to a table say how sure their table is; round seats are circles, and every other shape is as it was detected.
   */
  lemma ElementSays(hypot: Hypot, candidates: seq<Symbol>, width: int, height: int, r: Interpretation, k: int)
    requires width > 0 && height > 0 && DistinctIds(candidates) && Interprets(hypot, candidates, width, height, r)
    requires 0 <= k < |candidates|
    ensures |r.elements| == |candidates|
    ensures var c, e, tables := candidates[k], r.elements[k], Classify(hypot, candidates, width, height).tables;
      && (e.needsReview <==> e.kind == UNKNOWN || (e.kind == SEAT && Undecided(hypot, tables, c)))
      && e.confidence.classification == (if e.kind == UNKNOWN then 0.35 else 0.8)
      && e.confidence.geometry == c.quality
      && e.confidence.relationship == (
        if e.kind != SEAT || (forall t | t in tables :: !Eligible(hypot, t, c)) then None
        else if Undecided(hypot, tables, c) then Some(0.4) else Some(0.85))
      && e.shape == (if e.kind == SEAT && c.shape == Some(Round) then Some(Circle) else c.shape)
      && e.geometry == e.sourceBounds
  {
    hide *;
    var plan, c := Classify(hypot, candidates, width, height), candidates[k];
    InterpretedElement(hypot, candidates, width, height, r, k);
    TablesAreDistinct(hypot, candidates, width, height);
    LinkIff(hypot, plan.tables, c);
    ElementOfSays(hypot, plan, c, width, height);
  }

  lemma ElementOfSays(hypot: Hypot, plan: Plan, c: Symbol, width: int, height: int)
    requires width > 0 && height > 0
    ensures var e, link := ElementOf(hypot, plan, c, width, height), LinkOf(hypot, plan.tables, c);
      && (e.needsReview <==> e.kind == UNKNOWN || (e.kind == SEAT && link.Ambiguous?))
      && e.confidence == Confidence(c.quality, if e.kind == UNKNOWN then 0.35 else 0.8,
                                    if e.kind != SEAT || link.Free? then None else if link.Ambiguous? then Some(0.4) else Some(0.85))
      && e.geometry == e.sourceBounds && e.id == c.id && e.kind == KindOf(plan, c.id)
      && e.shape == (if e.kind == SEAT && c.shape == Some(Round) then Some(Circle) else c.shape)
  {
    UnlinkedSays(plan, c, width, height);
    hide KindOf, Unlinked, LinkOf, Normalized;
  }

  lemma UnlinkedSays(plan: Plan, c: Symbol, width: int, height: int)
    requires width > 0 && height > 0
    ensures var e, kind := Unlinked(plan, c, width, height), KindOf(plan, c.id);
      && e.kind == kind && e.confidence == Confidence(c.quality, if kind == UNKNOWN then 0.35 else 0.8, None)
      && (e.needsReview <==> kind == UNKNOWN) && e.geometry == e.sourceBounds
      && e.shape == (if kind == SEAT && c.shape == Some(Round) then Some(Circle) else c.shape)
  {
    hide KindOf, Normalized, SectionParent;
  }

  // ---------------------------------------------------------------- warnings

  /** The warning of an element that needs review. */
  ghost predicate WarnsOf(hypot: Hypot, candidates: seq<Symbol>, width: int, height: int, r: Interpretation, k: int, w: Warning)
    requires width > 0 && height > 0 && |r.elements| == |candidates| && 0 <= k < |candidates|
  {
    var tables := Classify(hypot, candidates, width, height).tables;
    match r.elements[k].kind
    case UNKNOWN => w == UnknownObject(r.elements[k].id)
    case SEAT =>
      exists first, second ::
        TwoNearest(hypot, tables, candidates[k], first, second) && w == AmbiguousParent(r.elements[k].id, first.id, second.id)
    case _ => false
  }

  /** The elements to review, in order. */
  ghost function Reviewed(elements: seq<Element>): (at: seq<int>)
    ensures forall i | 0 <= i < |at| :: 0 <= at[i] < |elements| && elements[at[i]].needsReview
    ensures forall i, j | 0 <= i < j < |at| :: at[i] < at[j]
    ensures forall k | 0 <= k < |elements| && elements[k].needsReview :: k in at
  {
    if elements == [] then []
    else
      var last := |elements| - 1;
      Reviewed(elements[..last]) + if elements[last].needsReview then [last] else []
  }

  lemma WarningOfReviewed(hypot: Hypot, candidates: seq<Symbol>, width: int, height: int, r: Interpretation, k: int)
    requires width > 0 && height > 0 && DistinctIds(candidates) && Interprets(hypot, candidates, width, height, r)
    requires 0 <= k < |candidates|
    ensures |r.elements| == |candidates|
    ensures var ws := WarningsOf(hypot, Classify(hypot, candidates, width, height), candidates[k]);
      if r.elements[k].needsReview then |ws| == 1 && WarnsOf(hypot, candidates, width, height, r, k, ws[0]) else ws == []
  {
    hide *;
    var plan, c := Classify(hypot, candidates, width, height), candidates[k];
    InterpretedElement(hypot, candidates, width, height, r, k);
    TablesAreDistinct(hypot, candidates, width, height);
    LinkIff(hypot, plan.tables, c);
    ElementOfSays(hypot, plan, c, width, height);
    WarningsSay(hypot, plan, c, r.elements[k]);
    var ws := WarningsOf(hypot, plan, c);
    if r.elements[k].needsReview {
      WarnsIf(hypot, candidates, width, height, r, k, ws[0]);
    }
  }

  lemma WarningsSay(hypot: Hypot, plan: Plan, c: Symbol, e: Element)
    requires e.kind == KindOf(plan, c.id)
    ensures var ws, link := WarningsOf(hypot, plan, c), LinkOf(hypot, plan.tables, c);
      ws == if e.kind == UNKNOWN then [UnknownObject(c.id)]
            else if e.kind == SEAT && link.Ambiguous? then [AmbiguousParent(c.id, link.first.table.id, link.second.table.id)]
            else []
  {
    hide KindOf, LinkOf;
  }

  lemma WarnsIf(hypot: Hypot, candidates: seq<Symbol>, width: int, height: int, r: Interpretation, k: int, w: Warning)
    requires width > 0 && height > 0 && |r.elements| == |candidates| && 0 <= k < |candidates|
    requires var plan, c, e := Classify(hypot, candidates, width, height), candidates[k], r.elements[k];
      var link := LinkOf(hypot, plan.tables, c);
      && e.id == c.id
      && if e.kind == UNKNOWN then w == UnknownObject(c.id)
         else
           && e.kind == SEAT && link.Ambiguous? && w == AmbiguousParent(c.id, link.first.table.id, link.second.table.id)
           && TwoNearest(hypot, plan.tables, c, link.first.table, link.second.table)
    ensures WarnsOf(hypot, candidates, width, height, r, k, w)
  {
    hide Classify, LinkOf, TwoNearest;
  }

  /** The general warning, then one for each of the first `n` elements that needs review, in order. */
  ghost predicate WarnsInOrder(hypot: Hypot, candidates: seq<Symbol>, width: int, height: int, r: Interpretation, n: nat, ws: seq<Warning>)
    requires width > 0 && height > 0 && |r.elements| == |candidates| && n <= |candidates|
  {
    var at := Reviewed(r.elements[..n]);
    && |ws| == 1 + |at| && ws[0] == GeometryOnly
    && forall i | 0 <= i < |at| :: WarnsOf(hypot, candidates, width, height, r, at[i], ws[i + 1])
  }

  lemma OneMoreReviewed(elements: seq<Element>, n: nat)
    requires n < |elements|
    ensures Reviewed(elements[..n + 1]) == Reviewed(elements[..n]) + if elements[n].needsReview then [n] else []
  {
    assert elements[..n + 1][..n] == elements[..n];
  }

  lemma WarnsOneMore(hypot: Hypot, candidates: seq<Symbol>, width: int, height: int, r: Interpretation, n: nat, ws: seq<Warning>, more: seq<Warning>)
    requires width > 0 && height > 0 && |r.elements| == |candidates| && n < |candidates|
    requires WarnsInOrder(hypot, candidates, width, height, r, n, ws)
    requires if r.elements[n].needsReview then |more| == 1 && WarnsOf(hypot, candidates, width, height, r, n, more[0]) else more == []
    ensures WarnsInOrder(hypot, candidates, width, height, r, n + 1, ws + more)
  {
    OneMoreReviewed(r.elements, n);
    hide WarnsOf, Reviewed;
    var at := Reviewed(r.elements[..n + 1]);
    forall i | 0 <= i < |at|
      ensures WarnsOf(hypot, candidates, width, height, r, at[i], (ws + more)[i + 1])
    {
      if i == |ws| - 1 {
        assert (ws + more)[i + 1] == more[0];
      } else {
        assert (ws + more)[i + 1] == ws[i + 1];
      }
    }
  }

  lemma {:induction false} WarningsMatch(hypot: Hypot, candidates: seq<Symbol>, width: int, height: int, r: Interpretation, n: nat)
    requires width > 0 && height > 0 && DistinctIds(candidates) && Interprets(hypot, candidates, width, height, r)
    requires n <= |candidates| == |r.elements|
    ensures WarnsInOrder(hypot, candidates, width, height, r, n, AllWarnings(hypot, Classify(hypot, candidates, width, height), candidates[..n]))
  {
    hide *;
    var plan := Classify(hypot, candidates, width, height);
    if n == 0 {
      NothingWarned(hypot, candidates, width, height, r, plan);
    } else {
      var done, c := candidates[..n - 1], candidates[n - 1];
      var before := AllWarnings(hypot, plan, done);
      WarningsMatch(hypot, candidates, width, height, r, n - 1);
      WarningOfReviewed(hypot, candidates, width, height, r, n - 1);
      WarnsOneMore(hypot, candidates, width, height, r, n - 1, before, WarningsOf(hypot, plan, c));
      assert candidates[..n] == done + [c];
      WarningsGrow(hypot, plan, done, c);
      assert AllWarnings(hypot, plan, candidates[..n]) == before + WarningsOf(hypot, plan, c);
    }
  }

  lemma NothingWarned(hypot: Hypot, candidates: seq<Symbol>, width: int, height: int, r: Interpretation, plan: Plan)
    requires width > 0 && height > 0 && |r.elements| == |candidates|
    ensures WarnsInOrder(hypot, candidates, width, height, r, 0, AllWarnings(hypot, plan, candidates[..0]))
  {
  }

  /**
   After the general warning comes one for each element to review, in order, naming the object of unknown kind or the seat
   with its two nearest tables; and one more when there is nothing at all.
   */
  lemma OneWarningPerReview(hypot: Hypot, candidates: seq<Symbol>, width: int, height: int, r: Interpretation)
    requires width > 0 && height > 0 && DistinctIds(candidates) && Interprets(hypot, candidates, width, height, r)
    ensures |r.elements| == |candidates|
    ensures candidates == [] ==> r.warnings == [GeometryOnly, NoObjects]
    ensures candidates != [] ==> WarnsInOrder(hypot, candidates, width, height, r, |candidates|, r.warnings)
  {
    hide *;
    InterpretedWarnings(hypot, candidates, width, height, r);
    WarningsMatch(hypot, candidates, width, height, r, |candidates|);
    assert candidates[..|candidates|] == candidates;
  }

  lemma InterpretedWarnings(hypot: Hypot, candidates: seq<Symbol>, width: int, height: int, r: Interpretation)
    requires width > 0 && height > 0 && Interprets(hypot, candidates, width, height, r)
    ensures |r.elements| == |candidates|
    ensures candidates != [] ==> r.warnings == AllWarnings(hypot, Classify(hypot, candidates, width, height), candidates)
    ensures candidates == [] ==> r.warnings == [GeometryOnly, NoObjects] && r.elements == []
  {
    hide Classify;
  }
}
