/** The layout tables: sections, their tables and their seats, with what the database itself enforces on them. */
module LayoutRows {
  import opened Results
  import opened Sequences
  import opened MetaDefaults

  /** Row ids are numbers handed out in order. */
  type Id = nat
  type EventId = string

  datatype Section = Section(id: Id, event: EventId, name: string, order: int, x: real, y: real,
                             width: Option<real>, height: Option<real>, meta: Json)

  datatype Table = Table(id: Id, event: EventId, sectionId: Id, name: string, order: int, x: real, y: real,
                         capacity: Option<int>, meta: Json)

  datatype Seat = Seat(id: Id, event: EventId, sectionId: Id, tableId: Option<Id>, number: Option<int>, seatLabel: Option<string>,
                       x: Option<real>, y: Option<real>, rotation: Option<real>, seatType: Option<string>, status: string,
                       guest: Option<string>, invitation: Option<string>, note: Option<string>, shape: string, meta: Json)
  {
    /** Nobody holds the seat, and no note is left on it. */
    predicate Blank() { guest.None? && invitation.None? && note.None? }
  }

  const STATUSES: set<string> := {"AVAILABLE", "RESERVED", "ASSIGNED", "BLOCKED"}
  const SEAT_TYPES: set<string> := {"STANDARD", "VIP", "STAFF", "STANDING", "CHILD", "RESERVED"}

  const SEAT_SHAPES: set<string> := {"CIRCLE", "SQUARE", "RECTANGLE"}

  /** The column default of a seat's shape. */
  const DEFAULT_SHAPE := "CIRCLE"

  datatype Layout = Layout(sections: seq<Section>, tables: seq<Table>, seats: seq<Seat>)

  // ---------------------------------------------------------------- selecting rows

  function SectionIds(rows: seq<Section>): set<Id> {
    set s | s in rows :: s.id
  }

  function TableIds(rows: seq<Table>): set<Id> {
    set t | t in rows :: t.id
  }

  /** No two tables of one section share a name. */
  predicate TablesFit(tables: seq<Table>) {
    forall i, j | 0 <= i < j < |tables| :: tables[i].sectionId != tables[j].sectionId || tables[i].name != tables[j].name
  }

  predicate SectionNameTaken(rows: seq<Section>, event: EventId, name: string) {
    exists s | s in rows :: s.event == event && s.name == name
  }

  predicate TableNameTaken(rows: seq<Table>, sectionId: Id, name: string) {
    exists t | t in rows :: t.sectionId == sectionId && t.name == name
  }

  /** The rows of one event, as the unordered queries by event return them. */
  function Of(l: Layout, event: EventId): Layout {
    Layout(Filter(l.sections, (s: Section) => s.event == event),
           Filter(l.tables, (t: Table) => t.event == event),
           Filter(l.seats, (s: Seat) => s.event == event))
  }

  /** The rows left when an event's are deleted; rows below a deleted one go with it. */
  function Wiped(l: Layout, event: EventId): Layout {
    var sections := Filter(l.sections, (s: Section) => s.event != event);
    var tables := Filter(l.tables, (t: Table) => t.event != event && t.sectionId in SectionIds(sections));
    var seats := Filter(l.seats, (s: Seat) => s.event != event && s.sectionId in SectionIds(sections)
                                              && (s.tableId.Some? ==> s.tableId.value in TableIds(tables)));
    Layout(sections, tables, seats)
  }

  // ---------------------------------------------------------------- what the database enforces

  ghost predicate Linked(l: Layout) {
    && (forall t | t in l.tables :: t.sectionId in SectionIds(l.sections))
    && (forall s | s in l.seats :: s.sectionId in SectionIds(l.sections) && (s.tableId.Some? ==> s.tableId.value in TableIds(l.tables)))
  }

  ghost predicate Named(l: Layout) {
    && (forall i, j | 0 <= i < j < |l.sections| :: l.sections[i].event != l.sections[j].event || l.sections[i].name != l.sections[j].name)
    && (forall i, j | 0 <= i < j < |l.tables| :: l.tables[i].sectionId != l.tables[j].sectionId || l.tables[i].name != l.tables[j].name)
  }

  ghost predicate Identified(l: Layout, next: Id) {
    && (forall s | s in l.sections :: s.id < next) && (forall t | t in l.tables :: t.id < next) && (forall s | s in l.seats :: s.id < next)
    && (forall i, j | 0 <= i < j < |l.sections| :: l.sections[i].id != l.sections[j].id)
    && (forall i, j | 0 <= i < j < |l.tables| :: l.tables[i].id != l.tables[j].id)
    && (forall i, j | 0 <= i < j < |l.seats| :: l.seats[i].id != l.seats[j].id)
  }

  ghost predicate Typed(l: Layout) {
    forall s | s in l.seats :: s.status in STATUSES && (s.seatType.Some? ==> s.seatType.value in SEAT_TYPES) && s.shape in SEAT_SHAPES
  }

  /** Foreign keys, unique names, primary keys and enum columns. */
  ghost predicate Valid(l: Layout, next: Id) {
    Linked(l) && Named(l) && Identified(l, next) && Typed(l)
  }

  lemma WipedSections(l: Layout, event: EventId, next: Id)
    requires Valid(l, next)
    ensures var w := Wiped(l, event).sections;
      && (forall i, j | 0 <= i < j < |w| :: w[i].id != w[j].id && (w[i].event != w[j].event || w[i].name != w[j].name))
      && (forall s | s in w :: s.id < next && s.event != event)
  {
    var at := FilterIsSubsequence(l.sections, (s: Section) => s.event != event);
  }

  lemma WipedTables(l: Layout, event: EventId, next: Id)
    requires Valid(l, next)
    ensures var w := Wiped(l, event).tables;
      && (forall i, j | 0 <= i < j < |w| :: w[i].id != w[j].id && (w[i].sectionId != w[j].sectionId || w[i].name != w[j].name))
      && (forall t | t in w :: t.id < next && t.event != event)
  {
    var sections := Wiped(l, event).sections;
    var at := FilterIsSubsequence(l.tables, (t: Table) => t.event != event && t.sectionId in SectionIds(sections));
  }

  lemma WipedSeats(l: Layout, event: EventId, next: Id)
    requires Valid(l, next)
    ensures var w := Wiped(l, event).seats;
      && (forall i, j | 0 <= i < j < |w| :: w[i].id != w[j].id)
      && (forall s | s in w :: s in l.seats && s.id < next && s.event != event)
  {
    var w := Wiped(l, event);
    var at := FilterIsSubsequence(l.seats, (s: Seat) => s.event != event && s.sectionId in SectionIds(w.sections)
                                                        && (s.tableId.Some? ==> s.tableId.value in TableIds(w.tables)));
  }

  /** Deleting an event's rows leaves every constraint intact. */
  lemma WipedIsValid(l: Layout, event: EventId, next: Id)
    requires Valid(l, next)
    ensures Valid(Wiped(l, event), next)
    ensures var w := Wiped(l, event);
      && (forall s | s in w.sections :: s.event != event)
      && (forall t | t in w.tables :: t.event != event)
      && (forall s | s in w.seats :: s.event != event)
  {
    WipedSections(l, event, next);
    WipedTables(l, event, next);
    WipedSeats(l, event, next);
  }

  /** The table is the event's, or stands in a section of it. */
  predicate TableUnder(l: Layout, event: EventId, t: Table) {
    t.event == event || exists s | s in l.sections :: s.id == t.sectionId && s.event == event
  }

  /** The seat is the event's, or stands in a section or at a table that is deleted with the event. */
  predicate SeatUnder(l: Layout, event: EventId, s: Seat) {
    || s.event == event
    || (exists c | c in l.sections :: c.id == s.sectionId && c.event == event)
    || (exists t | t in l.tables :: s.tableId == Some(t.id) && TableUnder(l, event, t))
  }

  /** A row survives the deletion of an event exactly when neither it nor any row above it is the event's. */
  lemma SurvivesIff(l: Layout, event: EventId, next: Id)
    requires Valid(l, next)
    ensures forall s :: s in Wiped(l, event).sections <==> s in l.sections && s.event != event
    ensures forall t :: t in Wiped(l, event).tables <==> t in l.tables && !TableUnder(l, event, t)
    ensures forall s :: s in Wiped(l, event).seats <==> s in l.seats && !SeatUnder(l, event, s)
  {
    var w := Wiped(l, event);
    SectionSurvives(l, event, next);
    forall t | t in l.tables
      ensures t in w.tables <==> !TableUnder(l, event, t)
    {
      assert t.sectionId in SectionIds(w.sections) <==> !exists s | s in l.sections :: s.id == t.sectionId && s.event == event;
    }
    TableSurvives(l, event, next);
    forall s | s in l.seats
      ensures s in w.seats <==> !SeatUnder(l, event, s)
    {
      SeatSurvives(l, event, next, s);
    }
  }

  lemma SectionSurvives(l: Layout, event: EventId, next: Id)
    requires Valid(l, next)
    ensures forall id | id in SectionIds(l.sections) ::
      id in SectionIds(Wiped(l, event).sections) <==> !exists s | s in l.sections :: s.id == id && s.event == event
  {
    var w := Wiped(l, event).sections;
    forall id | id in SectionIds(l.sections)
      ensures id in SectionIds(w) <==> !exists s | s in l.sections :: s.id == id && s.event == event
    {
      var s :| s in l.sections && s.id == id;
      if s.event != event {
        assert s in w;
      }
    }
  }

  lemma TableSurvives(l: Layout, event: EventId, next: Id)
    requires Valid(l, next) && forall t | t in l.tables :: t in Wiped(l, event).tables <==> !TableUnder(l, event, t)
    ensures forall id | id in TableIds(l.tables) ::
      id in TableIds(Wiped(l, event).tables) <==> !exists t | t in l.tables :: t.id == id && TableUnder(l, event, t)
  {
    hide TableUnder, Linked, Named, Typed;
    var w := Wiped(l, event).tables;
    forall id | id in TableIds(l.tables)
      ensures id in TableIds(w) <==> !exists t | t in l.tables :: t.id == id && TableUnder(l, event, t)
    {
      var t :| t in l.tables && t.id == id;
      if !TableUnder(l, event, t) {
        assert t in w;
      }
    }
  }

  lemma SeatSurvives(l: Layout, event: EventId, next: Id, s: Seat)
    requires Valid(l, next) && s in l.seats
    requires forall id | id in SectionIds(l.sections) ::
      id in SectionIds(Wiped(l, event).sections) <==> !exists c | c in l.sections :: c.id == id && c.event == event
    requires forall id | id in TableIds(l.tables) ::
      id in TableIds(Wiped(l, event).tables) <==> !exists t | t in l.tables :: t.id == id && TableUnder(l, event, t)
    ensures s in Wiped(l, event).seats <==> !SeatUnder(l, event, s)
  {
    hide TableUnder, SectionIds, TableIds, Named, Identified, Typed;
  }

  lemma ValidBelow(l: Layout, next: Id, later: Id)
    requires Valid(l, next) && next <= later
    ensures Valid(l, later)
  {
  }

  // ---------------------------------------------------------------- adding rows

  /** The rows of both layouts. */
  function Joined(a: Layout, b: Layout): Layout {
    Layout(a.sections + b.sections, a.tables + b.tables, a.seats + b.seats)
  }

  /** Two layouts with separate ids and names that are each valid are valid together. */
  lemma JoinedIsValid(a: Layout, b: Layout, middle: Id, next: Id)
    requires Valid(a, middle) && Valid(b, next) && middle <= next
    requires (forall s | s in b.sections :: s.id >= middle) && (forall t | t in b.tables :: t.id >= middle && t.sectionId >= middle)
    requires forall s | s in b.seats :: s.id >= middle
    requires forall s, u | s in a.sections && u in b.sections :: s.event != u.event
    ensures Valid(Joined(a, b), next)
  {
    JoinedLinks(a, b);
    JoinedNames(a, b, middle);
    JoinedIds(a, b, middle, next);
  }

  lemma JoinedLinks(a: Layout, b: Layout)
    requires Linked(a) && Linked(b)
    ensures Linked(Joined(a, b))
  {
    var l := Joined(a, b);
    assert SectionIds(l.sections) == SectionIds(a.sections) + SectionIds(b.sections);
    assert TableIds(l.tables) == TableIds(a.tables) + TableIds(b.tables);
  }

  lemma JoinedNames(a: Layout, b: Layout, middle: Id)
    requires Named(a) && Named(b) && Linked(a) && (forall s | s in a.sections :: s.id < middle)
    requires forall t | t in b.tables :: t.sectionId >= middle
    requires forall s, u | s in a.sections && u in b.sections :: s.event != u.event
    ensures Named(Joined(a, b))
  {
  }

  lemma JoinedIds(a: Layout, b: Layout, middle: Id, next: Id)
    requires Identified(a, middle) && Identified(b, next) && middle <= next
    requires (forall s | s in b.sections :: s.id >= middle) && (forall t | t in b.tables :: t.id >= middle)
    requires forall s | s in b.seats :: s.id >= middle
    ensures Identified(Joined(a, b), next)
  {
  }

  /** Rows added for an event that had none are all it has then. */
  lemma OfAdded(kept: Layout, added: Layout, event: EventId)
    requires (forall s | s in kept.sections :: s.event != event) && (forall s | s in added.sections :: s.event == event)
    requires (forall t | t in kept.tables :: t.event != event) && (forall t | t in added.tables :: t.event == event)
    requires (forall s | s in kept.seats :: s.event != event) && (forall s | s in added.seats :: s.event == event)
    ensures Of(Joined(kept, added), event) == added
  {
    OnlyAdded(kept.sections, added.sections, (s: Section) => s.event == event);
    OnlyAdded(kept.tables, added.tables, (t: Table) => t.event == event);
    OnlyAdded(kept.seats, added.seats, (s: Seat) => s.event == event);
  }
}
