/** Runs of the layout operations over one set of rows. */
module LayoutRuns {
  import opened Results
  import opened LayoutRows
  import opened Snapshots
  import opened Restoring
  import opened SeatPlan
  import opened GeometryRows
  import opened Cloning
  import opened RestoreProperties
  import opened GenerationProperties

  datatype LayoutRequest =
    | DeleteEvent(event: EventId)
    | Restore(event: EventId, data: Option<RawSnapshot>)
    | AutoGenerate(event: EventId, inputs: seq<SectionInput>, draw: Drawings)
    | Duplicate(tableId: Id, dx: real, dy: real)
    | Clone(sectionId: Id, dx: real, dy: real)

  /** The rows and the next free id after a request, also when it fails. */
  ghost function Perform(l: Layout, next: Id, q: LayoutRequest): (Layout, Id) {
    match q
    case DeleteEvent(event) => (Wiped(l, event), next)
    case Restore(event, data) => Restored(l, event, data, next).GetOr((l, next))
    case AutoGenerate(event, inputs, draw) => Generated(l, event, inputs, next, draw).GetOr((Wiped(l, event), next))
    case Duplicate(tableId, dx, dy) =>
      var o := DuplicatedTable(l, tableId, dx, dy, next);
      (o.rows, o.next)
    case Clone(sectionId, dx, dy) =>
      var o := ClonedSection(l, sectionId, dx, dy, next);
      (o.rows, o.next)
  }

  lemma PerformKeepsValid(l: Layout, next: Id, q: LayoutRequest)
    requires Valid(l, next)
    ensures var (after, last) := Perform(l, next, q); Valid(after, last)
  {
    hide Valid, Wiped, Restored, Generated, DuplicatedTable, ClonedSection;
    match q
    case DeleteEvent(event) => WipedIsValid(l, event, next);
    case Restore(event, data) =>
      if Restored(l, event, data, next).Some? {
        RestoreKeepsValid(l, event, data, next);
      }
    case AutoGenerate(event, inputs, draw) =>
      WipedIsValid(l, event, next);
      if Generated(l, event, inputs, next, draw).Some? {
        GenerateKeepsValid(l, event, inputs, next, draw);
      }
    case Duplicate(tableId, dx, dy) => DuplicateKeepsValid(l, tableId, dx, dy, next);
    case Clone(sectionId, dx, dy) => CloneKeepsValid(l, sectionId, dx, dy, next);
  }

  ghost function Performed(l: Layout, next: Id, qs: seq<LayoutRequest>): (Layout, Id)
    decreases |qs|
  {
    if |qs| == 0 then (l, next)
    else
      var (after, last) := Perform(l, next, qs[0]);
      Performed(after, last, qs[1..])
  }

  /** In every state of every run of layout operations no row dangles, names and ids are unique and enums are respected. */
  lemma {:induction false} RunsKeepValid(l: Layout, next: Id, qs: seq<LayoutRequest>)
    requires Valid(l, next)
    ensures var (after, last) := Performed(l, next, qs); Valid(after, last)
    decreases |qs|
  {
    hide Valid, Perform;
    if |qs| > 0 {
      PerformKeepsValid(l, next, qs[0]);
      var (after, last) := Perform(l, next, qs[0]);
      RunsKeepValid(after, last, qs[1..]);
    }
  }

  // ---------------------------------------------------------------- which seats a request removes and adds

  /** The rows that were there before and are still there after the request. */
  ghost function Kept(l: Layout, next: Id, q: LayoutRequest): Layout {
    match q
    case DeleteEvent(event) => Wiped(l, event)
    case Restore(event, data) => if Restored(l, event, data, next).Some? then Wiped(l, event) else l
    case AutoGenerate(event, _, _) => Wiped(l, event)
    case Duplicate(_, _, _) => l
    case Clone(_, _, _) => l
  }

  /** The seats are the kept ones, as they were, and after them new ones that nobody holds. */
  ghost predicate Grown(kept: seq<Seat>, next: Id, seats: seq<Seat>, last: Id) {
    && next <= last && kept <= seats
    && forall s | s in seats[|kept|..] :: s.Blank() && s.id >= next
  }

  lemma GrownBy(kept: seq<Seat>, added: seq<Seat>, next: Id, last: Id)
    requires next <= last && forall s | s in added :: s.Blank() && s.id >= next
    ensures Grown(kept, next, kept + added, last)
  {
    assert (kept + added)[|kept|..] == added;
  }

  /** Whatever a layout operation does to the seats is deleting some and creating others without a holder. */
  lemma PerformGrows(l: Layout, next: Id, q: LayoutRequest)
    requires Valid(l, next)
    ensures var (after, last) := Perform(l, next, q); Grown(Kept(l, next, q).seats, next, after.seats, last)
  {
    hide Grown, Wiped, Restored, Generated, DuplicatedTable, ClonedSection, Valid;
    match q
    case DeleteEvent(event) => NothingGrown(Wiped(l, event).seats, next);
    case Restore(event, data) =>
      if Restored(l, event, data, next).Some? {
        RestoreGrows(l, event, data, next);
      } else {
        NothingGrown(l.seats, next);
      }
    case AutoGenerate(event, inputs, draw) =>
      if Generated(l, event, inputs, next, draw).Some? {
        GenerateGrows(l, event, inputs, next, draw);
      } else {
        NothingGrown(Wiped(l, event).seats, next);
      }
    case Duplicate(tableId, dx, dy) => DuplicateGrows(l, tableId, dx, dy, next);
    case Clone(sectionId, dx, dy) => CloneGrows(l, sectionId, dx, dy, next);
  }

  lemma NothingGrown(seats: seq<Seat>, next: Id)
    ensures Grown(seats, next, seats, next)
  {
  }

  lemma RestoreGrows(l: Layout, event: EventId, data: Option<RawSnapshot>, next: Id)
    requires Valid(l, next) && Restored(l, event, data, next).Some?
    ensures var (after, last) := Restored(l, event, data, next).value; Grown(Wiped(l, event).seats, next, after.seats, last)
  {
    RestoredIsJoined(l, event, data, next);
    hide *;
    var snap, base := NormalizeSnapshot(data, next), next + NewIds(data);
    AddedBounds(snap, event, base);
    var (after, last) := Restored(l, event, data, next).value;
    GrownBy(Wiped(l, event).seats, Added(snap, event, base).seats, next, last);
  }

  lemma RestoredIsJoined(l: Layout, event: EventId, data: Option<RawSnapshot>, next: Id)
    requires Restored(l, event, data, next).Some?
    ensures var snap, base := NormalizeSnapshot(data, next), next + NewIds(data);
      Restored(l, event, data, next).value.0.seats == Wiped(l, event).seats + Added(snap, event, base).seats
      && Restored(l, event, data, next).value.1 >= next && base >= next
  {
    hide Wiped, SectionMap, TableMap, RestoredTables, RestoredSeats, RestoredSections, Admitted, NormalizeSnapshot, NewIds;
  }

  lemma GenerateGrows(l: Layout, event: EventId, inputs: seq<SectionInput>, next: Id, draw: Drawings)
    requires Valid(l, next) && Generated(l, event, inputs, next, draw).Some?
    ensures var (after, last) := Generated(l, event, inputs, next, draw).value; Grown(Wiped(l, event).seats, next, after.seats, last)
  {
    hide *;
    GeneratedIs(l, event, inputs, next, draw);
    StoredBounds(inputs, event, next, draw);
    StoredAreBlank(inputs, event, next, draw);
    JoinedSeats(Wiped(l, event), Stored(inputs, event, next, draw));
    GrownBy(Wiped(l, event).seats, Stored(inputs, event, next, draw).seats, next, NextAfter(inputs, next));
  }

  lemma JoinedSeats(a: Layout, b: Layout)
    ensures Joined(a, b).seats == a.seats + b.seats
  {
  }

  lemma StoredAreBlank(inputs: seq<SectionInput>, event: EventId, next: Id, draw: Drawings)
    ensures forall s | s in Stored(inputs, event, next, draw).seats :: s.Blank()
  {
    hide StoredTables, StoredSections, StoredSeats, TableOfInput, AllSeats;
    SeatsStored(inputs, event, next, draw);
  }

  lemma CloneSeatsAreNew(seats: seq<Seat>, base: Id, section: Option<Id>, tableId: Id, dx: real, dy: real)
    ensures forall s | s in CloneSeats(seats, base, section, tableId, dx, dy) :: s.Blank() && s.id >= base
  {
  }

  lemma DuplicateGrows(l: Layout, tableId: Id, dx: real, dy: real, next: Id)
    ensures var o := DuplicatedTable(l, tableId, dx, dy, next); Grown(l.seats, next, o.rows.seats, o.next)
  {
    var o := DuplicatedTable(l, tableId, dx, dy, next);
    hide Grown, CloneSeats, FindTable, TableNameTaken, SeatsAt;
    if o.result.Ok? {
      var added := CloneSeats(SeatsAt(l, tableId), next + 1, None, next, dx, dy);
      CloneSeatsAreNew(SeatsAt(l, tableId), next + 1, None, next, dx, dy);
      GrownBy(l.seats, added, next, o.next);
    } else {
      NothingGrown(l.seats, next);
    }
  }

  lemma GrownTwice(a: seq<Seat>, b: seq<Seat>, added: seq<Seat>, next: Id, middle: Id, last: Id)
    requires Grown(a, next, b, middle) && middle <= last && forall s | s in added :: s.Blank() && s.id >= middle
    ensures Grown(a, next, b + added, last)
  {
    assert (b + added)[|a|..] == b[|a|..] + added;
  }

  lemma {:induction false} ClonedTablesGrow(l: Layout, tables: seq<Table>, event: EventId, sectionId: Id, dx: real, dy: real, next: Id)
    ensures var (rows, last) := ClonedTables(l, tables, event, sectionId, dx, dy, next); Grown(l.seats, next, rows.seats, last)
  {
    hide Grown, CloneSeats, SeatsAt, CloneTable;
    if tables == [] {
      NothingGrown(l.seats, next);
    } else {
      var end := |tables| - 1;
      ClonedTablesGrow(l, tables[..end], event, sectionId, dx, dy, next);
      var (before, id) := ClonedTables(l, tables[..end], event, sectionId, dx, dy, next);
      var of := SeatsAt(l, tables[end].id);
      CloneSeatsAreNew(of, id + 1, Some(sectionId), id, dx, dy);
      GrownTwice(l.seats, before.seats, CloneSeats(of, id + 1, Some(sectionId), id, dx, dy), next, id, id + 1 + |of|);
    }
  }

  lemma CloneGrows(l: Layout, sectionId: Id, dx: real, dy: real, next: Id)
    ensures var o := ClonedSection(l, sectionId, dx, dy, next); Grown(l.seats, next, o.rows.seats, o.next)
  {
    hide Grown, ClonedTables, FindSection, SectionNameTaken;
    var o := ClonedSection(l, sectionId, dx, dy, next);
    if o.result.Ok? {
      var s := FindSection(l.sections, sectionId).value;
      var grown := l.(sections := l.sections + [CloneOfSection(s, next, dx, dy)]);
      ClonedTablesGrow(grown, Cloning.TablesIn(l, sectionId), s.event, next, dx, dy, next + 1);
      GrownEarlier(l.seats, next, next + 1, o.rows.seats, o.next);
    } else {
      NothingGrown(l.seats, next);
    }
  }

  lemma GrownEarlier(kept: seq<Seat>, next: Id, later: Id, seats: seq<Seat>, last: Id)
    requires Grown(kept, later, seats, last) && next <= later
    ensures Grown(kept, next, seats, last)
  {
  }
}
