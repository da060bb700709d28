/** What duplicating a table and cloning a section write. */
module Cloning {
  import opened Results
  import opened Sequences
  import opened MetaDefaults
  import opened LayoutRows

  datatype CloneError = EntityNotFound | NameTaken | VersionExists

  function CloneTable(t: Table, event: EventId, id: Id, sectionId: Id, dx: real, dy: real): Table {
    Table(id, event, sectionId, t.name + "_copy", t.order, t.x + dx, t.y + dy, t.capacity, Prepared(t.meta))
  }

  /** A cloned seat keeps its status but has no holder, and its shape is the default one. */
  function CloneSeat(s: Seat, id: Id, sectionId: Id, tableId: Id, dx: real, dy: real): Seat {
    Seat(id, s.event, sectionId, Some(tableId), s.number, s.seatLabel, Some(s.x.GetOr(0.0) + dx), Some(s.y.GetOr(0.0) + dy), s.rotation,
         s.seatType, s.status, None, None, None, DEFAULT_SHAPE, Prepared(s.meta))
  }

  function SeatsAt(l: Layout, tableId: Id): seq<Seat> {
    Filter(l.seats, (s: Seat) => s.tableId == Some(tableId))
  }

  /** The clones of some seats, numbered from `base`; each stays in its own section, or goes to the given one. */
  function CloneSeats(seats: seq<Seat>, base: Id, section: Option<Id>, tableId: Id, dx: real, dy: real): (clones: seq<Seat>)
    ensures |clones| == |seats|
    ensures forall k | 0 <= k < |seats| ::
      clones[k] == CloneSeat(seats[k], base + k, section.GetOr(seats[k].sectionId), tableId, dx, dy)
  {
    seq(|seats|, k requires 0 <= k < |seats| => CloneSeat(seats[k], base + k, section.GetOr(seats[k].sectionId), tableId, dx, dy))
  }

  function FindTable(rows: seq<Table>, id: Id): (found: Option<Table>)
    ensures found.Some? ==> found.value in rows && found.value.id == id
    ensures found.None? ==> forall t | t in rows :: t.id != id
  {
    var at := FirstIndex(rows, (t: Table) => t.id == id);
    if at.Some? then Some(rows[at.value]) else None
  }

  function FindSection(rows: seq<Section>, id: Id): (found: Option<Section>)
    ensures found.Some? ==> found.value in rows && found.value.id == id
    ensures found.None? ==> forall s | s in rows :: s.id != id
  {
    var at := FirstIndex(rows, (s: Section) => s.id == id);
    if at.Some? then Some(rows[at.value]) else None
  }

  datatype Outcome = Outcome(result: Result<Id, CloneError>, rows: Layout, next: Id)

  function DuplicatedTable(l: Layout, tableId: Id, dx: real, dy: real, next: Id): Outcome {
    var found := FindTable(l.tables, tableId);
    if found.None? then Outcome(Err(EntityNotFound), l, next)
    else
      var t := found.value;
      if TableNameTaken(l.tables, t.sectionId, t.name + "_copy") then Outcome(Err(NameTaken), l, next)
      else
        var seats := CloneSeats(SeatsAt(l, tableId), next + 1, None, next, dx, dy);
        Outcome(Ok(next), Layout(l.sections, l.tables + [CloneTable(t, t.event, next, t.sectionId, dx, dy)], l.seats + seats), next + 1 + |seats|)
  }

  /** Cloning the first tables of a section, each with its seats, into the new section `sectionId`. */
  function ClonedTables(l: Layout, tables: seq<Table>, event: EventId, sectionId: Id, dx: real, dy: real, next: Id): (Layout, Id) {
    if tables == [] then (l, next)
    else
      var last := |tables| - 1;
      var (before, id) := ClonedTables(l, tables[..last], event, sectionId, dx, dy, next);
      var seats := CloneSeats(SeatsAt(l, tables[last].id), id + 1, Some(sectionId), id, dx, dy);
      (Layout(before.sections, before.tables + [CloneTable(tables[last], event, id, sectionId, dx, dy)], before.seats + seats), id + 1 + |seats|)
  }

  function CloneOfSection(s: Section, id: Id, dx: real, dy: real): Section {
    Section(id, s.event, s.name + "_copy", s.order, s.x + dx, s.y + dy, None, None, Prepared(s.meta))
  }

  function TablesIn(l: Layout, sectionId: Id): seq<Table> {
    Filter(l.tables, (t: Table) => t.sectionId == sectionId)
  }

  function ClonedSection(l: Layout, sectionId: Id, dx: real, dy: real, next: Id): Outcome {
    var found := FindSection(l.sections, sectionId);
    if found.None? then Outcome(Err(EntityNotFound), l, next)
    else
      var s := found.value;
      if SectionNameTaken(l.sections, s.event, s.name + "_copy") then Outcome(Err(NameTaken), l, next)
      else
        var grown := l.(sections := l.sections + [CloneOfSection(s, next, dx, dy)]);
        var (rows, last) := ClonedTables(grown, TablesIn(l, sectionId), s.event, next, dx, dy, next + 1);
        Outcome(Ok(next), rows, last)
  }

  // ---------------------------------------------------------------- what clones are

  /** What a clone copies of its seat; it has no holder and the default shape, and its metadata is prepared. */
  predicate ClonesSeat(s: Seat, c: Seat, dx: real, dy: real) {
    && c.event == s.event && c.number == s.number && c.seatLabel == s.seatLabel && c.rotation == s.rotation
    && c.seatType == s.seatType && c.status == s.status && c.Blank() && c.shape == DEFAULT_SHAPE && c.meta == Prepared(s.meta)
    && c.x == Some(s.x.GetOr(0.0) + dx) && c.y == Some(s.y.GetOr(0.0) + dy)
  }

  lemma CloneSeatClones(s: Seat, id: Id, sectionId: Id, tableId: Id, dx: real, dy: real)
    ensures ClonesSeat(s, CloneSeat(s, id, sectionId, tableId, dx, dy), dx, dy)
  {
  }

  lemma CloneSeatLinks(s: Seat, id: Id, sectionId: Id, tableId: Id, dx: real, dy: real)
    ensures var c := CloneSeat(s, id, sectionId, tableId, dx, dy);
      c.id == id && c.sectionId == sectionId && c.tableId == Some(tableId) && c.seatType == s.seatType && c.status == s.status
      && c.shape in SEAT_SHAPES
  {
  }

  /** Row `p` is a clone of the seat at the given table, in the given section or else in the seat's own. */
  predicate SeatIsCopied(s: Seat, rows: seq<Seat>, p: nat, tableId: Id, section: Option<Id>, dx: real, dy: real) {
    p < |rows| && rows[p].tableId == Some(tableId) && rows[p].sectionId == section.GetOr(s.sectionId) && ClonesSeat(s, rows[p], dx, dy)
  }

  predicate SeatsAreCopied(seats: seq<Seat>, rows: seq<Seat>, start: nat, tableId: Id, section: Option<Id>, dx: real, dy: real) {
    forall k | 0 <= k < |seats| :: SeatIsCopied(seats[k], rows, start + k, tableId, section, dx, dy)
  }

  lemma SeatsStayCopied(seats: seq<Seat>, some: seq<Seat>, rows: seq<Seat>, start: nat, tableId: Id, section: Option<Id>, dx: real, dy: real)
    requires some <= rows && SeatsAreCopied(seats, some, start, tableId, section, dx, dy)
    ensures SeatsAreCopied(seats, rows, start, tableId, section, dx, dy)
  {
    hide ClonesSeat;
    forall k | 0 <= k < |seats|
      ensures SeatIsCopied(seats[k], rows, start + k, tableId, section, dx, dy)
    {
      assert SeatIsCopied(seats[k], some, start + k, tableId, section, dx, dy);
    }
  }

  lemma ClonesAreCopied(seats: seq<Seat>, before: seq<Seat>, tableId: Id, section: Option<Id>, dx: real, dy: real)
    ensures SeatsAreCopied(seats, before + CloneSeats(seats, tableId + 1, section, tableId, dx, dy), |before|, tableId, section, dx, dy)
  {
    hide ClonesSeat, CloneSeat;
    forall k | 0 <= k < |seats|
      ensures SeatIsCopied(seats[k], before + CloneSeats(seats, tableId + 1, section, tableId, dx, dy), |before| + k, tableId, section, dx, dy)
    {
      CloneSeatClones(seats[k], tableId + 1 + k, section.GetOr(seats[k].sectionId), tableId, dx, dy);
      CloneSeatLinks(seats[k], tableId + 1 + k, section.GetOr(seats[k].sectionId), tableId, dx, dy);
    }
  }

  /** What a copy of a table takes over: its name is marked as a copy's, its place moved and its metadata prepared. */
  predicate CopiesTable(t: Table, c: Table, event: EventId, sectionId: Id, dx: real, dy: real) {
    && c.event == event && c.sectionId == sectionId && c.name == t.name + "_copy" && c.order == t.order && c.capacity == t.capacity
    && c.x == t.x + dx && c.y == t.y + dy && c.meta == Prepared(t.meta)
  }

  lemma CloneTableCopies(t: Table, event: EventId, id: Id, sectionId: Id, dx: real, dy: real)
    ensures CopiesTable(t, CloneTable(t, event, id, sectionId, dx, dy), event, sectionId, dx, dy)
    ensures CloneTable(t, event, id, sectionId, dx, dy).id == id
  {
  }

  /** A table is duplicated unless it is not there, or a table of its section already has the copy's name. */
  lemma DuplicatesIff(l: Layout, next: Id, tableId: Id, dx: real, dy: real)
    requires Valid(l, next)
    ensures var o := DuplicatedTable(l, tableId, dx, dy, next);
      && ((forall t | t in l.tables :: t.id != tableId) ==> o == Outcome(Err(EntityNotFound), l, next))
      && forall t | t in l.tables && t.id == tableId ::
        if exists u :: u in l.tables && u.sectionId == t.sectionId && u.name == t.name + "_copy" then o == Outcome(Err(NameTaken), l, next)
        else o.result == Ok(next)
  {
    hide CloneTable, CloneSeats, SeatsAt, Linked, Named, Typed;
  }

  /** So is a section, unless a section of its event has the copy's name. */
  lemma ClonesIff(l: Layout, next: Id, sectionId: Id, dx: real, dy: real)
    requires Valid(l, next)
    ensures var o := ClonedSection(l, sectionId, dx, dy, next);
      && ((forall s | s in l.sections :: s.id != sectionId) ==> o == Outcome(Err(EntityNotFound), l, next))
      && forall s | s in l.sections && s.id == sectionId ::
        if exists u :: u in l.sections && u.event == s.event && u.name == s.name + "_copy" then o == Outcome(Err(NameTaken), l, next)
        else o.result == Ok(next)
  {
    hide CloneOfSection, ClonedTables, TablesIn, Linked, Named, Typed;
  }

  /**
   Duplicating a table adds one copy of it to its section, with a clone of each of its seats in the seat's own section,
   and touches no other row.
   */
  lemma DuplicateCopiesTable(l: Layout, tableId: Id, dx: real, dy: real, next: Id) returns (t: Table)
    requires DuplicatedTable(l, tableId, dx, dy, next).result.Ok?
    ensures t in l.tables && t.id == tableId
    ensures var o := DuplicatedTable(l, tableId, dx, dy, next); var original := SeatsAt(l, tableId);
      && o.rows.sections == l.sections && l.tables < o.rows.tables && |o.rows.tables| == |l.tables| + 1
      && o.rows.tables[|l.tables|].id == o.result.value && CopiesTable(t, o.rows.tables[|l.tables|], t.event, t.sectionId, dx, dy)
      && l.seats <= o.rows.seats && |o.rows.seats| == |l.seats| + |original|
      && SeatsAreCopied(original, o.rows.seats, |l.seats|, o.result.value, None, dx, dy)
  {
    t := DuplicatedIs(l, tableId, dx, dy, next);
    hide *;
    CloneTableCopies(t, t.event, next, t.sectionId, dx, dy);
    ClonesAreCopied(SeatsAt(l, tableId), l.seats, next, None, dx, dy);
  }

  lemma DuplicatedIs(l: Layout, tableId: Id, dx: real, dy: real, next: Id) returns (t: Table)
    requires DuplicatedTable(l, tableId, dx, dy, next).result.Ok?
    ensures t in l.tables && t.id == tableId
    ensures var o := DuplicatedTable(l, tableId, dx, dy, next); var original := SeatsAt(l, tableId);
      && o.result == Ok(next)
      && o.rows == Layout(l.sections, l.tables + [CloneTable(t, t.event, next, t.sectionId, dx, dy)],
                          l.seats + CloneSeats(original, next + 1, None, next, dx, dy))
      && |CloneSeats(original, next + 1, None, next, dx, dy)| == |original|
  {
    hide CloneSeat, CloneTable, SeatsAt, TableNameTaken;
    t := FindTable(l.tables, tableId).value;
  }

  /** The name of a copy is fixed, so the same table cannot be duplicated a second time. */
  lemma DuplicateOnlyOnce(l: Layout, tableId: Id, dx: real, dy: real, next: Id)
    requires Identified(l, next) && DuplicatedTable(l, tableId, dx, dy, next).result.Ok?
    ensures var o := DuplicatedTable(l, tableId, dx, dy, next);
      DuplicatedTable(o.rows, tableId, dx, dy, o.next) == Outcome(Err(NameTaken), o.rows, o.next)
  {
    hide CloneSeats;
    var o := DuplicatedTable(l, tableId, dx, dy, next);
    var t := FindTable(l.tables, tableId).value;
    var clone := CloneTable(t, t.event, next, t.sectionId, dx, dy);
    assert o.rows.tables[..|l.tables|] == l.tables && o.rows.tables[|l.tables|] == clone;
    assert clone in o.rows.tables;
  }

  // ---------------------------------------------------------------- what cloning keeps

  /** Seats fit to be added below a new table. */
  ghost predicate SeatsFit(l: Layout, seats: seq<Seat>, tableId: Id, next: Id) {
    && (forall s | s in seats :: s.tableId == Some(tableId) && s.sectionId in SectionIds(l.sections))
    && (forall s | s in seats :: s.status in STATUSES && (s.seatType.Some? ==> s.seatType.value in SEAT_TYPES) && s.shape in SEAT_SHAPES)
    && (forall s | s in seats :: tableId < s.id < next)
    && (forall i, j | 0 <= i < j < |seats| :: seats[i].id != seats[j].id)
  }

  lemma AddedTableKeepsValid(l: Layout, t: Table, seats: seq<Seat>, next: Id, after: Id)
    requires Valid(l, next) && next <= t.id < after && t.sectionId in SectionIds(l.sections) && !TableNameTaken(l.tables, t.sectionId, t.name)
    requires SeatsFit(l, seats, t.id, after)
    ensures Valid(Layout(l.sections, l.tables + [t], l.seats + seats), after)
  {
    var added := Layout(l.sections, l.tables + [t], l.seats + seats);
    assert TableIds(added.tables) == TableIds(l.tables) + {t.id};
    assert forall u | u in l.tables :: u.sectionId != t.sectionId || u.name != t.name;
    AddedIds(l, t, seats, next, after);
  }

  lemma AddedIds(l: Layout, t: Table, seats: seq<Seat>, next: Id, after: Id)
    requires Identified(l, next) && next <= t.id < after && SeatsFit(l, seats, t.id, after)
    ensures Identified(Layout(l.sections, l.tables + [t], l.seats + seats), after)
  {
  }

  lemma ClonedSeatsFit(l: Layout, grown: Layout, original: seq<Seat>, base: Id, section: Option<Id>, tableId: Id, dx: real, dy: real)
    requires Linked(l) && Typed(l) && SectionIds(l.sections) <= SectionIds(grown.sections)
    requires (forall s | s in original :: s in l.seats) && base == tableId + 1 && (section.Some? ==> section.value in SectionIds(grown.sections))
    ensures SeatsFit(grown, CloneSeats(original, base, section, tableId, dx, dy), tableId, base + |original|)
  {
    hide CloneSeat, SectionIds;
    var clones := CloneSeats(original, base, section, tableId, dx, dy);
    forall k | 0 <= k < |clones|
      ensures var c := clones[k];
        && c.tableId == Some(tableId) && c.sectionId in SectionIds(grown.sections) && c.id == base + k
        && c.status in STATUSES && (c.seatType.Some? ==> c.seatType.value in SEAT_TYPES) && c.shape in SEAT_SHAPES
    {
      assert original[k] in l.seats;
      SeatLinks(l, original[k]);
      CloneSeatLinks(original[k], base + k, section.GetOr(original[k].sectionId), tableId, dx, dy);
    }
  }

  lemma SeatLinks(l: Layout, s: Seat)
    requires Linked(l) && s in l.seats
    ensures s.sectionId in SectionIds(l.sections)
  {
  }

  /** Duplicating a table leaves every constraint intact. */
  lemma DuplicateKeepsValid(l: Layout, tableId: Id, dx: real, dy: real, next: Id)
    requires Valid(l, next)
    ensures var o := DuplicatedTable(l, tableId, dx, dy, next); Valid(o.rows, o.next)
  {
    hide Named, Identified, Typed, TableNameTaken, CloneSeats;
    var o := DuplicatedTable(l, tableId, dx, dy, next);
    if o.result.Ok? {
      var t := FindTable(l.tables, tableId).value;
      var seats := CloneSeats(SeatsAt(l, tableId), next + 1, None, next, dx, dy);
      ClonedSeatsFit(l, l, SeatsAt(l, tableId), next + 1, None, next, dx, dy);
      AddedTableKeepsValid(l, CloneTable(t, t.event, next, t.sectionId, dx, dy), seats, next, o.next);
    }
  }

  predicate NamesDiffer(tables: seq<Table>) {
    forall i, j | 0 <= i < j < |tables| :: tables[i].name != tables[j].name
  }

  /** The tables of section `id` are copies of the first `k` tables. */
  ghost predicate OnlyCopies(rows: Layout, original: seq<Table>, k: nat, id: Id) {
    k <= |original| && forall t | t in rows.tables && t.sectionId == id :: exists j :: 0 <= j < k && t.name == original[j].name + "_copy"
  }

  lemma CopyNamesDiffer(a: string, b: string)
    requires a + "_copy" == b + "_copy"
    ensures a == b
  {
    assert a == (a + "_copy")[..|a|] && b == (b + "_copy")[..|b|];
  }

  lemma NameIsFree(rows: Layout, original: seq<Table>, k: nat, id: Id)
    requires k < |original| && OnlyCopies(rows, original, k, id)
    requires NamesDiffer(original)
    ensures !TableNameTaken(rows.tables, id, original[k].name + "_copy")
  {
    if TableNameTaken(rows.tables, id, original[k].name + "_copy") {
      var t :| t in rows.tables && t.sectionId == id && t.name == original[k].name + "_copy";
      var j :| 0 <= j < k && t.name == original[j].name + "_copy";
      CopyNamesDiffer(original[j].name, original[k].name);
    }
  }

  /** Cloning one table more. */
  lemma OneMoreClone(grown: Layout, original: seq<Table>, k: nat, event: EventId, id: Id, dx: real, dy: real, next: Id)
    requires k < |original|
    ensures var (before, tableId) := ClonedTables(grown, original[..k], event, id, dx, dy, next);
      var of := SeatsAt(grown, original[k].id);
      ClonedTables(grown, original[..k + 1], event, id, dx, dy, next)
      == (Layout(before.sections, before.tables + [CloneTable(original[k], event, tableId, id, dx, dy)],
                 before.seats + CloneSeats(of, tableId + 1, Some(id), tableId, dx, dy)), tableId + 1 + |of|)
  {
    assert original[..k + 1][..k] == original[..k];
  }

  lemma CopiesGrow(before: Layout, rows: Layout, original: seq<Table>, k: nat, event: EventId, tableId: Id, id: Id, dx: real, dy: real)
    requires k < |original| && OnlyCopies(before, original, k, id)
    requires rows.tables == before.tables + [CloneTable(original[k], event, tableId, id, dx, dy)]
    ensures OnlyCopies(rows, original, k + 1, id)
  {
    forall t | t in rows.tables && t.sectionId == id
      ensures exists j :: 0 <= j < k + 1 && t.name == original[j].name + "_copy"
    {
      if t in before.tables {
        var j :| 0 <= j < k && t.name == original[j].name + "_copy";
      } else {
        assert t.name == original[k].name + "_copy";
      }
    }
  }

  lemma CloneStepKeepsValid(l: Layout, grown: Layout, before: Layout, original: seq<Table>, m: nat, event: EventId, tableId: Id, id: Id,
                            dx: real, dy: real, next: Id)
    requires Valid(l, next) && grown.seats == l.seats && SectionIds(l.sections) <= SectionIds(before.sections) && id in SectionIds(before.sections)
    requires Valid(before, tableId) && m < |original| && OnlyCopies(before, original, m, id)
    requires NamesDiffer(original)
    ensures var of := SeatsAt(grown, original[m].id);
      var rows := Layout(before.sections, before.tables + [CloneTable(original[m], event, tableId, id, dx, dy)],
                         before.seats + CloneSeats(of, tableId + 1, Some(id), tableId, dx, dy));
      Valid(rows, tableId + 1 + |of|) && OnlyCopies(rows, original, m + 1, id)
  {
    hide Valid, TableNameTaken, CloneSeats, SeatsFit, SeatsAt, SectionIds, OnlyCopies, Linked, Typed;
    var clone := CloneTable(original[m], event, tableId, id, dx, dy);
    var of := SeatsAt(grown, original[m].id);
    NameIsFree(before, original, m, id);
    LinkedAndTyped(l, next);
    SeatsAtAre(l, grown, original[m].id);
    ClonedSeatsFit(l, before, of, tableId + 1, Some(id), tableId, dx, dy);
    AddedTableKeepsValid(before, clone, CloneSeats(of, tableId + 1, Some(id), tableId, dx, dy), tableId, tableId + 1 + |of|);
    var rows := Layout(before.sections, before.tables + [clone], before.seats + CloneSeats(of, tableId + 1, Some(id), tableId, dx, dy));
    CopiesGrow(before, rows, original, m, event, tableId, id, dx, dy);
  }

  lemma {:induction false} ClonedTablesKeepValid(l: Layout, grown: Layout, original: seq<Table>, k: nat, event: EventId, id: Id,
                                                dx: real, dy: real, next: Id)
    requires Valid(l, next) && Valid(grown, next) && grown.tables == l.tables && grown.seats == l.seats && k <= |original|
    requires SectionIds(l.sections) <= SectionIds(grown.sections) && id in SectionIds(grown.sections)
    requires OnlyCopies(grown, original, 0, id) && NamesDiffer(original)
    ensures var (rows, last) := ClonedTables(grown, original[..k], event, id, dx, dy, next);
      Valid(rows, last) && next <= last && rows.sections == grown.sections && OnlyCopies(rows, original, k, id)
    decreases k
  {
    if k == 0 {
      hide Valid, SectionIds, OnlyCopies, NamesDiffer;
    } else {
      hide *;
      var m := k - 1;
      ClonedTablesKeepValid(l, grown, original, m, event, id, dx, dy, next);
      OneMoreClone(grown, original, m, event, id, dx, dy, next);
      var (before, tableId) := ClonedTables(grown, original[..m], event, id, dx, dy, next);
      CloneStepKeepsValid(l, grown, before, original, m, event, tableId, id, dx, dy, next);
    }
  }

  lemma LinkedAndTyped(l: Layout, next: Id)
    requires Valid(l, next)
    ensures Linked(l) && Typed(l)
  {
  }

  lemma SeatsAtAre(l: Layout, grown: Layout, tableId: Id)
    requires grown.seats == l.seats
    ensures forall s | s in SeatsAt(grown, tableId) :: s in l.seats
  {
  }

  /** Cloning a section leaves every constraint intact: no copied name can clash within the new section. */
  lemma CloneKeepsValid(l: Layout, sectionId: Id, dx: real, dy: real, next: Id)
    requires Valid(l, next)
    ensures var o := ClonedSection(l, sectionId, dx, dy, next); Valid(o.rows, o.next)
  {
    hide Identified, Typed, ClonedTables;
    var o := ClonedSection(l, sectionId, dx, dy, next);
    if o.result.Ok? {
      var s := FindSection(l.sections, sectionId).value;
      var grown := l.(sections := l.sections + [CloneOfSection(s, next, dx, dy)]);
      var original := TablesIn(l, sectionId);
      GrownIsValid(l, s, dx, dy, next);
      WiderIsValid(l, next);
      TablesInDiffer(l, sectionId, next);
      SectionIsNew(l, next);
      ClonedTablesKeepValid(l, grown, original, |original|, s.event, next, dx, dy, next + 1);
      assert original[..|original|] == original;
    }
  }

  lemma WiderIsValid(l: Layout, next: Id)
    requires Valid(l, next)
    ensures Valid(l, next + 1)
  {
  }

  lemma SectionIsNew(l: Layout, next: Id)
    requires Valid(l, next)
    ensures forall t | t in l.tables :: t.sectionId != next
  {
  }

  lemma TablesInDiffer(l: Layout, sectionId: Id, next: Id)
    requires Valid(l, next)
    ensures NamesDiffer(TablesIn(l, sectionId))
  {
    var kept := TablesIn(l, sectionId);
    var at := FilterIsSubsequence(l.tables, (t: Table) => t.sectionId == sectionId);
    hide Linked, Identified, Typed, Filter;
    forall i, j | 0 <= i < j < |kept|
      ensures kept[i].name != kept[j].name
    {
      assert at[i] < at[j] && l.tables[at[i]] == kept[i] && l.tables[at[j]] == kept[j];
      assert kept[i] in kept && kept[j] in kept;
    }
  }

  lemma GrownIsValid(l: Layout, s: Section, dx: real, dy: real, next: Id)
    requires Valid(l, next) && !SectionNameTaken(l.sections, s.event, s.name + "_copy")
    ensures var grown := l.(sections := l.sections + [CloneOfSection(s, next, dx, dy)]);
      Valid(grown, next + 1) && SectionIds(grown.sections) == SectionIds(l.sections) + {next}
  {
    var clone := CloneOfSection(s, next, dx, dy);
    var grown := l.(sections := l.sections + [clone]);
    assert SectionIds(grown.sections) == SectionIds(l.sections) + {next} by {
      assert grown.sections[|l.sections|] == clone;
    }
    assert forall u | u in l.sections :: u.event != clone.event || u.name != clone.name;
  }

  // ---------------------------------------------------------------- what cloning a section copies

  /** How many seats the tables have together. */
  function SeatCount(l: Layout, tables: seq<Table>): nat {
    if tables == [] then 0 else SeatCount(l, tables[..|tables| - 1]) + |SeatsAt(l, tables[|tables| - 1].id)|
  }

  /** Table `j` has its copy in section `id`; its seats' clones follow those of the tables before it. */
  predicate TableIsCopied(l: Layout, rows: Layout, original: seq<Table>, j: nat, event: EventId, id: Id, dx: real, dy: real)
    requires j < |original|
  {
    && |l.tables| + j < |rows.tables|
    && var c := rows.tables[|l.tables| + j];
    && CopiesTable(original[j], c, event, id, dx, dy)
    && SeatsAreCopied(SeatsAt(l, original[j].id), rows.seats, |l.seats| + SeatCount(l, original[..j]), c.id, Some(id), dx, dy)
  }

  lemma TableStaysCopied(l: Layout, before: Layout, rows: Layout, original: seq<Table>, j: nat, event: EventId, id: Id, dx: real, dy: real)
    requires j < |original| && before.tables <= rows.tables && before.seats <= rows.seats
    requires TableIsCopied(l, before, original, j, event, id, dx, dy)
    ensures TableIsCopied(l, rows, original, j, event, id, dx, dy)
  {
    hide SeatsAt, SeatsAreCopied, CopiesTable, SeatCount;
    assert rows.tables[|l.tables| + j] == before.tables[|l.tables| + j];
    SeatsStayCopied(SeatsAt(l, original[j].id), before.seats, rows.seats, |l.seats| + SeatCount(l, original[..j]), before.tables[|l.tables| + j].id,
                    Some(id), dx, dy);
  }

  lemma LastTableIsCopied(l: Layout, before: Layout, rows: Layout, original: seq<Table>, m: nat, event: EventId, tableId: Id, id: Id,
                          dx: real, dy: real)
    requires m < |original| && |before.tables| == |l.tables| + m && |before.seats| == |l.seats| + SeatCount(l, original[..m])
    requires rows.tables == before.tables + [CloneTable(original[m], event, tableId, id, dx, dy)]
    requires rows.seats == before.seats + CloneSeats(SeatsAt(l, original[m].id), tableId + 1, Some(id), tableId, dx, dy)
    ensures TableIsCopied(l, rows, original, m, event, id, dx, dy)
  {
    hide SeatsAt, SeatsAreCopied, CopiesTable, SeatCount, CloneTable, CloneSeats;
    CloneTableCopies(original[m], event, tableId, id, dx, dy);
    ClonesAreCopied(SeatsAt(l, original[m].id), before.seats, tableId, Some(id), dx, dy);
  }

  lemma OneMoreCounted(l: Layout, original: seq<Table>, m: nat)
    requires m < |original|
    ensures SeatCount(l, original[..m + 1]) == SeatCount(l, original[..m]) + |SeatsAt(l, original[m].id)|
  {
    assert original[..m + 1][..m] == original[..m];
  }

  /** The first `m` tables of the section have been copied with their seats, and nothing else was added. */
  ghost predicate Copied(l: Layout, rows: Layout, original: seq<Table>, m: nat, event: EventId, id: Id, dx: real, dy: real) {
    && m <= |original| && rows.sections == l.sections
    && l.tables <= rows.tables && |rows.tables| == |l.tables| + m
    && l.seats <= rows.seats && |rows.seats| == |l.seats| + SeatCount(l, original[..m])
    && forall j | 0 <= j < m :: TableIsCopied(l, rows, original, j, event, id, dx, dy)
  }

  lemma CopiedGrows(l: Layout, before: Layout, rows: Layout, original: seq<Table>, m: nat, event: EventId, tableId: Id, id: Id, dx: real, dy: real)
    requires m < |original| && Copied(l, before, original, m, event, id, dx, dy) && rows.sections == before.sections
    requires rows.tables == before.tables + [CloneTable(original[m], event, tableId, id, dx, dy)]
    requires rows.seats == before.seats + CloneSeats(SeatsAt(l, original[m].id), tableId + 1, Some(id), tableId, dx, dy)
    ensures Copied(l, rows, original, m + 1, event, id, dx, dy)
  {
    hide SeatsAt, TableIsCopied, CloneTable, SeatCount;
    OneMoreCounted(l, original, m);
    forall j | 0 <= j < m + 1
      ensures TableIsCopied(l, rows, original, j, event, id, dx, dy)
    {
      if j < m {
        TableStaysCopied(l, before, rows, original, j, event, id, dx, dy);
      } else {
        LastTableIsCopied(l, before, rows, original, m, event, tableId, id, dx, dy);
      }
    }
  }

  lemma NoneCopied(l: Layout, original: seq<Table>, event: EventId, id: Id, dx: real, dy: real, next: Id)
    ensures Copied(l, ClonedTables(l, original[..0], event, id, dx, dy, next).0, original, 0, event, id, dx, dy)
  {
  }

  lemma {:induction false} ClonedTablesCopy(l: Layout, original: seq<Table>, n: nat, event: EventId, id: Id, dx: real, dy: real, next: Id)
    requires n <= |original|
    ensures Copied(l, ClonedTables(l, original[..n], event, id, dx, dy, next).0, original, n, event, id, dx, dy)
  {
    hide *;
    if n == 0 {
      NoneCopied(l, original, event, id, dx, dy, next);
    } else {
      var m := n - 1;
      ClonedTablesCopy(l, original, m, event, id, dx, dy, next);
      OneMoreClone(l, original, m, event, id, dx, dy, next);
      var (before, tableId) := ClonedTables(l, original[..m], event, id, dx, dy, next);
      CopiedGrows(l, before, ClonedTables(l, original[..n], event, id, dx, dy, next).0, original, m, event, tableId, id, dx, dy);
    }
  }

  /** What a copy of a section takes over: its size is left open, its name, place and metadata as for a table. */
  predicate CopiesSection(s: Section, c: Section, dx: real, dy: real) {
    && c.event == s.event && c.name == s.name + "_copy" && c.order == s.order && c.x == s.x + dx && c.y == s.y + dy
    && c.width.None? && c.height.None? && c.meta == Prepared(s.meta)
  }

  /**
   A cloned section is the section again under new ids: one copy of each of its tables in order, with one clone of each
   seat of the table below it, and not a row more.
   */
  lemma CloneCopiesSection(l: Layout, sectionId: Id, dx: real, dy: real, next: Id) returns (s: Section)
    requires ClonedSection(l, sectionId, dx, dy, next).result.Ok?
    ensures s in l.sections && s.id == sectionId
    ensures var o := ClonedSection(l, sectionId, dx, dy, next); var original := TablesIn(l, sectionId);
      && l.sections <= o.rows.sections && |o.rows.sections| == |l.sections| + 1
      && o.rows.sections[|l.sections|].id == o.result.value && CopiesSection(s, o.rows.sections[|l.sections|], dx, dy)
      && Copied(l.(sections := o.rows.sections), o.rows, original, |original|, s.event, o.result.value, dx, dy)
  {
    hide ClonedTables, TablesIn, FindSection, Copied;
    s := FindSection(l.sections, sectionId).value;
    var grown := l.(sections := l.sections + [CloneOfSection(s, next, dx, dy)]);
    var original := TablesIn(l, sectionId);
    ClonedTablesCopy(grown, original, |original|, s.event, next, dx, dy, next + 1);
    assert original[..|original|] == original;
    CopiedSections(grown, ClonedSection(l, sectionId, dx, dy, next).rows, original, s.event, next, dx, dy);
  }

  lemma CopiedSections(l: Layout, rows: Layout, original: seq<Table>, event: EventId, id: Id, dx: real, dy: real)
    requires Copied(l, rows, original, |original|, event, id, dx, dy)
    ensures rows.sections == l.sections
  {
  }

  // ---------------------------------------------------------------- which seats a cloned section has

  function SeatsIn(l: Layout, sectionId: Id): seq<Seat> {
    Filter(l.seats, (s: Seat) => s.sectionId == sectionId)
  }

  /** The seat stands at one of the tables. */
  predicate StandsAt(tables: seq<Table>, s: Seat) {
    s.tableId.Some? && s.tableId.value in TableIds(tables)
  }

  function SeatsAtAny(l: Layout, tables: seq<Table>): seq<Seat> {
    Filter(l.seats, (s: Seat) => StandsAt(tables, s))
  }

  lemma OneTableMore(l: Layout, init: seq<Table>, last: Table)
    requires last.id !in TableIds(init)
    ensures |SeatsAtAny(l, init + [last])| == |SeatsAtAny(l, init)| + |SeatsAt(l, last.id)|
  {
    var tables := init + [last];
    assert TableIds(tables) == TableIds(init) + {last.id};
    FilterSplits(l.seats, (s: Seat) => StandsAt(tables, s), (s: Seat) => StandsAt(init, s), (s: Seat) => StandsAt(init, s),
                 (s: Seat) => s.tableId == Some(last.id));
  }

  lemma {:induction false} CountIsSeatsAtAny(l: Layout, tables: seq<Table>)
    requires forall i, j | 0 <= i < j < |tables| :: tables[i].id != tables[j].id
    ensures SeatCount(l, tables) == |SeatsAtAny(l, tables)|
  {
    if tables == [] {
      FilterNone(l.seats, (s: Seat) => StandsAt(tables, s));
    } else {
      var init, last := tables[..|tables| - 1], tables[|tables| - 1];
      assert init + [last] == tables;
      CountIsSeatsAtAny(l, init);
      OneTableMore(l, init, last);
      hide SeatsAtAny, SeatsAt;
    }
  }

  /** The seats that cloning tables adds all belong to the new section, one for each seat at the tables. */
  lemma {:induction false} ClonedTablesAdd(l: Layout, tables: seq<Table>, event: EventId, id: Id, dx: real, dy: real, next: Id)
    returns (added: seq<Seat>)
    ensures ClonedTables(l, tables, event, id, dx, dy, next).0.seats == l.seats + added
    ensures |added| == SeatCount(l, tables) && forall s | s in added :: s.sectionId == id
  {
    hide SeatsAt;
    if tables == [] {
      added := [];
    } else {
      var last := |tables| - 1;
      var some := ClonedTablesAdd(l, tables[..last], event, id, dx, dy, next);
      var (before, tableId) := ClonedTables(l, tables[..last], event, id, dx, dy, next);
      var clones := CloneSeats(SeatsAt(l, tables[last].id), tableId + 1, Some(id), tableId, dx, dy);
      added := some + clones;
      assert before.seats + clones == l.seats + added;
    }
  }

  lemma TablesInHaveIds(l: Layout, sectionId: Id, next: Id)
    requires Valid(l, next)
    ensures forall i, j | 0 <= i < j < |TablesIn(l, sectionId)| :: TablesIn(l, sectionId)[i].id != TablesIn(l, sectionId)[j].id
  {
    var at := FilterIsSubsequence(l.tables, (t: Table) => t.sectionId == sectionId);
  }

  /** The clone of a section has one seat for each seat at the section's tables. */
  lemma ClonedSeatCount(l: Layout, sectionId: Id, dx: real, dy: real, next: Id)
    requires Valid(l, next) && ClonedSection(l, sectionId, dx, dy, next).result.Ok?
    ensures var o := ClonedSection(l, sectionId, dx, dy, next);
      |SeatsIn(o.rows, o.result.value)| == |SeatsAtAny(l, TablesIn(l, sectionId))|
  {
    hide *;
    var s := ClonedSectionIs(l, sectionId, dx, dy, next);
    NoSeatBelow(l, next);
    TablesInHaveIds(l, sectionId, next);
    var grown, original := l.(sections := l.sections + [CloneOfSection(s, next, dx, dy)]), TablesIn(l, sectionId);
    var added := ClonedTablesAdd(grown, original, s.event, next, dx, dy, next + 1);
    CountIsSeatsAtAny(grown, original);
    SameSeatsAtAny(l, grown, original);
    AddedSeatsIn(l, ClonedSection(l, sectionId, dx, dy, next).rows, added, next);
  }

  lemma AddedSeatsIn(l: Layout, after: Layout, added: seq<Seat>, id: Id)
    requires after.seats == l.seats + added && (forall s | s in l.seats :: s.sectionId != id) && forall s | s in added :: s.sectionId == id
    ensures SeatsIn(after, id) == added
  {
    OnlyAdded(l.seats, added, (s: Seat) => s.sectionId == id);
  }

  lemma ClonedSectionIs(l: Layout, sectionId: Id, dx: real, dy: real, next: Id) returns (s: Section)
    requires ClonedSection(l, sectionId, dx, dy, next).result.Ok?
    ensures s in l.sections && s.id == sectionId
    ensures var grown := l.(sections := l.sections + [CloneOfSection(s, next, dx, dy)]); var o := ClonedSection(l, sectionId, dx, dy, next);
      o.result == Ok(next) && (o.rows, o.next) == ClonedTables(grown, TablesIn(l, sectionId), s.event, next, dx, dy, next + 1)
  {
    hide ClonedTables, TablesIn, SectionNameTaken, CloneOfSection;
    s := FindSection(l.sections, sectionId).value;
  }

  lemma SameSeatsAtAny(l: Layout, grown: Layout, tables: seq<Table>)
    requires grown.seats == l.seats
    ensures SeatsAtAny(grown, tables) == SeatsAtAny(l, tables)
  {
  }

  lemma NoSeatBelow(l: Layout, next: Id)
    requires Valid(l, next)
    ensures forall s | s in l.seats :: s.sectionId != next
  {
  }

  /** The seats of the section that stand at no table of it, and seats of other sections that do. */
  function Loose(l: Layout, sectionId: Id): seq<Seat> {
    Filter(l.seats, (s: Seat) => s.sectionId == sectionId && !StandsAt(TablesIn(l, sectionId), s))
  }

  function Foreign(l: Layout, sectionId: Id): seq<Seat> {
    Filter(l.seats, (s: Seat) => StandsAt(TablesIn(l, sectionId), s) && s.sectionId != sectionId)
  }

  /** Every seat at a table belongs to the table's section. */
  ghost predicate SeatsFollowTables(l: Layout) {
    forall s, t | s in l.seats && t in l.tables && s.tableId == Some(t.id) :: s.sectionId == t.sectionId
  }

  /**
   The clone of a section has as many seats as the section exactly when the section has as many seats at no table of it
   as its tables have of other sections. While seats follow their tables: exactly when each seat of the section has a table.
   */
  lemma CloneHasAllSeatsIff(l: Layout, sectionId: Id, dx: real, dy: real, next: Id)
    requires Valid(l, next) && ClonedSection(l, sectionId, dx, dy, next).result.Ok?
    ensures var o := ClonedSection(l, sectionId, dx, dy, next);
      var equal := |SeatsIn(o.rows, o.result.value)| == |SeatsIn(l, sectionId)|;
      && (equal <==> |Loose(l, sectionId)| == |Foreign(l, sectionId)|)
      && (SeatsFollowTables(l) ==> (equal <==> forall s | s in SeatsIn(l, sectionId) :: s.tableId.Some?))
  {
    ClonedSeatCount(l, sectionId, dx, dy, next);
    LooseAndForeign(l, sectionId);
    hide ClonedSection, SeatsIn, Loose, Foreign, SeatsAtAny;
    if SeatsFollowTables(l) {
      FollowingSeats(l, sectionId, next);
    }
  }

  lemma LooseAndForeign(l: Layout, sectionId: Id)
    ensures |SeatsIn(l, sectionId)| - |Loose(l, sectionId)| == |SeatsAtAny(l, TablesIn(l, sectionId))| - |Foreign(l, sectionId)|
  {
    var tables := TablesIn(l, sectionId);
    hide TablesIn, StandsAt;
    var inside := (s: Seat) => s.sectionId == sectionId;
    var at := (s: Seat) => StandsAt(tables, s);
    var both := (s: Seat) => s.sectionId == sectionId && StandsAt(tables, s);
    FilterSplits(l.seats, inside, at, both, (s: Seat) => s.sectionId == sectionId && !StandsAt(tables, s));
    FilterSplits(l.seats, at, inside, both, (s: Seat) => StandsAt(tables, s) && s.sectionId != sectionId);
  }

  lemma FollowingSeats(l: Layout, sectionId: Id, next: Id)
    requires Valid(l, next) && SeatsFollowTables(l)
    ensures Foreign(l, sectionId) == []
    ensures |Loose(l, sectionId)| == 0 <==> forall s | s in SeatsIn(l, sectionId) :: s.tableId.Some?
  {
    var tables := TablesIn(l, sectionId);
    forall s | s in l.seats
      ensures StandsAt(tables, s) <==> s.tableId.Some? && s.sectionId == sectionId
    {
      FollowingSeat(l, sectionId, next, s);
    }
    hide Valid, StandsAt, TablesIn, SeatsFollowTables;
    FilterNone(l.seats, (s: Seat) => StandsAt(tables, s) && s.sectionId != sectionId);
    if Loose(l, sectionId) != [] {
      assert Loose(l, sectionId)[0] in Loose(l, sectionId);
      assert Loose(l, sectionId)[0] in SeatsIn(l, sectionId);
    } else {
      forall s | s in SeatsIn(l, sectionId)
        ensures s.tableId.Some?
      {
        assert s !in Loose(l, sectionId);
      }
    }
  }

  lemma FollowingSeat(l: Layout, sectionId: Id, next: Id, s: Seat)
    requires Valid(l, next) && SeatsFollowTables(l) && s in l.seats
    ensures StandsAt(TablesIn(l, sectionId), s) <==> s.tableId.Some? && s.sectionId == sectionId
  {
    hide Named, Identified, Typed;
    var tables := TablesIn(l, sectionId);
    if s.tableId.Some? {
      var t :| t in l.tables && t.id == s.tableId.value;
      assert s.sectionId == t.sectionId;
      if t.sectionId == sectionId {
        assert t in tables;
      }
    }
  }
}
