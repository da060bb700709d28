/** Restoring a snapshot: no dangling rows for any data, and a saved layout comes back up to renaming. */
module RestoreProperties {
  import opened Results
  import opened Sequences
  import opened MetaDefaults
  import opened LayoutRows
  import opened Snapshots
  import opened Restoring

  // ---------------------------------------------------------------- any stored data

  lemma {:induction false} TableRowsAre(tables: seq<TableSnapshot>, sectionMap: map<Id, Id>, event: EventId, base: Id)
    ensures var rows := RestoredTables(tables, sectionMap, event, base);
      && (forall t | t in rows :: base <= t.id < base + |tables| && t.event == event && t.sectionId in sectionMap.Values)
      && (forall i, j | 0 <= i < j < |rows| :: rows[i].id < rows[j].id)
    ensures forall id | id in TableMap(tables, sectionMap, base) ::
      TableMap(tables, sectionMap, base)[id] in TableIds(RestoredTables(tables, sectionMap, event, base))
  {
    if tables != [] {
      var last := |tables| - 1;
      TableRowsAre(tables[..last], sectionMap, event, base);
      var rows := RestoredTables(tables, sectionMap, event, base);
      if tables[last].sectionId in sectionMap {
        assert sectionMap[tables[last].sectionId] in sectionMap.Values;
        assert rows[|rows| - 1].id == base + last && rows[|rows| - 1] in rows;
      }
    }
  }

  lemma {:induction false} SeatRowsAre(seats: seq<SeatSnapshot>, sectionMap: map<Id, Id>, tableMap: map<Id, Id>, event: EventId, base: Id)
    ensures var rows := RestoredSeats(seats, sectionMap, tableMap, event, base);
      && (forall s | s in rows :: base <= s.id < base + |seats| && s.event == event && s.sectionId in sectionMap.Values
                                  && s.tableId.Some? && s.tableId.value in tableMap.Values && s.Blank())
      && (forall i, j | 0 <= i < j < |rows| :: rows[i].id < rows[j].id)
  {
    if seats != [] {
      var last := |seats| - 1;
      SeatRowsAre(seats[..last], sectionMap, tableMap, event, base);
      if seats[last].sectionId in sectionMap && seats[last].tableId in tableMap {
        assert sectionMap[seats[last].sectionId] in sectionMap.Values && tableMap[seats[last].tableId] in tableMap.Values;
      }
    }
  }

  lemma {:induction false} SeatRowStatuses(seats: seq<SeatSnapshot>, sectionMap: map<Id, Id>, tableMap: map<Id, Id>, event: EventId, base: Id)
    requires forall s | s in seats :: s.status in STATUSES
    ensures forall s | s in RestoredSeats(seats, sectionMap, tableMap, event, base) :: s.status in STATUSES && s.shape in SEAT_SHAPES
  {
    if seats != [] {
      SeatRowStatuses(seats[..|seats| - 1], sectionMap, tableMap, event, base);
    }
  }

  lemma SectionMapHits(sections: seq<SectionSnapshot>, event: EventId, base: Id)
    ensures SectionMap(sections, base).Values <= SectionIds(RestoredSections(sections, event, base))
  {
    var rows := RestoredSections(sections, event, base);
    forall v | v in SectionMap(sections, base).Values
      ensures v in SectionIds(rows)
    {
      assert rows[v - base] in rows && rows[v - base].id == v;
    }
  }

  function Added(snap: LayoutSnapshot, event: EventId, base: Id): Layout {
    var forTables := base + |snap.sections|;
    var sectionMap := SectionMap(snap.sections, base);
    Layout(RestoredSections(snap.sections, event, base), RestoredTables(snap.tables, sectionMap, event, forTables),
           RestoredSeats(snap.seats, sectionMap, TableMap(snap.tables, sectionMap, forTables), event, forTables + |snap.tables|))
  }

  /** The rows that restoring adds are linked among themselves. */
  lemma AddedLinks(snap: LayoutSnapshot, event: EventId, base: Id)
    ensures Linked(Added(snap, event, base))
  {
    var forTables := base + |snap.sections|;
    var sectionMap := SectionMap(snap.sections, base);
    var tableMap := TableMap(snap.tables, sectionMap, forTables);
    SectionMapHits(snap.sections, event, base);
    TableRowsAre(snap.tables, sectionMap, event, forTables);
    SeatRowsAre(snap.seats, sectionMap, tableMap, event, forTables + |snap.tables|);
  }

  /** Whatever data is restored, every constraint holds afterwards: no row refers to one that does not exist. */
  lemma RestoreKeepsValid(l: Layout, event: EventId, raw: Option<RawSnapshot>, next: Id)
    requires Valid(l, next) && Restored(l, event, raw, next).Some?
    ensures var (after, newNext) := Restored(l, event, raw, next).value;
      Valid(after, newNext) && forall s | s in Of(after, event).seats :: s.Blank() && s.tableId.Some?
  {
    hide Linked, Named, Identified, Wiped, Of;
    WipedIsValid(l, event, next);
    var snap := NormalizeSnapshot(raw, next);
    var base := next + NewIds(raw);
    AddedIsValid(snap, event, base);
    var kept, added := Wiped(l, event), Added(snap, event, base);
    AddedBounds(snap, event, base);
    ValidBelow(kept, next, base);
    JoinedIsValid(kept, added, base, base + |snap.sections| + |snap.tables| + |snap.seats|);
    OfSeats(kept, added, event);
  }

  lemma OfSeats(kept: Layout, added: Layout, event: EventId)
    requires forall s | s in kept.seats :: s.event != event
    requires forall s | s in added.seats :: s.Blank() && s.tableId.Some?
    ensures forall s | s in Of(Layout(kept.sections + added.sections, kept.tables + added.tables, kept.seats + added.seats), event).seats ::
      s.Blank() && s.tableId.Some?
  {
  }

  lemma AddedBounds(snap: LayoutSnapshot, event: EventId, base: Id)
    ensures var added := Added(snap, event, base);
      && (forall s | s in added.sections :: s.id >= base && s.event == event)
      && (forall t | t in added.tables :: t.id >= base && t.sectionId >= base && t.event == event)
      && (forall s | s in added.seats :: s.id >= base && s.event == event && s.Blank() && s.tableId.Some?)
  {
    hide RestoredTables, RestoredSeats, SectionMap, TableMap;
    var forTables := base + |snap.sections|;
    var sectionMap := SectionMap(snap.sections, base);
    TableRowsAre(snap.tables, sectionMap, event, forTables);
    SeatRowsAre(snap.seats, sectionMap, TableMap(snap.tables, sectionMap, forTables), event, forTables + |snap.tables|);
  }

  lemma AddedIsValid(snap: LayoutSnapshot, event: EventId, base: Id)
    requires var added := Added(snap, event, base); Admitted(snap.sections, added.tables, added.seats)
    requires forall s | s in snap.seats :: s.status in STATUSES
    ensures Valid(Added(snap, event, base), base + |snap.sections| + |snap.tables| + |snap.seats|)
  {
    hide Linked, Named, Identified, Typed, Added, Admitted;
    AddedLinks(snap, event, base);
    AddedNames(snap, event, base);
    AddedIds(snap, event, base);
    AddedTypes(snap, event, base);
  }

  lemma AddedNames(snap: LayoutSnapshot, event: EventId, base: Id)
    requires var added := Added(snap, event, base); Admitted(snap.sections, added.tables, added.seats)
    ensures Named(Added(snap, event, base))
  {
    hide RestoredTables, RestoredSeats;
  }

  lemma AddedIds(snap: LayoutSnapshot, event: EventId, base: Id)
    ensures Identified(Added(snap, event, base), base + |snap.sections| + |snap.tables| + |snap.seats|)
  {
    hide RestoredTables, RestoredSeats, SectionMap, TableMap;
    var forTables := base + |snap.sections|;
    var sectionMap := SectionMap(snap.sections, base);
    TableRowsAre(snap.tables, sectionMap, event, forTables);
    SeatRowsAre(snap.seats, sectionMap, TableMap(snap.tables, sectionMap, forTables), event, forTables + |snap.tables|);
  }

  lemma AddedTypes(snap: LayoutSnapshot, event: EventId, base: Id)
    requires var added := Added(snap, event, base); Admitted(snap.sections, added.tables, added.seats)
    requires forall s | s in snap.seats :: s.status in STATUSES
    ensures Typed(Added(snap, event, base))
  {
    hide RestoredTables, RestoredSeats, SectionMap, TableMap;
    var forTables := base + |snap.sections|;
    var sectionMap := SectionMap(snap.sections, base);
    SeatRowStatuses(snap.seats, sectionMap, TableMap(snap.tables, sectionMap, forTables), event, forTables + |snap.tables|);
  }

  // ---------------------------------------------------------------- saving and restoring

  /** A section comes back as it was saved, with an empty object where it had no metadata. */
  function CoreSection(s: Section): Section {
    s.(meta := if s.meta == Null then Obj(map[]) else s.meta)
  }

  function CoreTable(t: Table): Table {
    t.(meta := if t.meta == Null then Obj(map[]) else t.meta)
  }

  /** What of a seat survives: no holder, the default shape, defaults filled in, and of the seat types only RESERVED. */
  function CoreSeat(s: Seat): Seat {
    s.(number := if s.number == None then Some(0) else s.number, x := if s.x == None then Some(0.0) else s.x,
       y := if s.y == None then Some(0.0) else s.y, rotation := if s.rotation == None then Some(0.0) else s.rotation,
       seatType := Some(if s.seatType == Some("RESERVED") then "RESERVED" else "STANDARD"),
       guest := None, invitation := None, note := None, shape := "CIRCLE", meta := if s.meta == Null then Obj(map[]) else s.meta)
  }

  function TableKept(rows: Layout): Table -> bool {
    (t: Table) => t.sectionId in SectionIds(rows.sections)
  }

  function SeatKept(rows: Layout): Seat -> bool {
    var tableIds := TableIds(Filter(rows.tables, TableKept(rows)));
    (s: Seat) => s.sectionId in SectionIds(rows.sections) && s.tableId.Some? && s.tableId.value in tableIds
  }

  /** The part of an event's rows that hangs together within the event, in its normal form. */
  function Core(rows: Layout): Layout {
    Layout(MapSeq(rows.sections, CoreSection), MapSeq(Filter(rows.tables, TableKept(rows)), CoreTable),
           MapSeq(Filter(rows.seats, SeatKept(rows)), CoreSeat))
  }

  ghost predicate Injective(f: map<Id, Id>) {
    forall x, y | x in f && y in f && x != y :: f[x] != f[y]
  }

  /** The same rows in the same order, but for their ids, which are renamed along with the links between them. */
  ghost predicate Isomorphic(a: Layout, b: Layout, f: map<Id, Id>, g: map<Id, Id>, h: map<Id, Id>) {
    && Injective(f) && Injective(g) && Injective(h)
    && RenamedSections(a.sections, b.sections, f) && RenamedTables(a.tables, b.tables, f, g) && RenamedSeats(a.seats, b.seats, f, g, h)
  }

  predicate RenamedSections(a: seq<Section>, b: seq<Section>, f: map<Id, Id>) {
    |a| == |b| && forall k | 0 <= k < |a| :: a[k].id in f && b[k] == a[k].(id := f[a[k].id])
  }

  predicate RenamedTables(a: seq<Table>, b: seq<Table>, f: map<Id, Id>, g: map<Id, Id>) {
    && |a| == |b|
    && forall k | 0 <= k < |a| ::
      a[k].id in g && a[k].sectionId in f && b[k] == a[k].(id := g[a[k].id], sectionId := f[a[k].sectionId])
  }

  predicate RenamedSeats(a: seq<Seat>, b: seq<Seat>, f: map<Id, Id>, g: map<Id, Id>, h: map<Id, Id>) {
    && |a| == |b|
    && forall k | 0 <= k < |a| ::
      && a[k].id in h && a[k].sectionId in f && a[k].tableId.Some? && a[k].tableId.value in g
      && b[k] == a[k].(id := h[a[k].id], sectionId := f[a[k].sectionId], tableId := Some(g[a[k].tableId.value]))
  }

  lemma {:induction false} SectionMapAt(sections: seq<SectionSnapshot>, base: Id)
    requires forall i, j | 0 <= i < j < |sections| :: sections[i].id != sections[j].id
    ensures forall k | 0 <= k < |sections| :: sections[k].id in SectionMap(sections, base) && SectionMap(sections, base)[sections[k].id] == base + k
    ensures Injective(SectionMap(sections, base))
  {
    if sections != [] {
      SectionMapAt(sections[..|sections| - 1], base);
    }
  }

  lemma {:induction false} TableMapAt(tables: seq<TableSnapshot>, sectionMap: map<Id, Id>, base: Id)
    requires forall i, j | 0 <= i < j < |tables| :: tables[i].id != tables[j].id
    ensures forall k | 0 <= k < |tables| && tables[k].sectionId in sectionMap ::
      tables[k].id in TableMap(tables, sectionMap, base) && TableMap(tables, sectionMap, base)[tables[k].id] == base + k
    ensures Injective(TableMap(tables, sectionMap, base))
  {
    if tables != [] {
      TableMapAt(tables[..|tables| - 1], sectionMap, base);
    }
  }

  /** The positions that are set. */
  function Positions(flags: seq<bool>): (at: seq<nat>)
    ensures forall j | 0 <= j < |at| :: at[j] < |flags| && flags[at[j]]
  {
    if flags == [] then []
    else
      var last := |flags| - 1;
      Positions(flags[..last]) + if flags[last] then [last] else []
  }

  lemma {:induction false} FilterAt<T>(rows: seq<T>, p: T -> bool, flags: seq<bool>)
    requires |flags| == |rows| && forall k | 0 <= k < |rows| :: flags[k] == p(rows[k])
    ensures |Filter(rows, p)| == |Positions(flags)|
    ensures forall j | 0 <= j < |Positions(flags)| :: Filter(rows, p)[j] == rows[Positions(flags)[j]]
  {
    if rows != [] {
      FilterAt(rows[..|rows| - 1], p, flags[..|rows| - 1]);
    }
  }

  lemma {:induction false} TableRowsAt(snaps: seq<TableSnapshot>, flags: seq<bool>, sectionMap: map<Id, Id>, event: EventId, base: Id)
    requires |flags| == |snaps| && forall k | 0 <= k < |snaps| :: flags[k] == TableRestorable(snaps[k], sectionMap)
    ensures |RestoredTables(snaps, sectionMap, event, base)| == |Positions(flags)|
    ensures forall j | 0 <= j < |Positions(flags)| :: var i := Positions(flags)[j];
      RestoredTables(snaps, sectionMap, event, base)[j] == RestoredTable(snaps[i], sectionMap, event, base + i)
  {
    hide TableRestorable, RestoredTable;
    if snaps != [] {
      TableRowsAt(snaps[..|snaps| - 1], flags[..|snaps| - 1], sectionMap, event, base);
    }
  }

  lemma {:induction false} SeatRowsAt(snaps: seq<SeatSnapshot>, flags: seq<bool>, sectionMap: map<Id, Id>, tableMap: map<Id, Id>,
                                      event: EventId, base: Id)
    requires |flags| == |snaps| && forall k | 0 <= k < |snaps| :: flags[k] == Restorable(snaps[k], sectionMap, tableMap)
    ensures |RestoredSeats(snaps, sectionMap, tableMap, event, base)| == |Positions(flags)|
    ensures forall j | 0 <= j < |Positions(flags)| :: var i := Positions(flags)[j];
      RestoredSeats(snaps, sectionMap, tableMap, event, base)[j] == RestoredSeat(snaps[i], sectionMap, tableMap, event, base + i)
  {
    hide Restorable, RestoredSeat;
    if snaps != [] {
      SeatRowsAt(snaps[..|snaps| - 1], flags[..|snaps| - 1], sectionMap, tableMap, event, base);
    }
  }

  /** What the normalised snapshot of rows shows of them; a seat without a table refers to a table id that is new. */
  ghost predicate Shows(rows: Layout, snap: LayoutSnapshot, next: Id) {
    && |snap.sections| == |rows.sections| && |snap.tables| == |rows.tables| && |snap.seats| == |rows.seats|
    && (forall k | 0 <= k < |rows.sections| :: ShowsSection(rows.sections[k], snap.sections[k]))
    && (forall k | 0 <= k < |rows.tables| :: ShowsTable(rows.tables[k], snap.tables[k]))
    && (forall k | 0 <= k < |rows.seats| :: ShowsSeat(rows.seats[k], snap.seats[k], next))
  }

  predicate ShowsSection(s: Section, snap: SectionSnapshot) {
    snap == SectionSnapshot(s.id, s.name, s.order, s.x, s.y, s.width, s.height, if s.meta == Null then Obj(map[]) else s.meta)
  }

  predicate ShowsTable(t: Table, snap: TableSnapshot) {
    snap == TableSnapshot(t.id, t.sectionId, t.name, t.order, t.x, t.y, t.capacity, if t.meta == Null then Obj(map[]) else t.meta)
  }

  predicate ShowsSeat(s: Seat, snap: SeatSnapshot, next: Id) {
    && snap.id == s.id && snap.sectionId == s.sectionId && (if s.tableId.Some? then snap.tableId == s.tableId.value else snap.tableId >= next)
    && Some(snap.number) == (if s.number == None then Some(0) else s.number) && snap.seatLabel == s.seatLabel
    && Some(snap.x) == (if s.x == None then Some(0.0) else s.x) && Some(snap.y) == (if s.y == None then Some(0.0) else s.y)
    && Some(snap.rotation) == (if s.rotation == None then Some(0.0) else s.rotation)
    && snap.status == s.status && snap.meta == (if s.meta == Null then Obj(map[]) else s.meta)
    && snap.seatType == if s.seatType == Some("RESERVED") then Some("RESERVED") else None
  }

  /** Of the seat types, the filter by status values lets only RESERVED through. */
  lemma SavedShows(rows: Layout, next: Id)
    requires Typed(rows)
    ensures Shows(rows, NormalizeSnapshot(Some(SerializeCurrentLayout(rows)), next), next)
  {
    var snap := NormalizeSnapshot(Some(SerializeCurrentLayout(rows)), next);
    forall k | 0 <= k < |rows.seats|
      ensures ShowsSeat(rows.seats[k], snap.seats[k], next)
    {
      assert rows.seats[k] in rows.seats;
      SeatTypeSurvives(rows.seats[k].seatType);
    }
  }

  lemma SeatTypeSurvives(seatType: Option<string>)
    requires seatType.Some? ==> seatType.value in SEAT_TYPES
    ensures (seatType.Some? && seatType.value in STATUSES) <==> seatType == Some("RESERVED")
  {
    assert "AVAILABLE" !in SEAT_TYPES && "ASSIGNED" !in SEAT_TYPES && "BLOCKED" !in SEAT_TYPES;
  }

  /** The rows of one event: valid ids, names and enums. */
  ghost predicate EventRows(rows: Layout, event: EventId, next: Id) {
    && Identified(rows, next) && Named(rows) && Typed(rows)
    && (forall s | s in rows.sections :: s.event == event) && (forall t | t in rows.tables :: t.event == event)
    && (forall s | s in rows.seats :: s.event == event)
  }

  lemma OfIsEventRows(l: Layout, event: EventId, next: Id)
    requires Valid(l, next)
    ensures EventRows(Of(l, event), event, next)
  {
    var sections := FilterIsSubsequence(l.sections, (s: Section) => s.event == event);
    var tables := FilterIsSubsequence(l.tables, (t: Table) => t.event == event);
    var seats := FilterIsSubsequence(l.seats, (s: Seat) => s.event == event);
  }

  lemma SectionComesBack(rows: Layout, snap: LayoutSnapshot, event: EventId, next: Id, k: nat, id: Id)
    requires EventRows(rows, event, next) && Shows(rows, snap, next) && k < |rows.sections|
    ensures k < |snap.sections| && snap.sections[k].id == rows.sections[k].id
    ensures SectionRow(snap.sections[k], event, id) == CoreSection(rows.sections[k]).(id := id)
  {
    hide Identified, Named, Typed;
    assert ShowsSection(rows.sections[k], snap.sections[k]) && rows.sections[k] in rows.sections;
  }

  lemma TableComesBack(rows: Layout, snap: LayoutSnapshot, event: EventId, next: Id, k: nat, id: Id, sectionId: Id)
    requires EventRows(rows, event, next) && Shows(rows, snap, next) && k < |rows.tables|
    ensures k < |snap.tables| && snap.tables[k].id == rows.tables[k].id && snap.tables[k].sectionId == rows.tables[k].sectionId
    ensures TableRow(snap.tables[k], event, id, sectionId) == CoreTable(rows.tables[k]).(id := id, sectionId := sectionId)
  {
    hide Identified, Named, Typed;
    assert ShowsTable(rows.tables[k], snap.tables[k]) && rows.tables[k] in rows.tables;
  }

  lemma SeatComesBack(rows: Layout, snap: LayoutSnapshot, event: EventId, next: Id, k: nat, id: Id, sectionId: Id, tableId: Id)
    requires EventRows(rows, event, next) && Shows(rows, snap, next) && k < |rows.seats|
    ensures k < |snap.seats| && snap.seats[k].sectionId == rows.seats[k].sectionId
    ensures if rows.seats[k].tableId.Some? then snap.seats[k].tableId == rows.seats[k].tableId.value else snap.seats[k].tableId >= next
    ensures SeatRow(snap.seats[k], event, id, sectionId, tableId)
         == CoreSeat(rows.seats[k]).(id := id, sectionId := sectionId, tableId := Some(tableId))
  {
    hide Identified, Named, Typed;
    assert ShowsSeat(rows.seats[k], snap.seats[k], next) && rows.seats[k] in rows.seats;
  }

  lemma ShownIdsDiffer(rows: Layout, snap: LayoutSnapshot, event: EventId, next: Id)
    requires EventRows(rows, event, next) && Shows(rows, snap, next)
    ensures forall i, j | 0 <= i < j < |snap.sections| :: snap.sections[i].id != snap.sections[j].id
    ensures forall i, j | 0 <= i < j < |snap.tables| :: snap.tables[i].id != snap.tables[j].id
    ensures |snap.sections| == |rows.sections| && |snap.tables| == |rows.tables| && |snap.seats| == |rows.seats|
  {
    hide Named, Typed;
    forall i, j | 0 <= i < j < |snap.sections|
      ensures snap.sections[i].id != snap.sections[j].id
    {
      assert ShowsSection(rows.sections[i], snap.sections[i]) && ShowsSection(rows.sections[j], snap.sections[j]);
    }
    forall i, j | 0 <= i < j < |snap.tables|
      ensures snap.tables[i].id != snap.tables[j].id
    {
      assert ShowsTable(rows.tables[i], snap.tables[i]) && ShowsTable(rows.tables[j], snap.tables[j]);
    }
  }

  lemma SectionsRoundTrip(rows: Layout, snap: LayoutSnapshot, event: EventId, next: Id, base: Id)
    requires EventRows(rows, event, next) && Shows(rows, snap, next)
    ensures var f := SectionMap(snap.sections, base);
      && Injective(f) && f.Keys == SectionIds(rows.sections)
      && RenamedSections(MapSeq(rows.sections, CoreSection), RestoredSections(snap.sections, event, base), f)
  {
    hide EventRows, Shows, SectionMap, SectionRow;
    var f := SectionMap(snap.sections, base);
    ShownIdsDiffer(rows, snap, event, next);
    SectionMapAt(snap.sections, base);
    forall k | 0 <= k < |rows.sections|
      ensures snap.sections[k].id == rows.sections[k].id
      ensures SectionRow(snap.sections[k], event, base + k) == CoreSection(rows.sections[k]).(id := base + k)
    {
      SectionComesBack(rows, snap, event, next, k, base + k);
    }
    forall id | id in f
      ensures id in SectionIds(rows.sections)
    {
      var k :| 0 <= k < |snap.sections| && snap.sections[k].id == id;
      assert rows.sections[k].id == id;
    }
  }

  function Flags<T>(rows: seq<T>, keep: T -> bool): (flags: seq<bool>)
    ensures |flags| == |rows| && forall k | 0 <= k < |rows| :: flags[k] == keep(rows[k])
  {
    seq(|rows|, k requires 0 <= k < |rows| => keep(rows[k]))
  }

  lemma TableFlags(rows: Layout, snap: LayoutSnapshot, f: map<Id, Id>, event: EventId, next: Id)
    requires EventRows(rows, event, next) && Shows(rows, snap, next) && f.Keys == SectionIds(rows.sections)
    ensures var flags := Flags(rows.tables, TableKept(rows));
      |flags| == |snap.tables| && forall k | 0 <= k < |snap.tables| :: flags[k] == TableRestorable(snap.tables[k], f)
  {
    hide EventRows, Shows, TableRow, CoreTable;
    ShownIdsDiffer(rows, snap, event, next);
    forall k | 0 <= k < |rows.tables|
      ensures Flags(rows.tables, TableKept(rows))[k] == TableRestorable(snap.tables[k], f)
    {
      TableComesBack(rows, snap, event, next, k, 0, 0);
    }
  }

  /** The tables that get a new id are the kept ones. */
  lemma TableKeys(rows: Layout, snap: LayoutSnapshot, f: map<Id, Id>, event: EventId, next: Id, base: Id)
    requires EventRows(rows, event, next) && Shows(rows, snap, next) && f.Keys == SectionIds(rows.sections)
    ensures var g := TableMap(snap.tables, f, base);
      Injective(g) && g.Keys == TableIds(Filter(rows.tables, TableKept(rows)))
  {
    hide EventRows, Shows, TableMap, TableRow, CoreTable, Filter;
    var g := TableMap(snap.tables, f, base);
    var kept := Filter(rows.tables, TableKept(rows));
    ShownIdsDiffer(rows, snap, event, next);
    TableMapAt(snap.tables, f, base);
    forall k | 0 <= k < |rows.tables|
      ensures snap.tables[k].id == rows.tables[k].id && snap.tables[k].sectionId == rows.tables[k].sectionId
    {
      TableComesBack(rows, snap, event, next, k, 0, 0);
    }
    forall id
      ensures id in g <==> id in TableIds(kept)
    {
      if id in g {
        var k :| 0 <= k < |snap.tables| && snap.tables[k].id == id && snap.tables[k].sectionId in f;
        assert TableKept(rows)(rows.tables[k]) && rows.tables[k] in kept;
      }
      if id in TableIds(kept) {
        var t :| t in kept && t.id == id;
        var k :| 0 <= k < |rows.tables| && rows.tables[k] == t;
        assert snap.tables[k].id == id;
      }
    }
  }

  /** The `i`-th table, kept, gets the `i`-th new id. */
  lemma TableRenamed(rows: Layout, snap: LayoutSnapshot, f: map<Id, Id>, event: EventId, next: Id, base: Id, i: nat)
    requires EventRows(rows, event, next) && Shows(rows, snap, next)
    requires i < |rows.tables| && rows.tables[i].sectionId in f
    ensures |snap.tables| == |rows.tables| && snap.tables[i].sectionId == rows.tables[i].sectionId
    ensures var t := rows.tables[i]; var g := TableMap(snap.tables, f, base);
      && t.id in g && TableRestorable(snap.tables[i], f)
      && RestoredTable(snap.tables[i], f, event, base + i) == CoreTable(t).(id := g[t.id], sectionId := f[t.sectionId])
  {
    hide EventRows, Shows, TableMap, TableRow, CoreTable;
    ShownIdsDiffer(rows, snap, event, next);
    TableMapAt(snap.tables, f, base);
    TableComesBack(rows, snap, event, next, i, base + i, f[rows.tables[i].sectionId]);
  }

  lemma TableRoundTrip(rows: Layout, snap: LayoutSnapshot, f: map<Id, Id>, event: EventId, next: Id, base: Id, j: nat)
    requires EventRows(rows, event, next) && Shows(rows, snap, next) && f.Keys == SectionIds(rows.sections)
    requires j < |Filter(rows.tables, TableKept(rows))|
    ensures var g := TableMap(snap.tables, f, base);
      var t, restored := Filter(rows.tables, TableKept(rows))[j], RestoredTables(snap.tables, f, event, base);
      && j < |restored| && t.id in g && t.sectionId in f
      && restored[j] == CoreTable(t).(id := g[t.id], sectionId := f[t.sectionId])
  {
    TableFlags(rows, snap, f, event, next);
    hide *;
    var flags := Flags(rows.tables, TableKept(rows));
    FilterAt(rows.tables, TableKept(rows), flags);
    TableRowsAt(snap.tables, flags, f, event, base);
    var i := Positions(flags)[j];
    TableInSection(rows, f, i);
    TableRenamed(rows, snap, f, event, next, base, i);
  }

  lemma TablesRoundTrip(rows: Layout, snap: LayoutSnapshot, f: map<Id, Id>, event: EventId, next: Id, base: Id)
    requires EventRows(rows, event, next) && Shows(rows, snap, next) && f.Keys == SectionIds(rows.sections)
    ensures var g := TableMap(snap.tables, f, base);
      var kept, restored := Filter(rows.tables, TableKept(rows)), RestoredTables(snap.tables, f, event, base);
      RenamedTables(MapSeq(kept, CoreTable), restored, f, g)
  {
    TableFlags(rows, snap, f, event, next);
    hide *;
    var g := TableMap(snap.tables, f, base);
    FilterAt(rows.tables, TableKept(rows), Flags(rows.tables, TableKept(rows)));
    TableRowsAt(snap.tables, Flags(rows.tables, TableKept(rows)), f, event, base);
    var kept, restored := Filter(rows.tables, TableKept(rows)), RestoredTables(snap.tables, f, event, base);
    forall j | 0 <= j < |kept|
      ensures kept[j].id in g && kept[j].sectionId in f
      ensures restored[j] == CoreTable(kept[j]).(id := g[kept[j].id], sectionId := f[kept[j].sectionId])
    {
      TableRoundTrip(rows, snap, f, event, next, base, j);
    }
    TablesAreRenamed(kept, restored, f, g);
  }

  lemma TablesAreRenamed(kept: seq<Table>, restored: seq<Table>, f: map<Id, Id>, g: map<Id, Id>)
    requires |restored| == |kept| && forall j | 0 <= j < |kept| ::
      && kept[j].id in g && kept[j].sectionId in f
      && restored[j] == CoreTable(kept[j]).(id := g[kept[j].id], sectionId := f[kept[j].sectionId])
    ensures RenamedTables(MapSeq(kept, CoreTable), restored, f, g)
  {
  }

  lemma TableInSection(rows: Layout, f: map<Id, Id>, i: nat)
    requires i < |rows.tables| && Flags(rows.tables, TableKept(rows))[i] && f.Keys == SectionIds(rows.sections)
    ensures rows.tables[i].sectionId in f
  {
  }

  /** New seat ids by old ones. */
  function SeatIdMap(seats: seq<Seat>, base: Id): (h: map<Id, Id>)
    ensures forall id :: id in h <==> exists k :: 0 <= k < |seats| && seats[k].id == id
    ensures forall id | id in h :: base <= h[id] < base + |seats|
  {
    if seats == [] then map[]
    else
      var last := |seats| - 1;
      SeatIdMap(seats[..last], base)[seats[last].id := base + last]
  }

  lemma {:induction false} SeatIdMapAt(seats: seq<Seat>, base: Id)
    requires forall i, j | 0 <= i < j < |seats| :: seats[i].id != seats[j].id
    ensures forall k | 0 <= k < |seats| :: seats[k].id in SeatIdMap(seats, base) && SeatIdMap(seats, base)[seats[k].id] == base + k
    ensures Injective(SeatIdMap(seats, base))
  {
    if seats != [] {
      SeatIdMapAt(seats[..|seats| - 1], base);
    }
  }

  lemma SeatFlags(rows: Layout, snap: LayoutSnapshot, f: map<Id, Id>, g: map<Id, Id>, event: EventId, next: Id)
    requires EventRows(rows, event, next) && Shows(rows, snap, next) && f.Keys == SectionIds(rows.sections)
    requires g.Keys == TableIds(Filter(rows.tables, TableKept(rows)))
    ensures var flags := Flags(rows.seats, SeatKept(rows));
      |flags| == |snap.seats| && forall k | 0 <= k < |snap.seats| :: flags[k] == Restorable(snap.seats[k], f, g)
  {
    hide Named, Typed, SeatRow, CoreSeat, Filter;
    forall id | id in g
      ensures id < next
    {
      assert id in TableIds(Filter(rows.tables, TableKept(rows)));
    }
    hide Identified, EventRows, Shows;
    ShownIdsDiffer(rows, snap, event, next);
    forall k | 0 <= k < |rows.seats|
      ensures Flags(rows.seats, SeatKept(rows))[k] == Restorable(snap.seats[k], f, g)
    {
      SeatComesBack(rows, snap, event, next, k, 0, 0, 0);
    }
  }

  lemma SeatIdsRename(rows: Layout, event: EventId, next: Id, base: Id)
    requires EventRows(rows, event, next)
    ensures var h := SeatIdMap(rows.seats, base);
      Injective(h) && forall k | 0 <= k < |rows.seats| :: rows.seats[k].id in h && h[rows.seats[k].id] == base + k
  {
    SeatIdMapAt(rows.seats, base);
  }

  lemma SeatRoundTrip(rows: Layout, snap: LayoutSnapshot, f: map<Id, Id>, g: map<Id, Id>, event: EventId, next: Id, base: Id, j: nat)
    requires EventRows(rows, event, next) && Shows(rows, snap, next) && f.Keys == SectionIds(rows.sections)
    requires g.Keys == TableIds(Filter(rows.tables, TableKept(rows))) && j < |Filter(rows.seats, SeatKept(rows))|
    ensures var h := SeatIdMap(rows.seats, base);
      var s, restored := Filter(rows.seats, SeatKept(rows))[j], RestoredSeats(snap.seats, f, g, event, base);
      && j < |restored| && s.id in h && s.sectionId in f && s.tableId.Some? && s.tableId.value in g
      && restored[j] == CoreSeat(s).(id := h[s.id], sectionId := f[s.sectionId], tableId := Some(g[s.tableId.value]))
  {
    SeatFlags(rows, snap, f, g, event, next);
    hide *;
    var flags := Flags(rows.seats, SeatKept(rows));
    FilterAt(rows.seats, SeatKept(rows), flags);
    SeatRowsAt(snap.seats, flags, f, g, event, base);
    SeatRenamed(rows, snap, f, g, event, next, base, Positions(flags)[j]);
  }

  lemma SeatsRoundTrip(rows: Layout, snap: LayoutSnapshot, f: map<Id, Id>, g: map<Id, Id>, event: EventId, next: Id, base: Id)
    requires EventRows(rows, event, next) && Shows(rows, snap, next) && f.Keys == SectionIds(rows.sections)
    requires g.Keys == TableIds(Filter(rows.tables, TableKept(rows)))
    ensures var h := SeatIdMap(rows.seats, base);
      var kept, restored := Filter(rows.seats, SeatKept(rows)), RestoredSeats(snap.seats, f, g, event, base);
      Injective(h) && RenamedSeats(MapSeq(kept, CoreSeat), restored, f, g, h)
  {
    SeatFlags(rows, snap, f, g, event, next);
    SeatIdsRename(rows, event, next, base);
    hide *;
    var h := SeatIdMap(rows.seats, base);
    FilterAt(rows.seats, SeatKept(rows), Flags(rows.seats, SeatKept(rows)));
    SeatRowsAt(snap.seats, Flags(rows.seats, SeatKept(rows)), f, g, event, base);
    var kept, restored := Filter(rows.seats, SeatKept(rows)), RestoredSeats(snap.seats, f, g, event, base);
    forall j | 0 <= j < |kept|
      ensures var s := kept[j];
        s.id in h && s.sectionId in f && s.tableId.Some? && s.tableId.value in g
        && restored[j] == CoreSeat(s).(id := h[s.id], sectionId := f[s.sectionId], tableId := Some(g[s.tableId.value]))
    {
      SeatRoundTrip(rows, snap, f, g, event, next, base, j);
    }
    SeatsAreRenamed(kept, restored, f, g, h);
  }

  lemma SeatsAreRenamed(kept: seq<Seat>, restored: seq<Seat>, f: map<Id, Id>, g: map<Id, Id>, h: map<Id, Id>)
    requires |restored| == |kept| && forall j | 0 <= j < |kept| :: var s := kept[j];
      && s.id in h && s.sectionId in f && s.tableId.Some? && s.tableId.value in g
      && restored[j] == CoreSeat(s).(id := h[s.id], sectionId := f[s.sectionId], tableId := Some(g[s.tableId.value]))
    ensures RenamedSeats(MapSeq(kept, CoreSeat), restored, f, g, h)
  {
    hide MetaOrEmpty;
  }

  lemma SeatRenamed(rows: Layout, snap: LayoutSnapshot, f: map<Id, Id>, g: map<Id, Id>, event: EventId, next: Id, base: Id, i: nat)
    requires EventRows(rows, event, next) && Shows(rows, snap, next) && f.Keys == SectionIds(rows.sections)
    requires g.Keys == TableIds(Filter(rows.tables, TableKept(rows))) && i < |rows.seats| && Flags(rows.seats, SeatKept(rows))[i]
    ensures var h := SeatIdMap(rows.seats, base); var s := rows.seats[i];
      && |snap.seats| == |rows.seats| && s.id in h && s.sectionId in f && s.tableId.Some? && s.tableId.value in g
      && snap.seats[i].sectionId == s.sectionId && snap.seats[i].tableId == s.tableId.value
      && Restorable(snap.seats[i], f, g)
      && RestoredSeat(snap.seats[i], f, g, event, base + i)
         == CoreSeat(s).(id := h[s.id], sectionId := f[s.sectionId], tableId := Some(g[s.tableId.value]))
  {
    SeatFlags(rows, snap, f, g, event, next);
    SeatIdsRename(rows, event, next, base);
    hide *;
    SeatHasTable(rows, i);
    RestorableLinks(snap.seats[i], f, g, event, base + i);
    SeatComesBack(rows, snap, event, next, i, base + i, f[snap.seats[i].sectionId], g[snap.seats[i].tableId]);
  }

  lemma RestorableLinks(s: SeatSnapshot, f: map<Id, Id>, g: map<Id, Id>, event: EventId, id: Id)
    requires Restorable(s, f, g)
    ensures s.sectionId in f && s.tableId in g && RestoredSeat(s, f, g, event, id) == SeatRow(s, event, id, f[s.sectionId], g[s.tableId])
  {
  }

  lemma SeatHasTable(rows: Layout, i: nat)
    requires i < |rows.seats| && Flags(rows.seats, SeatKept(rows))[i]
    ensures rows.seats[i].tableId.Some?
  {
  }

  /** The rows of a saved layout break no unique name and no enum when restored. */
  lemma SavedIsAdmitted(rows: Layout, snap: LayoutSnapshot, event: EventId, next: Id, base: Id)
    requires EventRows(rows, event, next) && Shows(rows, snap, next)
    ensures var added := Added(snap, event, base); Admitted(snap.sections, added.tables, added.seats)
  {
    hide EventRows, Shows, Identified, Named, Typed, SectionMap, TableMap, RestoredTables, RestoredSeats, Filter, TableKept;
    hide SectionIds, TableIds, Injective, Admitted, Added, TablesFit, MetaOrEmpty, RestoredSections, RenamedSections, RenamedTables;
    var f := SectionMap(snap.sections, base);
    var forTables := base + |snap.sections|;
    SectionsRoundTrip(rows, snap, event, next, base);
    TablesRoundTrip(rows, snap, f, event, next, forTables);
    SavedNames(rows, snap, event, next);
    SavedTablesFit(rows, f, RestoredTables(snap.tables, f, event, forTables), event, next);
    var g := TableMap(snap.tables, f, forTables);
    SavedTypes(rows, snap, f, g, event, next, forTables + |snap.tables|);
    AdmittedBy(snap, event, base);
  }

  lemma AdmittedBy(snap: LayoutSnapshot, event: EventId, base: Id)
    requires forall i, j | 0 <= i < j < |snap.sections| :: snap.sections[i].name != snap.sections[j].name
    requires var f := SectionMap(snap.sections, base); TablesFit(RestoredTables(snap.tables, f, event, base + |snap.sections|))
    requires var f := SectionMap(snap.sections, base); var g := TableMap(snap.tables, f, base + |snap.sections|);
      forall s | s in RestoredSeats(snap.seats, f, g, event, base + |snap.sections| + |snap.tables|) ::
        s.seatType.Some? ==> s.seatType.value in SEAT_TYPES
    ensures var added := Added(snap, event, base); Admitted(snap.sections, added.tables, added.seats)
  {
    hide SectionMap, TableMap, RestoredTables, RestoredSeats, TablesFit, RestoredSections;
  }

  lemma SavedNames(rows: Layout, snap: LayoutSnapshot, event: EventId, next: Id)
    requires EventRows(rows, event, next) && Shows(rows, snap, next)
    ensures forall i, j | 0 <= i < j < |snap.sections| :: snap.sections[i].name != snap.sections[j].name
  {
    hide Identified, Typed;
    forall i, j | 0 <= i < j < |snap.sections|
      ensures snap.sections[i].name != snap.sections[j].name
    {
      assert ShowsSection(rows.sections[i], snap.sections[i]) && ShowsSection(rows.sections[j], snap.sections[j]);
      assert rows.sections[i] in rows.sections && rows.sections[j] in rows.sections;
    }
  }

  lemma SavedTablesFit(rows: Layout, f: map<Id, Id>, restored: seq<Table>, event: EventId, next: Id)
    requires EventRows(rows, event, next) && Injective(f)
    requires exists g :: RenamedTables(MapSeq(Filter(rows.tables, TableKept(rows)), CoreTable), restored, f, g)
    ensures TablesFit(restored)
  {
    hide Identified, Typed, TableKept, MetaOrEmpty;
    var at := FilterIsSubsequence(rows.tables, TableKept(rows));
  }

  lemma SavedTypes(rows: Layout, snap: LayoutSnapshot, f: map<Id, Id>, g: map<Id, Id>, event: EventId, next: Id, base: Id)
    requires EventRows(rows, event, next) && Shows(rows, snap, next) && f.Keys == SectionIds(rows.sections)
    ensures forall s | s in RestoredSeats(snap.seats, f, g, event, base) :: s.seatType.Some? ==> s.seatType.value in SEAT_TYPES
  {
    hide Identified, Named, Typed, RestoredSeats;
    forall k | 0 <= k < |snap.seats|
      ensures snap.seats[k].seatType.Some? ==> snap.seats[k].seatType.value in SEAT_TYPES
    {
      assert ShowsSeat(rows.seats[k], snap.seats[k], next);
    }
    SeatRowTypes(snap.seats, f, g, event, base);
  }

  lemma {:induction false} SeatRowTypes(seats: seq<SeatSnapshot>, f: map<Id, Id>, g: map<Id, Id>, event: EventId, base: Id)
    requires forall s | s in seats :: s.seatType.Some? ==> s.seatType.value in SEAT_TYPES
    ensures forall s | s in RestoredSeats(seats, f, g, event, base) :: s.seatType.Some? ==> s.seatType.value in SEAT_TYPES
  {
    if seats != [] {
      SeatRowTypes(seats[..|seats| - 1], f, g, event, base);
    }
  }

  /** Added rows are the core of the rows they were saved from, renamed. */
  lemma AddedIsIsomorphic(rows: Layout, snap: LayoutSnapshot, event: EventId, next: Id, base: Id)
    returns (f: map<Id, Id>, g: map<Id, Id>, h: map<Id, Id>)
    requires EventRows(rows, event, next) && Shows(rows, snap, next)
    ensures Isomorphic(Core(rows), Added(snap, event, base), f, g, h)
  {
    hide EventRows, Shows, Identified, Named, Typed, SectionMap, TableMap, SeatIdMap, RestoredTables, RestoredSeats, Filter, TableKept, SeatKept;
    hide SectionIds, TableIds, Injective, MetaOrEmpty, RestoredSections, RenamedSections, RenamedTables, RenamedSeats;
    var forTables := base + |snap.sections|;
    f := SectionMap(snap.sections, base);
    g := TableMap(snap.tables, f, forTables);
    h := SeatIdMap(rows.seats, forTables + |snap.tables|);
    SectionsRoundTrip(rows, snap, event, next, base);
    TablesRoundTrip(rows, snap, f, event, next, forTables);
    TableKeys(rows, snap, f, event, next, forTables);
    SeatsRoundTrip(rows, snap, f, g, event, next, forTables + |snap.tables|);
  }

  /**
   A layout saved at some time and restored later comes back: the event's rows are afterwards the saved ones that hang
   together, in normal form, with ids renamed and the links following.
   */
  lemma SaveThenRestore(saved: Layout, event: EventId, savedNext: Id, l: Layout, next: Id)
    returns (f: map<Id, Id>, g: map<Id, Id>, h: map<Id, Id>)
    requires Valid(saved, savedNext) && Valid(l, next) && savedNext <= next
    ensures var raw := Some(SerializeCurrentLayout(Of(saved, event)));
      Restored(l, event, raw, next).Some? && Isomorphic(Core(Of(saved, event)), Of(Restored(l, event, raw, next).value.0, event), f, g, h)
  {
    hide *;
    var rows := Of(saved, event);
    var raw := Some(SerializeCurrentLayout(rows));
    var snap := NormalizeSnapshot(raw, next);
    var base := next + NewIds(raw);
    ValidBelow(saved, savedNext, next);
    OfIsEventRows(saved, event, next);
    EventRowsAreTyped(rows, event, next);
    SavedShows(rows, next);
    SavedIsAdmitted(rows, snap, event, next, base);
    RestoredIsAdded(l, event, raw, next);
    f, g, h := AddedIsIsomorphic(rows, snap, event, next, base);
  }

  lemma EventRowsAreTyped(rows: Layout, event: EventId, next: Id)
    requires EventRows(rows, event, next)
    ensures Typed(rows)
  {
  }

  lemma RestoredIsAdded(l: Layout, event: EventId, raw: Option<RawSnapshot>, next: Id)
    requires Valid(l, next)
    requires var snap := NormalizeSnapshot(raw, next); var added := Added(snap, event, next + NewIds(raw));
      Admitted(snap.sections, added.tables, added.seats)
    ensures var snap := NormalizeSnapshot(raw, next); var base := next + NewIds(raw);
      Restored(l, event, raw, next).Some? && Of(Restored(l, event, raw, next).value.0, event) == Added(snap, event, base)
  {
    hide Valid, Of, Wiped, Admitted, SectionMap, TableMap, RestoredTables, RestoredSeats, NormalizeSnapshot, NewIds, RestoredSections;
    var snap := NormalizeSnapshot(raw, next);
    var base := next + NewIds(raw);
    WipedIsValid(l, event, next);
    AddedBounds(snap, event, base);
    OfAdded(Wiped(l, event), Added(snap, event, base), event);
  }

  // ---------------------------------------------------------------- restoring again, and what restoring loses

  lemma {:induction false} TableRowsAreCore(tables: seq<TableSnapshot>, f: map<Id, Id>, event: EventId, base: Id)
    ensures forall t | t in RestoredTables(tables, f, event, base) :: CoreTable(t) == t
  {
    if tables != [] {
      TableRowsAreCore(tables[..|tables| - 1], f, event, base);
    }
  }

  lemma {:induction false} SeatRowsAreCore(seats: seq<SeatSnapshot>, f: map<Id, Id>, g: map<Id, Id>, event: EventId, base: Id)
    requires forall s | s in seats :: s.seatType == None || s.seatType == Some("RESERVED")
    ensures forall s | s in RestoredSeats(seats, f, g, event, base) :: CoreSeat(s) == s
  {
    if seats != [] {
      SeatRowsAreCore(seats[..|seats| - 1], f, g, event, base);
    }
  }

  lemma CoreOfLinked(rows: Layout)
    requires Linked(rows) && (forall s | s in rows.sections :: CoreSection(s) == s) && (forall t | t in rows.tables :: CoreTable(t) == t)
    requires forall s | s in rows.seats :: CoreSeat(s) == s && s.tableId.Some?
    ensures Core(rows) == rows
  {
    hide CoreSection, CoreTable, CoreSeat, MapSeq, Filter;
    FilterAll(rows.tables, TableKept(rows));
    FilterAll(rows.seats, SeatKept(rows));
    MapSame(rows.sections, CoreSection);
    MapSame(rows.tables, CoreTable);
    MapSame(rows.seats, CoreSeat);
  }

  lemma MapSame<T>(rows: seq<T>, f: T -> T)
    requires forall r | r in rows :: f(r) == r
    ensures MapSeq(rows, f) == rows
  {
    forall k | 0 <= k < |rows|
      ensures f(rows[k]) == rows[k]
    {
      assert rows[k] in rows;
    }
  }

  /** What was restored from a saved layout is its own core: restoring has nothing more to leave out or fill in. */
  lemma RestoredIsCore(saved: Layout, event: EventId, savedNext: Id, l: Layout, next: Id)
    requires Valid(saved, savedNext) && Valid(l, next) && savedNext <= next
    ensures var raw := Some(SerializeCurrentLayout(Of(saved, event)));
      Restored(l, event, raw, next).Some?
      && Core(Of(Restored(l, event, raw, next).value.0, event)) == Of(Restored(l, event, raw, next).value.0, event)
  {
    hide *;
    var rows := Of(saved, event);
    var raw := Some(SerializeCurrentLayout(rows));
    var snap := NormalizeSnapshot(raw, next);
    var base := next + NewIds(raw);
    ValidBelow(saved, savedNext, next);
    OfIsEventRows(saved, event, next);
    EventRowsAreTyped(rows, event, next);
    SavedShows(rows, next);
    SavedIsAdmitted(rows, snap, event, next, base);
    RestoredIsAdded(l, event, raw, next);
    AddedIsCore(rows, snap, event, next, base);
  }

  lemma AddedIsCore(rows: Layout, snap: LayoutSnapshot, event: EventId, next: Id, base: Id)
    requires Shows(rows, snap, next)
    ensures Core(Added(snap, event, base)) == Added(snap, event, base)
  {
    hide Core, CoreSeat, CoreTable, RestoredTables, RestoredSeats, SectionMap, TableMap, Linked;
    var added := Added(snap, event, base);
    var f := SectionMap(snap.sections, base);
    var g := TableMap(snap.tables, f, base + |snap.sections|);
    forall k | 0 <= k < |snap.seats|
      ensures snap.seats[k].seatType == None || snap.seats[k].seatType == Some("RESERVED")
    {
      assert ShowsSeat(rows.seats[k], snap.seats[k], next);
    }
    TableRowsAreCore(snap.tables, f, event, base + |snap.sections|);
    SeatRowsAreCore(snap.seats, f, g, event, base + |snap.sections| + |snap.tables|);
    AddedLinks(snap, event, base);
    AddedBounds(snap, event, base);
    CoreOfLinked(added);
  }

  /** Saving and restoring a second time only renames ids again. */
  lemma RestoreTwice(saved: Layout, event: EventId, savedNext: Id, l: Layout, next: Id)
    returns (f: map<Id, Id>, g: map<Id, Id>, h: map<Id, Id>)
    requires Valid(saved, savedNext) && Valid(l, next) && savedNext <= next
    ensures var once := Restored(l, event, Some(SerializeCurrentLayout(Of(saved, event))), next);
      && once.Some?
      && var (l1, next1) := once.value;
      var twice := Restored(l1, event, Some(SerializeCurrentLayout(Of(l1, event))), next1);
      twice.Some? && Isomorphic(Of(l1, event), Of(twice.value.0, event), f, g, h)
  {
    hide *;
    var raw := Some(SerializeCurrentLayout(Of(saved, event)));
    RestoredIsCore(saved, event, savedNext, l, next);
    var (l1, next1) := Restored(l, event, raw, next).value;
    RestoreKeepsValid(l, event, raw, next);
    f, g, h := SaveThenRestore(l1, event, next1, l1, next1);
  }

  /** The seat hangs on a table that hangs on a section of the event, and itself on a section of the event. */
  predicate Anchored(rows: Layout, s: Seat) {
    && s.sectionId in SectionIds(rows.sections) && s.tableId.Some?
    && exists t | t in rows.tables :: t.id == s.tableId.value && t.sectionId in SectionIds(rows.sections)
  }

  /** Restoring a saved layout keeps the number of seats exactly when every seat of the event is anchored within it. */
  lemma SeatsAreKeptIff(saved: Layout, event: EventId, savedNext: Id, l: Layout, next: Id)
    requires Valid(saved, savedNext) && Valid(l, next) && savedNext <= next
    ensures var rows := Of(saved, event);
      var restored := Restored(l, event, Some(SerializeCurrentLayout(rows)), next);
      && restored.Some? && |Of(restored.value.0, event).seats| <= |rows.seats|
      && (|Of(restored.value.0, event).seats| == |rows.seats| <==> forall s | s in rows.seats :: Anchored(rows, s))
  {
    hide Valid, Of, Restored;
    var rows := Of(saved, event);
    var f, g, h := SaveThenRestore(saved, event, savedNext, l, next);
    FilterCount(rows.seats, SeatKept(rows));
    forall s
      ensures SeatKept(rows)(s) <==> Anchored(rows, s)
    {
    }
  }

  /** A valid layout of one section and one seat in it that stands at no table. */
  function StandingSeat(event: EventId): Layout {
    Layout([Section(0, event, "Floor", 1, 0.0, 0.0, None, None, Null)], [],
           [Seat(1, event, 0, None, Some(1), None, None, None, None, None, "AVAILABLE", None, None, None, DEFAULT_SHAPE, Null)])
  }

  /** Saving and restoring it loses the seat. */
  lemma StandingSeatIsLost(event: EventId)
    ensures Valid(StandingSeat(event), 2)
    ensures var l := StandingSeat(event);
      var restored := Restored(l, event, Some(SerializeCurrentLayout(Of(l, event))), 2);
      restored.Some? && |Of(l, event).seats| == 1 && |Of(restored.value.0, event).seats| == 0
  {
    var l := StandingSeat(event);
    StandingSeatIsValid(event);
    FilterAll(l.seats, (s: Seat) => s.event == event);
    hide Valid, Restored, Filter;
    assert !Anchored(Of(l, event), l.seats[0]);
    SeatsAreKeptIff(l, event, 2, l, 2);
  }

  lemma StandingSeatIsValid(event: EventId)
    ensures Valid(StandingSeat(event), 2)
  {
    var l := StandingSeat(event);
    assert l.sections[0] in l.sections && 0 in SectionIds(l.sections);
    assert "AVAILABLE" in STATUSES;
  }
}
