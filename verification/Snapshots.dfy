/** snapshot-serializer.ts: the snapshot of an event's layout, and how stored data is normalised before it is restored. */
module Snapshots {
  import opened Results
  import opened Sequences
  import opened MetaDefaults
  import opened LayoutRows

  /** A stored snapshot: an id is None when the data holds no string there, an enum is any string. */
  datatype RawSection = RawSection(id: Option<Id>, name: string, order: int, x: real, y: real,
                                   width: Option<real>, height: Option<real>, meta: Json)

  datatype RawTable = RawTable(id: Option<Id>, sectionId: Option<Id>, name: string, order: int, x: real, y: real,
                               capacity: Option<int>, meta: Json)

  datatype RawSeat = RawSeat(id: Option<Id>, tableId: Option<Id>, sectionId: Option<Id>, number: int, seatLabel: Option<string>,
                             x: real, y: real, rotation: real, seatType: Option<string>, status: Option<string>, meta: Json)

  datatype RawSnapshot = RawSnapshot(sections: Option<seq<RawSection>>, tables: Option<seq<RawTable>>, seats: Option<seq<RawSeat>>)

  datatype SectionSnapshot = SectionSnapshot(id: Id, name: string, order: int, x: real, y: real,
                                             width: Option<real>, height: Option<real>, meta: Json)

  datatype TableSnapshot = TableSnapshot(id: Id, sectionId: Id, name: string, order: int, x: real, y: real,
                                         capacity: Option<int>, meta: Json)

  datatype SeatSnapshot = SeatSnapshot(id: Id, tableId: Id, sectionId: Id, number: int, seatLabel: Option<string>,
                                       x: real, y: real, rotation: real, seatType: Option<string>, status: string, meta: Json)

  datatype LayoutSnapshot = LayoutSnapshot(sections: seq<SectionSnapshot>, tables: seq<TableSnapshot>, seats: seq<SeatSnapshot>)

  function MetaOrEmpty(meta: Json): Json {
    if meta.Null? then Obj(map[]) else meta
  }

  function SerializeSection(s: Section): RawSection {
    RawSection(Some(s.id), s.name, s.order, s.x, s.y, s.width, s.height, MetaOrEmpty(s.meta))
  }

  function SerializeTable(t: Table): RawTable {
    RawTable(Some(t.id), Some(t.sectionId), t.name, t.order, t.x, t.y, t.capacity, MetaOrEmpty(t.meta))
  }

  function SerializeSeat(s: Seat): RawSeat {
    RawSeat(Some(s.id), s.tableId, Some(s.sectionId), s.number.GetOr(0), s.seatLabel, s.x.GetOr(0.0), s.y.GetOr(0.0),
            s.rotation.GetOr(0.0), s.seatType, Some(s.status), MetaOrEmpty(s.meta))
  }

  function SerializeCurrentLayout(rows: Layout): RawSnapshot {
    RawSnapshot(Some(MapSeq(rows.sections, SerializeSection)), Some(MapSeq(rows.tables, SerializeTable)),
                Some(MapSeq(rows.seats, SerializeSeat)))
  }

  // ---------------------------------------------------------------- normalising

  /** A missing id becomes a new one. */
  function FixId(id: Option<Id>, newId: Id): Id {
    id.GetOr(newId)
  }

  function NormalizeSection(s: RawSection, newId: Id): SectionSnapshot {
    SectionSnapshot(FixId(s.id, newId), s.name, s.order, s.x, s.y, s.width, s.height, MetaOrEmpty(s.meta))
  }

  function NormalizeTable(t: RawTable, newId: Id): TableSnapshot {
    TableSnapshot(FixId(t.id, newId), FixId(t.sectionId, newId + 1), t.name, t.order, t.x, t.y, t.capacity, MetaOrEmpty(t.meta))
  }

  /** The seat type is compared with the values of the seat status. */
  function NormalizeSeat(s: RawSeat, newId: Id): SeatSnapshot {
    SeatSnapshot(FixId(s.id, newId), FixId(s.tableId, newId + 1), FixId(s.sectionId, newId + 2), s.number, s.seatLabel, s.x, s.y,
                 s.rotation, if s.seatType.Some? && s.seatType.value in STATUSES then s.seatType else None,
                 if s.status.Some? && s.status.value in STATUSES then s.status.value else "AVAILABLE", MetaOrEmpty(s.meta))
  }

  function RawParts(raw: Option<RawSnapshot>): (seq<RawSection>, seq<RawTable>, seq<RawSeat>) {
    match raw
    case None => ([], [], [])
    case Some(r) => (r.sections.GetOr([]), r.tables.GetOr([]), r.seats.GetOr([]))
  }

  /** How many new ids normalising may use. */
  function NewIds(raw: Option<RawSnapshot>): nat {
    var (sections, tables, seats) := RawParts(raw);
    |sections| + 2 * |tables| + 3 * |seats|
  }

  function NormalizeSnapshot(raw: Option<RawSnapshot>, next: Id): LayoutSnapshot {
    var (sections, tables, seats) := RawParts(raw);
    var forTables := next + |sections|;
    var forSeats := forTables + 2 * |tables|;
    LayoutSnapshot(seq(|sections|, k requires 0 <= k < |sections| => NormalizeSection(sections[k], next + k)),
                   seq(|tables|, k requires 0 <= k < |tables| => NormalizeTable(tables[k], forTables + 2 * k)),
                   seq(|seats|, k requires 0 <= k < |seats| => NormalizeSeat(seats[k], forSeats + 3 * k)))
  }
}

/** What restoring a snapshot writes. */
module Restoring {
  import opened Results
  import opened LayoutRows
  import opened Snapshots

  function SectionRow(s: SectionSnapshot, event: EventId, id: Id): Section {
    Section(id, event, s.name, s.order, s.x, s.y, s.width, s.height, MetaOrEmpty(s.meta))
  }

  function TableRow(t: TableSnapshot, event: EventId, id: Id, sectionId: Id): Table {
    Table(id, event, sectionId, t.name, t.order, t.x, t.y, t.capacity, MetaOrEmpty(t.meta))
  }

  /** A restored seat has no holder, and its shape is the default one. */
  function SeatRow(s: SeatSnapshot, event: EventId, id: Id, sectionId: Id, tableId: Id): Seat {
    Seat(id, event, sectionId, Some(tableId), Some(s.number), s.seatLabel, Some(s.x), Some(s.y), Some(s.rotation),
         Some(s.seatType.GetOr("STANDARD")), s.status, None, None, None, DEFAULT_SHAPE, MetaOrEmpty(s.meta))
  }

  function RestoredSections(sections: seq<SectionSnapshot>, event: EventId, base: Id): (rows: seq<Section>)
    ensures |rows| == |sections| && forall k | 0 <= k < |rows| :: rows[k] == SectionRow(sections[k], event, base + k)
  {
    seq(|sections|, k requires 0 <= k < |sections| => SectionRow(sections[k], event, base + k))
  }

  /** The new id of each section by its old one; of sections that share an old id the last counts. */
  function SectionMap(sections: seq<SectionSnapshot>, base: Id): (m: map<Id, Id>)
    ensures forall id :: id in m <==> exists k :: 0 <= k < |sections| && sections[k].id == id
    ensures forall id | id in m :: base <= m[id] < base + |sections|
  {
    if sections == [] then map[]
    else
      var last := |sections| - 1;
      SectionMap(sections[..last], base)[sections[last].id := base + last]
  }

  function TableMap(tables: seq<TableSnapshot>, sectionMap: map<Id, Id>, base: Id): (m: map<Id, Id>)
    ensures forall id :: id in m <==> exists k :: 0 <= k < |tables| && tables[k].id == id && tables[k].sectionId in sectionMap
    ensures forall id | id in m :: base <= m[id] < base + |tables|
  {
    if tables == [] then map[]
    else
      var last := |tables| - 1;
      var m := TableMap(tables[..last], sectionMap, base);
      if tables[last].sectionId in sectionMap then m[tables[last].id := base + last] else m
  }

  predicate TableRestorable(t: TableSnapshot, sectionMap: map<Id, Id>) {
    t.sectionId in sectionMap
  }

  function RestoredTable(t: TableSnapshot, sectionMap: map<Id, Id>, event: EventId, id: Id): Table
    requires TableRestorable(t, sectionMap)
  {
    TableRow(t, event, id, sectionMap[t.sectionId])
  }

  /** Tables of unknown sections are left out. */
  function RestoredTables(tables: seq<TableSnapshot>, sectionMap: map<Id, Id>, event: EventId, base: Id): seq<Table> {
    if tables == [] then []
    else
      var last := |tables| - 1;
      var t := tables[last];
      RestoredTables(tables[..last], sectionMap, event, base)
      + if TableRestorable(t, sectionMap) then [RestoredTable(t, sectionMap, event, base + last)] else []
  }

  /** The seat's section and table have been restored. */
  predicate Restorable(s: SeatSnapshot, sectionMap: map<Id, Id>, tableMap: map<Id, Id>) {
    s.sectionId in sectionMap && s.tableId in tableMap
  }

  function RestoredSeat(s: SeatSnapshot, sectionMap: map<Id, Id>, tableMap: map<Id, Id>, event: EventId, id: Id): Seat
    requires Restorable(s, sectionMap, tableMap)
  {
    SeatRow(s, event, id, sectionMap[s.sectionId], tableMap[s.tableId])
  }

  /** Seats of unknown sections or tables are left out. */
  function RestoredSeats(seats: seq<SeatSnapshot>, sectionMap: map<Id, Id>, tableMap: map<Id, Id>, event: EventId, base: Id): seq<Seat> {
    if seats == [] then []
    else
      var last := |seats| - 1;
      var s := seats[last];
      RestoredSeats(seats[..last], sectionMap, tableMap, event, base)
      + if Restorable(s, sectionMap, tableMap) then [RestoredSeat(s, sectionMap, tableMap, event, base + last)] else []
  }

  /** Rows that the unique names and the enum columns admit. */
  predicate Admitted(sections: seq<SectionSnapshot>, tables: seq<Table>, seats: seq<Seat>) {
    && (forall i, j | 0 <= i < j < |sections| :: sections[i].name != sections[j].name)
    && TablesFit(tables)
    && (forall s | s in seats :: s.seatType.Some? ==> s.seatType.value in SEAT_TYPES)
  }

  lemma SectionNameTakenByRestored(kept: seq<Section>, snaps: seq<SectionSnapshot>, event: EventId, base: Id, name: string)
    requires forall s | s in kept :: s.event != event
    ensures SectionNameTaken(kept + RestoredSections(snaps, event, base), event, name) <==> exists i | 0 <= i < |snaps| :: snaps[i].name == name
  {
    var rows := RestoredSections(snaps, event, base);
    if i :| 0 <= i < |snaps| && snaps[i].name == name {
      assert rows[i] in kept + rows;
    }
  }

  lemma OneMoreSection(snaps: seq<SectionSnapshot>, k: nat, event: EventId, base: Id)
    requires k < |snaps|
    ensures RestoredSections(snaps[..k + 1], event, base) == RestoredSections(snaps[..k], event, base) + [SectionRow(snaps[k], event, base + k)]
    ensures SectionMap(snaps[..k + 1], base) == SectionMap(snaps[..k], base)[snaps[k].id := base + k]
  {
    assert snaps[..k + 1][..k] == snaps[..k];
  }

  lemma OneMoreTable(snaps: seq<TableSnapshot>, k: nat, sectionMap: map<Id, Id>, event: EventId, base: Id)
    requires k < |snaps|
    ensures RestoredTables(snaps[..k + 1], sectionMap, event, base)
         == RestoredTables(snaps[..k], sectionMap, event, base)
            + if TableRestorable(snaps[k], sectionMap) then [RestoredTable(snaps[k], sectionMap, event, base + k)] else []
    ensures var m := TableMap(snaps[..k], sectionMap, base);
      TableMap(snaps[..k + 1], sectionMap, base) == if TableRestorable(snaps[k], sectionMap) then m[snaps[k].id := base + k] else m
  {
    assert snaps[..k + 1][..k] == snaps[..k];
  }

  lemma TableNameTakenByRestored(kept: seq<Table>, rows: seq<Table>, t: Table)
    requires (forall k | k in kept :: k.sectionId != t.sectionId) && TablesFit(rows)
    ensures TableNameTaken(kept + rows, t.sectionId, t.name) <==> !TablesFit(rows + [t])
  {
    if !TablesFit(rows + [t]) {
      var i, j :| 0 <= i < j < |rows| + 1 && (rows + [t])[i].sectionId == (rows + [t])[j].sectionId && (rows + [t])[i].name == (rows + [t])[j].name;
      assert rows[i] in kept + rows;
    }
    if TableNameTaken(kept + rows, t.sectionId, t.name) {
      var u :| u in kept + rows && u.sectionId == t.sectionId && u.name == t.name;
      var i :| 0 <= i < |rows| && rows[i] == u;
      assert (rows + [t])[i] == u && (rows + [t])[|rows|] == t;
    }
  }

  lemma {:induction false} TableRowsGrow(tables: seq<TableSnapshot>, k: nat, sectionMap: map<Id, Id>, event: EventId, base: Id)
    requires k <= |tables|
    ensures RestoredTables(tables[..k], sectionMap, event, base) <= RestoredTables(tables, sectionMap, event, base)
  {
    if k == |tables| {
      assert tables[..k] == tables;
    } else {
      var init := tables[..|tables| - 1];
      TableRowsGrow(init, k, sectionMap, event, base);
      assert init[..k] == tables[..k];
    }
  }

  lemma TablesFitPrefix(some: seq<Table>, all: seq<Table>)
    requires some <= all && TablesFit(all)
    ensures TablesFit(some)
  {
    forall i, j | 0 <= i < j < |some|
      ensures some[i].sectionId != some[j].sectionId || some[i].name != some[j].name
    {
      assert some[i] == all[i] && some[j] == all[j];
    }
  }

  lemma KeptSectionIds(l: Layout, next: Id)
    requires Valid(l, next)
    ensures forall t | t in l.tables :: t.sectionId < next
  {
  }

  lemma NoSections(event: EventId, base: Id)
    ensures RestoredSections([], event, base) == [] && SectionMap([], base) == map[]
  {
  }

  lemma NoTables(sectionMap: map<Id, Id>, event: EventId, base: Id)
    ensures TablesFit([]) && RestoredTables([], sectionMap, event, base) == [] && TableMap([], sectionMap, base) == map[]
  {
  }

  lemma NoFit(some: seq<Table>, all: seq<Table>)
    requires some <= all && !TablesFit(some)
    ensures !TablesFit(all)
  {
    if TablesFit(all) {
      TablesFitPrefix(some, all);
    }
  }

  function Restored(l: Layout, event: EventId, raw: Option<RawSnapshot>, next: Id): Option<(Layout, Id)> {
    var kept := Wiped(l, event);
    var snap := NormalizeSnapshot(raw, next);
    var base := next + NewIds(raw);
    var forTables := base + |snap.sections|;
    var forSeats := forTables + |snap.tables|;
    var sectionMap := SectionMap(snap.sections, base);
    var tables := RestoredTables(snap.tables, sectionMap, event, forTables);
    var seats := RestoredSeats(snap.seats, sectionMap, TableMap(snap.tables, sectionMap, forTables), event, forSeats);
    if Admitted(snap.sections, tables, seats)
    then Some((Layout(kept.sections + RestoredSections(snap.sections, event, base), kept.tables + tables, kept.seats + seats),
               forSeats + |snap.seats|))
    else None
  }
}
