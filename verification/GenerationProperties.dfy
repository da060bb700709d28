/** Generation conserves seats from the plan through the geometry to the stored rows. */
module GenerationProperties {
  import opened Results
  import opened Numbers
  import opened Sequences
  import opened Decimal
  import opened LayoutRows
  import opened SeatPlan
  import opened GeometryEngine
  import opened GeometryRows

  // ---------------------------------------------------------------- tables of a geometry

  /** The table stands somewhere in the first `n` sections of the configuration. */
  ghost predicate HasPlace(inputs: seq<SectionInput>, n: nat, table: GeometryTable)
    requires n <= |inputs|
  {
    exists i: nat, t: nat :: i < n && t < |inputs[i].tables| && table == TableOf(i, inputs[i], t)
  }

  /** Every table of the geometry has a place in the configuration. */
  lemma {:induction false} TablesHavePlaces(inputs: seq<SectionInput>, n: nat)
    requires n <= |inputs|
    ensures forall k | 0 <= k < |TablesOf(inputs[..n])| :: HasPlace(inputs, n, TablesOf(inputs[..n])[k])
  {
    if n > 0 {
      hide TableOf;
      var last := n - 1;
      TablesHavePlaces(inputs, last);
      assert inputs[..n][..last] == inputs[..last];
      var before, added := TablesOf(inputs[..last]), TablesOfSection(last, inputs[last]);
      var tables := TablesOf(inputs[..n]);
      assert tables == before + added;
      hide TablesOf;
      forall k | 0 <= k < |tables|
        ensures HasPlace(inputs, n, tables[k])
      {
        if k < |before| {
          assert HasPlace(inputs, last, before[k]);
        } else {
          assert tables[k] == TableOf(last, inputs[last], k - |before|);
        }
      }
    }
  }

  /** No two tables of the geometry share an id. */
  lemma {:induction false} TablesDiffer(inputs: seq<SectionInput>, n: nat)
    requires n <= |inputs|
    ensures forall j, k | 0 <= j < k < |TablesOf(inputs[..n])| :: TablesOf(inputs[..n])[j].id != TablesOf(inputs[..n])[k].id
  {
    if n > 0 {
      hide TableId, SectionId;
      var last := n - 1;
      TablesDiffer(inputs, last);
      TablesHavePlaces(inputs, last);
      assert inputs[..n][..last] == inputs[..last];
      var before, added := TablesOf(inputs[..last]), TablesOfSection(last, inputs[last]);
      var tables := TablesOf(inputs[..n]);
      assert tables == before + added;
      hide TablesOf;
      forall j, k | 0 <= j < k < |tables|
        ensures tables[j].id != tables[k].id
      {
        if k >= |before| {
          if j < |before| {
            PlacesDiffer(inputs, last, before[j], k - |before|);
          } else {
            TableIdsDiffer(last, j - |before|, last, k - |before|);
          }
        }
      }
    }
  }

  lemma PlacesDiffer(inputs: seq<SectionInput>, last: nat, table: GeometryTable, u: nat)
    requires last <= |inputs| && HasPlace(inputs, last, table)
    ensures table.id != TableId(last, u)
  {
    var i: nat, t: nat :| i < last && t < |inputs[i].tables| && table == TableOf(i, inputs[i], t);
    TableIdsDiffer(i, t, last, u);
  }

  predicate InTables(tables: seq<GeometryTable>, tableId: string) {
    exists j | 0 <= j < |tables| :: tables[j].id == tableId
  }

  /** Every generated seat belongs to a table of the geometry. */
  lemma {:induction false} SeatsHaveTables(inputs: seq<SectionInput>, tables: seq<GeometryTable>)
    requires forall table | table in tables :: Indexed(inputs, table.id)
    ensures forall m | 0 <= m < |SeatsOf(inputs, tables)| :: InTables(tables, SeatsOf(inputs, tables)[m].tableId)
  {
    if tables != [] {
      var last := |tables| - 1;
      SeatsHaveTables(inputs, tables[..last]);
      var before, added := SeatsOf(inputs, tables[..last]), SeatsOfTable(inputs, tables[last].id);
      var seats := SeatsOf(inputs, tables);
      assert seats == before + added;
      forall m | 0 <= m < |seats|
        ensures InTables(tables, seats[m].tableId)
      {
        if m < |before| {
          assert InTables(tables[..last], before[m].tableId);
          var j :| 0 <= j < last && tables[..last][j].id == before[m].tableId;
          assert tables[j].id == seats[m].tableId;
        } else {
          assert tables[last].id == seats[m].tableId;
        }
      }
    }
  }

  // ---------------------------------------------------------------- rows found by name

  predicate HasSection(rows: seq<Section>, name: string) {
    FirstSection(rows, name).Some?
  }

  lemma HasSectionIff(rows: seq<Section>, name: string)
    ensures HasSection(rows, name) <==> exists i | 0 <= i < |rows| :: rows[i].name == name
  {
  }

  lemma HasSectionGrows(rows: seq<Section>, more: seq<Section>, name: string)
    requires HasSection(rows, name)
    ensures HasSection(rows + more, name)
  {
    var i := FirstSection(rows, name).value;
    assert (rows + more)[i].name == name;
  }

  /** Storing one section more. */
  lemma OneMoreStored(sections: seq<GeometrySection>, event: EventId, base: Id, draw: Drawings)
    requires sections != []
    ensures var last := |sections| - 1; var before := NewSections([], sections[..last], event, base, draw);
      NewSections([], sections, event, base, draw)
      == if HasSection(before, sections[last].name) then before else before + [NewSection(sections[last], event, base + last, draw)]
  {
    assert FirstSection([], sections[|sections| - 1].name).None?;
  }

  lemma AddedIsThere(rows: seq<Section>, s: Section)
    ensures HasSection(rows + [s], s.name)
  {
    assert (rows + [s])[|rows|].name == s.name;
    HasSectionIff(rows + [s], s.name);
  }

  lemma NewSectionIs(sec: GeometrySection, event: EventId, id: Id, draw: Drawings)
    ensures var s := NewSection(sec, event, id, draw); s.id == id && s.event == event && s.name == sec.name
  {
  }

  ghost predicate AllStored(sections: seq<GeometrySection>, rows: seq<Section>) {
    forall k | 0 <= k < |sections| :: HasSection(rows, sections[k].name)
  }

  ghost predicate Within(rows: seq<Section>, event: EventId, base: Id, end: Id) {
    forall i | 0 <= i < |rows| :: rows[i].event == event && base <= rows[i].id < end
  }

  lemma AllStoredGrows(sections: seq<GeometrySection>, before: seq<Section>, s: Section)
    requires sections != [] && AllStored(sections[..|sections| - 1], before) && s.name == sections[|sections| - 1].name
    ensures AllStored(sections, before + [s])
  {
    hide HasSection;
    forall k | 0 <= k < |sections|
      ensures HasSection(before + [s], sections[k].name)
    {
      if k < |sections| - 1 {
        assert sections[..|sections| - 1][k] == sections[k];
        HasSectionGrows(before, [s], sections[k].name);
      } else {
        AddedIsThere(before, s);
      }
    }
  }

  lemma AllStoredAlready(sections: seq<GeometrySection>, rows: seq<Section>)
    requires sections != [] && AllStored(sections[..|sections| - 1], rows) && HasSection(rows, sections[|sections| - 1].name)
    ensures AllStored(sections, rows)
  {
    hide HasSection;
    forall k | 0 <= k < |sections|
      ensures HasSection(rows, sections[k].name)
    {
      if k < |sections| - 1 {
        assert sections[..|sections| - 1][k] == sections[k];
      }
    }
  }

  lemma WithinGrows(before: seq<Section>, s: Section, event: EventId, base: Id, end: Id)
    requires Within(before, event, base, end) && s.event == event && base <= s.id == end
    ensures Within(before, event, base, end + 1) && Within(before + [s], event, base, end + 1)
  {
  }

  lemma {:induction false} SectionsAreStored(sections: seq<GeometrySection>, event: EventId, base: Id, draw: Drawings)
    ensures AllStored(sections, NewSections([], sections, event, base, draw))
    ensures Within(NewSections([], sections, event, base, draw), event, base, base + |sections|)
  {
    hide *;
    if sections == [] {
      NothingStored(event, base, draw);
    } else {
      OneMoreStored(sections, event, base, draw);
      var last := |sections| - 1;
      SectionsAreStored(sections[..last], event, base, draw);
      var before := NewSections([], sections[..last], event, base, draw);
      var s := NewSection(sections[last], event, base + last, draw);
      NewSectionIs(sections[last], event, base + last, draw);
      WithinGrows(before, s, event, base, base + last);
      if HasSection(before, sections[last].name) {
        AllStoredAlready(sections, before);
      } else {
        AllStoredGrows(sections, before, s);
      }
    }
  }

  lemma NothingStored(event: EventId, base: Id, draw: Drawings)
    ensures AllStored([], NewSections([], [], event, base, draw)) && Within(NewSections([], [], event, base, draw), event, base, base)
    ensures Increasing(NewSections([], [], event, base, draw), base)
  {
  }

  lemma {:induction false} SectionsAreFound(sections: seq<GeometrySection>, all: seq<Section>)
    requires forall k | 0 <= k < |sections| :: HasSection(all, sections[k].name)
    ensures forall k | 0 <= k < |sections| :: sections[k].id in SectionsByInput(sections, all)
    ensures forall id | id in SectionsByInput(sections, all) :: SectionsByInput(sections, all)[id] in all
  {
    if sections != [] {
      SectionsAreFound(sections[..|sections| - 1], all);
    }
  }

  lemma {:induction false} SectionsAreFoundByName(sections: seq<GeometrySection>, all: seq<Section>)
    requires forall k | 0 <= k < |sections| :: HasSection(all, sections[k].name)
    requires forall i, j | 0 <= i < j < |sections| :: sections[i].id != sections[j].id
    ensures forall k | 0 <= k < |sections| ::
      HasSection(all, sections[k].name) && sections[k].id in SectionsByInput(sections, all)
      && SectionsByInput(sections, all)[sections[k].id] == all[FirstSection(all, sections[k].name).value]
  {
    hide FirstSection;
    if sections != [] {
      SectionsAreFoundByName(sections[..|sections| - 1], all);
    }
  }

  lemma {:induction false} TablesAreStored(tables: seq<GeometryTable>, byInput: map<string, Section>, event: EventId, base: Id, draw: Drawings)
    requires forall k | 0 <= k < |tables| :: tables[k].sectionId in byInput
    ensures var rows := NewTables(tables, byInput, event, base, draw);
      && |rows| == |tables|
      && forall k | 0 <= k < |tables| :: rows[k] == NewTable(tables[k], event, base + k, byInput[tables[k].sectionId].id, draw)
  {
    hide NewTable;
    if tables != [] {
      TablesAreStored(tables[..|tables| - 1], byInput, event, base, draw);
    }
  }

  lemma {:induction false} TablesAreFound(tables: seq<GeometryTable>, all: seq<Table>)
    requires forall k | 0 <= k < |tables| :: FirstTable(all, tables[k].name).Some?
    requires forall i, j | 0 <= i < j < |tables| :: tables[i].id != tables[j].id
    ensures forall k | 0 <= k < |tables| ::
      tables[k].id in TablesByInput(tables, all)
      && TablesByInput(tables, all)[tables[k].id] == all[FirstTable(all, tables[k].name).value]
  {
    if tables != [] {
      TablesAreFound(tables[..|tables| - 1], all);
    }
  }

  lemma {:induction false} SeatsAreStored(seats: seq<GeometrySeat>, geometry: GeometryOutput, byInput: map<string, Section>,
                                          tableOf: map<string, Table>, event: EventId, base: Id, draw: Drawings)
    requires forall m | 0 <= m < |seats| :: seats[m].tableId in tableOf
    ensures var rows := NewSeats(seats, geometry, byInput, tableOf, event, base, draw);
      && |rows| == |seats|
      && forall m | 0 <= m < |seats| ::
        rows[m] == NewSeat(seats[m], event, base + m, tableOf[seats[m].tableId], SectionName(geometry.tables, byInput, seats[m].tableId), draw)
  {
    hide NewSeat, SectionName;
    if seats != [] {
      SeatsAreStored(seats[..|seats| - 1], geometry, byInput, tableOf, event, base, draw);
    }
  }

  // ---------------------------------------------------------------- the rows of a generated layout

  function StoredSections(inputs: seq<SectionInput>, event: EventId, next: Id, draw: Drawings): seq<Section> {
    NewSections([], SectionsOf(inputs), event, next, draw)
  }

  function SectionOf(inputs: seq<SectionInput>, event: EventId, next: Id, draw: Drawings): map<string, Section> {
    SectionsByInput(SectionsOf(inputs), StoredSections(inputs, event, next, draw))
  }

  function StoredTables(inputs: seq<SectionInput>, event: EventId, next: Id, draw: Drawings): seq<Table> {
    NewTables(TablesOf(inputs), SectionOf(inputs, event, next, draw), event, next + |inputs|, draw)
  }

  function TableOfInput(inputs: seq<SectionInput>, event: EventId, next: Id, draw: Drawings): map<string, Table> {
    TablesByInput(TablesOf(inputs), StoredTables(inputs, event, next, draw))
  }

  ghost function AllSeats(inputs: seq<SectionInput>): seq<GeometrySeat> {
    TablesAreIndexed(inputs);
    SeatsOf(inputs, TablesOf(inputs))
  }

  ghost function StoredSeats(inputs: seq<SectionInput>, event: EventId, next: Id, draw: Drawings): seq<Seat> {
    NewSeats(AllSeats(inputs), GeometryOutput(SectionsOf(inputs), TablesOf(inputs), AllSeats(inputs)),
             SectionOf(inputs, event, next, draw), TableOfInput(inputs, event, next, draw), event,
             next + |inputs| + |TablesOf(inputs)|, draw)
  }

  /** All rows that generating adds, and the next free id after them. */
  ghost function Stored(inputs: seq<SectionInput>, event: EventId, next: Id, draw: Drawings): Layout {
    Layout(StoredSections(inputs, event, next, draw), StoredTables(inputs, event, next, draw), StoredSeats(inputs, event, next, draw))
  }

  ghost function NextAfter(inputs: seq<SectionInput>, next: Id): Id {
    next + |inputs| + |TablesOf(inputs)| + |AllSeats(inputs)|
  }

  lemma SectionsStored(inputs: seq<SectionInput>, event: EventId, next: Id, draw: Drawings)
    ensures forall k | 0 <= k < |inputs| :: HasSection(StoredSections(inputs, event, next, draw), inputs[k].name)
    ensures forall r | r in StoredSections(inputs, event, next, draw) :: r.event == event && next <= r.id < next + |inputs|
    ensures forall k | 0 <= k < |inputs| :: SectionId(k) in SectionOf(inputs, event, next, draw)
    ensures forall id | id in SectionOf(inputs, event, next, draw) ::
      SectionOf(inputs, event, next, draw)[id] in StoredSections(inputs, event, next, draw)
  {
    hide NewSections, SectionsByInput, SectionId, HasSection;
    var sections := SectionsOf(inputs);
    assert forall k | 0 <= k < |inputs| :: sections[k].name == inputs[k].name && sections[k].id == SectionId(k);
    SectionsAreStored(sections, event, next, draw);
    SectionsAreFound(sections, NewSections([], sections, event, next, draw));
  }

  lemma PlacedInSection(inputs: seq<SectionInput>, table: GeometryTable)
    requires HasPlace(inputs, |inputs|, table)
    ensures exists i: nat :: i < |inputs| && table.sectionId == SectionId(i)
  {
  }

  /** Every table of the configuration is stored, in the geometry's order. */
  lemma TablesStored(inputs: seq<SectionInput>, event: EventId, next: Id, draw: Drawings)
    ensures var tables, rows := TablesOf(inputs), StoredTables(inputs, event, next, draw);
      && |rows| == |tables|
      && forall k | 0 <= k < |tables| ::
        tables[k].sectionId in SectionOf(inputs, event, next, draw)
        && rows[k] == NewTable(tables[k], event, next + |inputs| + k, SectionOf(inputs, event, next, draw)[tables[k].sectionId].id, draw)
  {
    hide SectionOf, NewTables, NewTable, SectionId, TableId, HasPlace, HasSection, StoredSections, TablesOf;
    var tables := TablesOf(inputs);
    SectionsStored(inputs, event, next, draw);
    assert inputs[..|inputs|] == inputs;
    TablesHavePlaces(inputs, |inputs|);
    forall k | 0 <= k < |tables|
      ensures tables[k].sectionId in SectionOf(inputs, event, next, draw)
    {
      PlacedInSection(inputs, tables[k]);
    }
    TablesAreStored(tables, SectionOf(inputs, event, next, draw), event, next + |inputs|, draw);
  }

  predicate HasTable(rows: seq<Table>, name: string) {
    FirstTable(rows, name).Some?
  }

  /** Every table of the geometry is found again, as the first one with its name. */
  lemma TablesFound(inputs: seq<SectionInput>, event: EventId, next: Id, draw: Drawings)
    ensures var tables, rows := TablesOf(inputs), StoredTables(inputs, event, next, draw);
      forall k | 0 <= k < |tables| ::
        HasTable(rows, tables[k].name) && tables[k].id in TableOfInput(inputs, event, next, draw)
        && TableOfInput(inputs, event, next, draw)[tables[k].id] == rows[FirstTable(rows, tables[k].name).value]
  {
    var tables, rows := TablesOf(inputs), StoredTables(inputs, event, next, draw);
    TablesStored(inputs, event, next, draw);
    TablesDiffer(inputs, |inputs|);
    assert inputs[..|inputs|] == inputs;
    hide TablesOf, StoredTables, SectionOf, TablesByInput;
    forall k | 0 <= k < |tables|
      ensures HasTable(rows, tables[k].name)
    {
      assert rows[k].name == tables[k].name;
    }
    TablesAreFound(tables, rows);
  }

  /** Every generated seat is stored, on the table found for it. */
  lemma SeatsStored(inputs: seq<SectionInput>, event: EventId, next: Id, draw: Drawings)
    ensures var seats, rows := AllSeats(inputs), StoredSeats(inputs, event, next, draw);
      && |rows| == |seats|
      && forall m | 0 <= m < |seats| ::
        && seats[m].tableId in TableOfInput(inputs, event, next, draw)
        && rows[m].id == next + |inputs| + |TablesOf(inputs)| + m && rows[m].seatType == Some("STANDARD") && rows[m].shape == seats[m].seatShape
        && rows[m].event == event && rows[m].number == Some(seats[m].number) && rows[m].Blank()
        && rows[m].status == (if seats[m].status in STATUSES then seats[m].status else "AVAILABLE")
        && rows[m].tableId == Some(TableOfInput(inputs, event, next, draw)[seats[m].tableId].id)
        && rows[m].sectionId == TableOfInput(inputs, event, next, draw)[seats[m].tableId].sectionId
  {
    hide TablesOf, SectionsOf, SeatsOf, SectionOf, TableOfInput, NewSeats, SectionName;
    var seats := AllSeats(inputs);
    TablesAreIndexed(inputs);
    SeatsHaveTables(inputs, TablesOf(inputs));
    TablesFound(inputs, event, next, draw);
    forall m | 0 <= m < |seats|
      ensures seats[m].tableId in TableOfInput(inputs, event, next, draw)
    {
      assert InTables(TablesOf(inputs), seats[m].tableId);
    }
    SeatsAreStored(seats, GeometryOutput(SectionsOf(inputs), TablesOf(inputs), seats), SectionOf(inputs, event, next, draw),
                   TableOfInput(inputs, event, next, draw), event, next + |inputs| + |TablesOf(inputs)|, draw);
  }

  /** After the wipe the event's rows are exactly the stored ones. */
  lemma GeneratedIs(l: Layout, event: EventId, inputs: seq<SectionInput>, next: Id, draw: Drawings)
    requires Valid(l, next)
    ensures Generated(l, event, inputs, next, draw).Some?
       <==> TablesFit(Wiped(l, event).tables + StoredTables(inputs, event, next, draw)) && ShapesFit(StoredSeats(inputs, event, next, draw))
    ensures Generated(l, event, inputs, next, draw).Some? ==>
      && Generated(l, event, inputs, next, draw).value == (Joined(Wiped(l, event), Stored(inputs, event, next, draw)), NextAfter(inputs, next))
      && Of(Generated(l, event, inputs, next, draw).value.0, event) == Stored(inputs, event, next, draw)
  {
    hide Valid, Wiped, TablesFit, ShapesFit, TablesOf, SeatsOf, NewSections, NewTables, NewSeats, SectionsByInput, TablesByInput, Filter;
    var w := Wiped(l, event);
    WipedIsValid(l, event, next);
    TablesAreIndexed(inputs);
    FilterNone(w.sections, (s: Section) => s.event == event);
    StoredEvents(inputs, event, next, draw);
    OnlyAdded(w.sections, StoredSections(inputs, event, next, draw), (s: Section) => s.event == event);
    OnlyAdded(w.tables, StoredTables(inputs, event, next, draw), (t: Table) => t.event == event);
    OnlyAdded(w.seats, StoredSeats(inputs, event, next, draw), (s: Seat) => s.event == event);
  }

  lemma StoredEvents(inputs: seq<SectionInput>, event: EventId, next: Id, draw: Drawings)
    ensures forall s | s in StoredSections(inputs, event, next, draw) :: s.event == event
    ensures forall t | t in StoredTables(inputs, event, next, draw) :: t.event == event
    ensures forall s | s in StoredSeats(inputs, event, next, draw) :: s.event == event
  {
    hide StoredSections, StoredTables, StoredSeats, AllSeats, TablesOf, SectionOf, TableOfInput;
    SectionsStored(inputs, event, next, draw);
    TablesStored(inputs, event, next, draw);
    SeatsStored(inputs, event, next, draw);
  }

  /** Each generated seat is stored, on the first table of the configuration that has its table's name. */
  lemma SeatLandsOnFirst(l: Layout, event: EventId, inputs: seq<SectionInput>, next: Id, draw: Drawings, m: nat, j: nat) returns (i: nat)
    requires Valid(l, next) && Generated(l, event, inputs, next, draw).Some?
    requires m < |AllSeats(inputs)| && j < |TablesOf(inputs)| && AllSeats(inputs)[m].tableId == TablesOf(inputs)[j].id
    ensures i <= j && TablesOf(inputs)[i].name == TablesOf(inputs)[j].name
    ensures forall k | 0 <= k < i :: TablesOf(inputs)[k].name != TablesOf(inputs)[j].name
    ensures var rows := Of(Generated(l, event, inputs, next, draw).value.0, event);
      && |rows.tables| == |TablesOf(inputs)| && |rows.seats| == |AllSeats(inputs)|
      && (forall a, b | 0 <= a < b < |rows.tables| :: rows.tables[a].id != rows.tables[b].id)
      && rows.seats[m].tableId == Some(rows.tables[i].id) && rows.seats[m].sectionId == rows.tables[i].sectionId
  {
    hide Valid, Generated, Of, TablesOf, AllSeats, StoredSections, StoredTables, StoredSeats, SectionOf, TableOfInput, FirstTable;
    GeneratedIs(l, event, inputs, next, draw);
    TablesStored(inputs, event, next, draw);
    TablesFound(inputs, event, next, draw);
    SeatsStored(inputs, event, next, draw);
    i := FirstIs(StoredTables(inputs, event, next, draw), TablesOf(inputs), j);
  }

  lemma FirstIs(rows: seq<Table>, tables: seq<GeometryTable>, j: nat) returns (i: nat)
    requires |rows| == |tables| && j < |rows| && HasTable(rows, tables[j].name)
    requires forall k | 0 <= k < |tables| :: rows[k].name == tables[k].name
    ensures i <= j && rows[FirstTable(rows, tables[j].name).value] == rows[i] && tables[i].name == tables[j].name
    ensures forall k | 0 <= k < i :: tables[k].name != tables[j].name
  {
    i := FirstTable(rows, tables[j].name).value;
    assert rows[i].name == tables[j].name && rows[j].name == tables[j].name;
  }

  /**
   For every configuration that can be stored: the seats of a table land on that very table exactly when no earlier table
   of the configuration has its name.
   */
  lemma SeatsLandOnTheirTableIff(l: Layout, event: EventId, inputs: seq<SectionInput>, next: Id, draw: Drawings, m: nat, j: nat)
    requires Valid(l, next) && Generated(l, event, inputs, next, draw).Some?
    requires m < |AllSeats(inputs)| && j < |TablesOf(inputs)| && AllSeats(inputs)[m].tableId == TablesOf(inputs)[j].id
    ensures var rows := Of(Generated(l, event, inputs, next, draw).value.0, event);
      && |rows.tables| == |TablesOf(inputs)| && |rows.seats| == |AllSeats(inputs)|
      && (rows.seats[m].tableId == Some(rows.tables[j].id) <==> forall i | 0 <= i < j :: TablesOf(inputs)[i].name != TablesOf(inputs)[j].name)
  {
    hide Valid, Generated, Of, TablesOf, AllSeats;
    var i := SeatLandsOnFirst(l, event, inputs, next, draw, m, j);
  }

  // ---------------------------------------------------------------- what generating keeps

  ghost predicate Increasing(rows: seq<Section>, end: Id) {
    && (forall i | 0 <= i < |rows| :: rows[i].id < end)
    && (forall i, j | 0 <= i < j < |rows| :: rows[i].id < rows[j].id && rows[i].name != rows[j].name)
  }

  lemma IncreasingGrows(rows: seq<Section>, s: Section, end: Id)
    requires Increasing(rows, end) && s.id >= end && !HasSection(rows, s.name)
    ensures Increasing(rows + [s], s.id + 1)
  {
    HasSectionIff(rows, s.name);
  }

  lemma IncreasingBelow(rows: seq<Section>, end: Id, later: Id)
    requires Increasing(rows, end) && end <= later
    ensures Increasing(rows, later)
  {
  }

  /** Stored sections have increasing ids and different names. */
  lemma {:induction false} StoredSectionsDiffer(sections: seq<GeometrySection>, event: EventId, base: Id, draw: Drawings)
    ensures Increasing(NewSections([], sections, event, base, draw), base + |sections|)
  {
    hide *;
    if sections == [] {
      NothingStored(event, base, draw);
    } else {
      var last := |sections| - 1;
      StoredSectionsDiffer(sections[..last], event, base, draw);
      OneMoreStored(sections, event, base, draw);
      NewSectionIs(sections[last], event, base + last, draw);
      var before := NewSections([], sections[..last], event, base, draw);
      if HasSection(before, sections[last].name) {
        IncreasingBelow(before, base + last, base + |sections|);
      } else {
        IncreasingGrows(before, NewSection(sections[last], event, base + last, draw), base + last);
      }
    }
  }

  lemma StoredTablesHang(inputs: seq<SectionInput>, event: EventId, next: Id, draw: Drawings)
    ensures var rows := StoredTables(inputs, event, next, draw);
      && (forall k | 0 <= k < |rows| :: rows[k].id == next + |inputs| + k)
      && |rows| == |TablesOf(inputs)|
      && (forall t | t in rows :: t.sectionId in SectionIds(StoredSections(inputs, event, next, draw)) && t.sectionId >= next)
  {
    hide StoredTables, StoredSections, SectionOf, TablesOf;
    SectionsStored(inputs, event, next, draw);
    TablesStored(inputs, event, next, draw);
    var tables, rows := TablesOf(inputs), StoredTables(inputs, event, next, draw);
    forall k | 0 <= k < |rows|
      ensures rows[k].sectionId in SectionIds(StoredSections(inputs, event, next, draw)) && rows[k].sectionId >= next
    {
      assert SectionOf(inputs, event, next, draw)[tables[k].sectionId] in StoredSections(inputs, event, next, draw);
    }
  }

  /** The table that a table id leads to is a stored one. */
  lemma FoundIsStored(inputs: seq<SectionInput>, event: EventId, next: Id, draw: Drawings, id: string)
    requires InTables(TablesOf(inputs), id)
    ensures id in TableOfInput(inputs, event, next, draw)
    ensures TableOfInput(inputs, event, next, draw)[id] in StoredTables(inputs, event, next, draw)
  {
    hide StoredTables, TableOfInput, TablesOf, FirstTable;
    TablesStored(inputs, event, next, draw);
    TablesFound(inputs, event, next, draw);
    var tables, rows := TablesOf(inputs), StoredTables(inputs, event, next, draw);
    var k :| 0 <= k < |tables| && tables[k].id == id;
    assert HasTable(rows, tables[k].name);
  }

  lemma StoredSeatsHang(inputs: seq<SectionInput>, event: EventId, next: Id, draw: Drawings)
    ensures var rows := StoredSeats(inputs, event, next, draw);
      && |rows| == |AllSeats(inputs)|
      && (forall m | 0 <= m < |rows| :: rows[m].id == next + |inputs| + |TablesOf(inputs)| + m)
      && (forall s | s in rows :: s.sectionId in SectionIds(StoredSections(inputs, event, next, draw))
                                  && s.tableId.Some? && s.tableId.value in TableIds(StoredTables(inputs, event, next, draw)))
  {
    hide StoredTables, StoredSections, StoredSeats, TableOfInput, TablesOf, SeatsOf;
    TablesAreIndexed(inputs);
    SeatsHaveTables(inputs, TablesOf(inputs));
    SeatsStored(inputs, event, next, draw);
    StoredTablesHang(inputs, event, next, draw);
    var seats, rows := AllSeats(inputs), StoredSeats(inputs, event, next, draw);
    forall m | 0 <= m < |rows|
      ensures rows[m].sectionId in SectionIds(StoredSections(inputs, event, next, draw))
      ensures rows[m].tableId.Some? && rows[m].tableId.value in TableIds(StoredTables(inputs, event, next, draw))
    {
      assert InTables(TablesOf(inputs), seats[m].tableId);
      FoundIsStored(inputs, event, next, draw, seats[m].tableId);
    }
  }

  lemma StoredTypes(inputs: seq<SectionInput>, event: EventId, next: Id, draw: Drawings)
    requires ShapesFit(StoredSeats(inputs, event, next, draw))
    ensures Typed(Stored(inputs, event, next, draw))
  {
    hide StoredTables, StoredSections, StoredSeats, TableOfInput, TablesOf, AllSeats;
    SeatsStored(inputs, event, next, draw);
    assert "AVAILABLE" in STATUSES && "STANDARD" in SEAT_TYPES;
  }

  /** The generated rows are valid by themselves unless two tables of one section share a name or a shape is unknown. */
  lemma StoredIsValid(inputs: seq<SectionInput>, event: EventId, next: Id, draw: Drawings)
    requires TablesFit(StoredTables(inputs, event, next, draw)) && ShapesFit(StoredSeats(inputs, event, next, draw))
    ensures Valid(Stored(inputs, event, next, draw), NextAfter(inputs, next))
  {
    StoredSectionsDiffer(SectionsOf(inputs), event, next, draw);
    hide StoredTables, StoredSeats, TableOfInput, TablesOf, AllSeats, NewSections, SectionsOf, SectionOf, Typed, ShapesFit;
    SectionsStored(inputs, event, next, draw);
    StoredTablesHang(inputs, event, next, draw);
    StoredSeatsHang(inputs, event, next, draw);
    StoredTypes(inputs, event, next, draw);
  }

  lemma GeneratedFits(l: Layout, event: EventId, inputs: seq<SectionInput>, next: Id, draw: Drawings)
    requires Valid(l, next)
    ensures TablesFit(Wiped(l, event).tables + StoredTables(inputs, event, next, draw)) <==> TablesFit(StoredTables(inputs, event, next, draw))
  {
    hide StoredTables, StoredSections, TablesOf, Wiped, Valid, TablesFit;
    WipedIsValid(l, event, next);
    StoredTablesHang(inputs, event, next, draw);
    FitsBeside(Wiped(l, event), StoredTables(inputs, event, next, draw), next);
  }

  lemma FitsBeside(kept: Layout, added: seq<Table>, next: Id)
    requires Valid(kept, next) && forall t | t in added :: t.sectionId >= next
    ensures TablesFit(kept.tables + added) <==> TablesFit(added)
  {
    var all, n := kept.tables + added, |kept.tables|;
    assert forall i | 0 <= i < |added| :: all[n + i] == added[i];
    if TablesFit(added) {
      forall i, j | 0 <= i < j < |all|
        ensures all[i].sectionId != all[j].sectionId || all[i].name != all[j].name
      {
        if i < n <= j {
          assert kept.tables[i] in kept.tables && added[j - n] in added;
        } else if n <= i {
          assert all[i] == added[i - n] && all[j] == added[j - n];
        }
      }
    }
  }

  /** Whatever is generated, every constraint holds afterwards. */
  lemma GenerateKeepsValid(l: Layout, event: EventId, inputs: seq<SectionInput>, next: Id, draw: Drawings)
    requires Valid(l, next) && Generated(l, event, inputs, next, draw).Some?
    ensures var (after, newNext) := Generated(l, event, inputs, next, draw).value; Valid(after, newNext)
  {
    hide *;
    GeneratedIs(l, event, inputs, next, draw);
    GeneratedFits(l, event, inputs, next, draw);
    StoredIsValid(inputs, event, next, draw);
    WipedIsValid(l, event, next);
    StoredBounds(inputs, event, next, draw);
    JoinedIsValid(Wiped(l, event), Stored(inputs, event, next, draw), next, NextAfter(inputs, next));
  }

  lemma StoredBounds(inputs: seq<SectionInput>, event: EventId, next: Id, draw: Drawings)
    ensures var b := Stored(inputs, event, next, draw);
      && (forall s | s in b.sections :: s.id >= next && s.event == event) && (forall t | t in b.tables :: t.id >= next && t.sectionId >= next)
      && (forall s | s in b.seats :: s.id >= next) && next <= NextAfter(inputs, next)
  {
    hide StoredTables, StoredSections, StoredSeats, TableOfInput, TablesOf, AllSeats;
    SectionsStored(inputs, event, next, draw);
    StoredTablesHang(inputs, event, next, draw);
    StoredSeatsHang(inputs, event, next, draw);
  }

  // ---------------------------------------------------------------- which configurations can be stored

  /** No two tables of sections with one name have the same name. */
  predicate NamesFit(inputs: seq<SectionInput>) {
    forall i, t, j, u |
      0 <= i < |inputs| && 0 <= t < |inputs[i].tables| && 0 <= j < |inputs| && 0 <= u < |inputs[j].tables|
      && (i != j || t != u) && inputs[i].name == inputs[j].name ::
      NameOfTable(inputs[i], t) != NameOfTable(inputs[j], u)
  }

  /** Every place of the configuration has its table in the geometry. */
  lemma {:induction false} PlaceHasTable(inputs: seq<SectionInput>, n: nat, i: nat, t: nat) returns (k: nat)
    requires i < n <= |inputs| && t < |inputs[i].tables|
    ensures k < |TablesOf(inputs[..n])| && TablesOf(inputs[..n])[k] == TableOf(i, inputs[i], t)
  {
    hide TableOf;
    var last := n - 1;
    assert inputs[..n][..last] == inputs[..last];
    if i == last {
      k := |TablesOf(inputs[..last])| + t;
    } else {
      k := PlaceHasTable(inputs, last, i, t);
    }
  }

  lemma SectionIdsDiffer(inputs: seq<SectionInput>)
    ensures forall i, j | 0 <= i < j < |inputs| :: SectionsOf(inputs)[i].id != SectionsOf(inputs)[j].id
  {
    forall i, j | 0 <= i < j < |inputs|
      ensures SectionsOf(inputs)[i].id != SectionsOf(inputs)[j].id
    {
      if SectionsOf(inputs)[i].id == SectionsOf(inputs)[j].id {
        NumberedNamesDiffer("sec_", i, j);
      }
    }
  }

  /** A section of the configuration is stored under its name. */
  lemma SectionKeepsName(inputs: seq<SectionInput>, event: EventId, next: Id, draw: Drawings, i: nat)
    requires i < |inputs|
    ensures SectionId(i) in SectionOf(inputs, event, next, draw)
    ensures SectionOf(inputs, event, next, draw)[SectionId(i)] in StoredSections(inputs, event, next, draw)
    ensures SectionOf(inputs, event, next, draw)[SectionId(i)].name == inputs[i].name
  {
    hide NewSections, SectionsByInput, SectionId, FirstSection;
    var sections, rows := SectionsOf(inputs), StoredSections(inputs, event, next, draw);
    SectionIdsDiffer(inputs);
    SectionsStored(inputs, event, next, draw);
    assert forall k | 0 <= k < |inputs| :: sections[k].name == inputs[k].name && sections[k].id == SectionId(k);
    SectionsAreFoundByName(sections, rows);
    assert HasSection(rows, sections[i].name);
  }

  /** Two sections of the configuration are stored as one exactly when they have one name. */
  lemma SameSectionIff(inputs: seq<SectionInput>, event: EventId, next: Id, draw: Drawings, i: nat, j: nat)
    requires i < |inputs| && j < |inputs|
    ensures SectionId(i) in SectionOf(inputs, event, next, draw) && SectionId(j) in SectionOf(inputs, event, next, draw)
    ensures SectionOf(inputs, event, next, draw)[SectionId(i)].id == SectionOf(inputs, event, next, draw)[SectionId(j)].id
       <==> inputs[i].name == inputs[j].name
  {
    StoredSectionsDiffer(SectionsOf(inputs), event, next, draw);
    hide NewSections, SectionsByInput, SectionId, SectionOf, SectionsOf;
    SectionKeepsName(inputs, event, next, draw, i);
    SectionKeepsName(inputs, event, next, draw, j);
    var rows := StoredSections(inputs, event, next, draw);
    var a :| 0 <= a < |rows| && rows[a] == SectionOf(inputs, event, next, draw)[SectionId(i)];
    var b :| 0 <= b < |rows| && rows[b] == SectionOf(inputs, event, next, draw)[SectionId(j)];
  }

  /** Row `k` stores the table at place `t` of section `i`. */
  ghost predicate StoresPlace(inputs: seq<SectionInput>, event: EventId, next: Id, draw: Drawings, k: nat, i: nat, t: nat)
    requires i < |inputs| && t < |inputs[i].tables|
  {
    && k < |StoredTables(inputs, event, next, draw)| && SectionId(i) in SectionOf(inputs, event, next, draw)
    && StoredTables(inputs, event, next, draw)[k].name == NameOfTable(inputs[i], t)
    && StoredTables(inputs, event, next, draw)[k].sectionId == SectionOf(inputs, event, next, draw)[SectionId(i)].id
  }

  lemma TableAtPlace(inputs: seq<SectionInput>, event: EventId, next: Id, draw: Drawings, k: nat, i: nat, t: nat)
    requires i < |inputs| && t < |inputs[i].tables| && k < |TablesOf(inputs)| && TablesOf(inputs)[k] == TableOf(i, inputs[i], t)
    ensures StoresPlace(inputs, event, next, draw, k, i, t)
  {
    hide StoredTables, SectionOf, TablesOf, TableId, SectionId, NameOfTable, Print;
    TablesStored(inputs, event, next, draw);
  }

  lemma PlacesFit(inputs: seq<SectionInput>, event: EventId, next: Id, draw: Drawings, a: nat, b: nat, i: nat, t: nat, j: nat, u: nat)
    requires NamesFit(inputs) && i < |inputs| && t < |inputs[i].tables| && j < |inputs| && u < |inputs[j].tables|
    requires StoresPlace(inputs, event, next, draw, a, i, t) && StoresPlace(inputs, event, next, draw, b, j, u) && (i != j || t != u)
    ensures var rows := StoredTables(inputs, event, next, draw); rows[a].sectionId != rows[b].sectionId || rows[a].name != rows[b].name
  {
    hide StoredTables, SectionOf, SectionId, NameOfTable;
    SameSectionIff(inputs, event, next, draw, i, j);
  }

  lemma FittingNamesFit(inputs: seq<SectionInput>, event: EventId, next: Id, draw: Drawings)
    requires NamesFit(inputs)
    ensures TablesFit(StoredTables(inputs, event, next, draw))
  {
    hide StoredTables, SectionOf, TablesOf, SectionId, NameOfTable, NamesFit, StoresPlace;
    assert inputs[..|inputs|] == inputs;
    TablesHavePlaces(inputs, |inputs|);
    TablesDiffer(inputs, |inputs|);
    var tables, rows := TablesOf(inputs), StoredTables(inputs, event, next, draw);
    StoredTablesHang(inputs, event, next, draw);
    forall a, b | 0 <= a < b < |rows|
      ensures rows[a].sectionId != rows[b].sectionId || rows[a].name != rows[b].name
    {
      assert HasPlace(inputs, |inputs|, tables[a]) && HasPlace(inputs, |inputs|, tables[b]);
      var i: nat, t: nat :| i < |inputs| && t < |inputs[i].tables| && tables[a] == TableOf(i, inputs[i], t);
      var j: nat, u: nat :| j < |inputs| && u < |inputs[j].tables| && tables[b] == TableOf(j, inputs[j], u);
      TableAtPlace(inputs, event, next, draw, a, i, t);
      TableAtPlace(inputs, event, next, draw, b, j, u);
      PlacesFit(inputs, event, next, draw, a, b, i, t, j, u);
    }
  }

  lemma NamesOfFitting(inputs: seq<SectionInput>, event: EventId, next: Id, draw: Drawings, i: nat, t: nat, j: nat, u: nat)
    requires TablesFit(StoredTables(inputs, event, next, draw)) && (i != j || t != u)
    requires i < |inputs| && t < |inputs[i].tables| && j < |inputs| && u < |inputs[j].tables| && inputs[i].name == inputs[j].name
    ensures NameOfTable(inputs[i], t) != NameOfTable(inputs[j], u)
  {
    hide StoredTables, SectionOf, TablesOf, SectionId, NameOfTable, TableId;
    assert inputs[..|inputs|] == inputs;
    var a := PlaceHasTable(inputs, |inputs|, i, t);
    var b := PlaceHasTable(inputs, |inputs|, j, u);
    TableIdsDiffer(i, t, j, u);
    TableAtPlace(inputs, event, next, draw, a, i, t);
    TableAtPlace(inputs, event, next, draw, b, j, u);
    SameSectionIff(inputs, event, next, draw, i, j);
    assert a < b || b < a;
  }

  /** Every table that has seats gives them a shape of the enum. */
  predicate SeatShapesFit(inputs: seq<SectionInput>) {
    forall i, t | 0 <= i < |inputs| && 0 <= t < |inputs[i].tables| && inputs[i].tables[t].count > 0 ::
      inputs[i].tables[t].seatShape in SEAT_SHAPES
  }

  predicate GeometryShapesFit(seats: seq<GeometrySeat>) {
    forall seat | seat in seats :: seat.seatShape in SEAT_SHAPES
  }

  lemma {:induction false} ShapesOfTables(inputs: seq<SectionInput>, tables: seq<GeometryTable>)
    requires forall table | table in tables :: Indexed(inputs, table.id)
    ensures GeometryShapesFit(SeatsOf(inputs, tables)) <==> forall table | table in tables :: GeometryShapesFit(SeatsOfTable(inputs, table.id))
  {
    if tables == [] {
    } else {
      var init, last := tables[..|tables| - 1], tables[|tables| - 1];
      assert init + [last] == tables && last in tables;
      ShapesOfTables(inputs, init);
      ShapesOfBoth(SeatsOf(inputs, init), SeatsOfTable(inputs, last.id));
      hide GeometryShapesFit, SeatsOfTable, Indexed;
    }
  }

  lemma ShapesOfBoth(a: seq<GeometrySeat>, b: seq<GeometrySeat>)
    ensures GeometryShapesFit(a + b) <==> GeometryShapesFit(a) && GeometryShapesFit(b)
  {
    if GeometryShapesFit(a + b) {
      assert forall seat | seat in a || seat in b :: seat in a + b;
    }
  }

  lemma ShapesOfPlace(inputs: seq<SectionInput>, i: nat, t: nat)
    requires i < |inputs| && t < |inputs[i].tables|
    ensures Indexed(inputs, TableId(i, t))
    ensures GeometryShapesFit(SeatsOfTable(inputs, TableId(i, t)))
       <==> inputs[i].tables[t].count > 0 ==> inputs[i].tables[t].seatShape in SEAT_SHAPES
  {
    TableIdIndexed(inputs, i, t);
    hide SeatsOfTable, Indexed, TableId, SeatId;
    var seats := SeatsOfTable(inputs, TableId(i, t));
    if inputs[i].tables[t].count > 0 {
      assert seats[0] in seats;
    }
  }

  /** The shapes of all seats fit exactly when those of all tables with seats do. */
  lemma ShapesOfAll(inputs: seq<SectionInput>)
    ensures GeometryShapesFit(AllSeats(inputs)) <==> SeatShapesFit(inputs)
  {
    var tables := TablesOf(inputs);
    TablesAreIndexed(inputs);
    ShapesOfTables(inputs, tables);
    hide GeometryShapesFit, SeatsOfTable, Indexed, TablesOf, TableId, NameOfTable, SectionId;
    assert inputs[..|inputs|] == inputs;
    TablesHavePlaces(inputs, |inputs|);
    if SeatShapesFit(inputs) {
      forall k | 0 <= k < |tables|
        ensures GeometryShapesFit(SeatsOfTable(inputs, tables[k].id))
      {
        var i: nat, t: nat :| i < |inputs| && t < |inputs[i].tables| && tables[k] == TableOf(i, inputs[i], t);
        ShapesOfPlace(inputs, i, t);
      }
    }
    if forall table | table in tables :: GeometryShapesFit(SeatsOfTable(inputs, table.id)) {
      forall i, t | 0 <= i < |inputs| && 0 <= t < |inputs[i].tables| && inputs[i].tables[t].count > 0
        ensures inputs[i].tables[t].seatShape in SEAT_SHAPES
      {
        var k := PlaceHasTable(inputs, |inputs|, i, t);
        assert tables[k] in tables;
        ShapesOfPlace(inputs, i, t);
      }
    }
  }

  lemma StoredShapes(inputs: seq<SectionInput>, event: EventId, next: Id, draw: Drawings)
    ensures ShapesFit(StoredSeats(inputs, event, next, draw)) <==> GeometryShapesFit(AllSeats(inputs))
  {
    hide StoredSeats, TableOfInput, AllSeats, SEAT_SHAPES;
    SeatsStored(inputs, event, next, draw);
    var seats, rows := AllSeats(inputs), StoredSeats(inputs, event, next, draw);
    assert forall m | 0 <= m < |rows| :: rows[m] in rows && seats[m] in seats;
  }

  /**
   Generating succeeds exactly when no two tables get one name within one section, sections of one name being one, and the
   seats get shapes of the enum. Otherwise the event is left without any rows.
   */
  lemma GeneratedIff(l: Layout, event: EventId, inputs: seq<SectionInput>, next: Id, draw: Drawings)
    requires Valid(l, next)
    ensures Generated(l, event, inputs, next, draw).Some? <==> NamesFit(inputs) && SeatShapesFit(inputs)
  {
    hide Generated, Valid, SeatShapesFit, ShapesFit, GeometryShapesFit;
    GeneratedIs(l, event, inputs, next, draw);
    GeneratedFits(l, event, inputs, next, draw);
    ShapesOfAll(inputs);
    StoredShapes(inputs, event, next, draw);
    NamesFitIff(inputs, event, next, draw);
  }

  /** The stored tables keep to the unique name within their sections exactly when the configuration's names fit. */
  lemma NamesFitIff(inputs: seq<SectionInput>, event: EventId, next: Id, draw: Drawings)
    ensures TablesFit(StoredTables(inputs, event, next, draw)) <==> NamesFit(inputs)
  {
    hide StoredTables, NameOfTable, TablesFit;
    if NamesFit(inputs) {
      FittingNamesFit(inputs, event, next, draw);
    }
    if TablesFit(StoredTables(inputs, event, next, draw)) {
      forall i, t, j, u |
        0 <= i < |inputs| && 0 <= t < |inputs[i].tables| && 0 <= j < |inputs| && 0 <= u < |inputs[j].tables|
        && (i != j || t != u) && inputs[i].name == inputs[j].name
        ensures NameOfTable(inputs[i], t) != NameOfTable(inputs[j], u)
      {
        NamesOfFitting(inputs, event, next, draw, i, t, j, u);
      }
    }
  }

  /** Two tables of one name in a section: nothing is generated. */
  lemma RepeatedTableFails(l: Layout, event: EventId, next: Id, draw: Drawings, name: string)
    requires Valid(l, next)
    ensures Generated(l, event, [SectionInput("Hall", [TableInput(Some(name), 1, "CIRCLE"), TableInput(Some(name), 1, "CIRCLE")])], next, draw).None?
  {
    hide Generated, Valid;
    var inputs := [SectionInput("Hall", [TableInput(Some(name), 1, "CIRCLE"), TableInput(Some(name), 1, "CIRCLE")])];
    GeneratedIff(l, event, inputs, next, draw);
    assert NameOfTable(inputs[0], 0) == NameOfTable(inputs[0], 1);
  }

  /** The engine knows a "grid" of seats, the column does not: nothing is generated. */
  lemma GridOfSeatsFails(l: Layout, event: EventId, next: Id, draw: Drawings, name: string)
    requires Valid(l, next)
    ensures var inputs := [SectionInput("Hall", [TableInput(Some(name), 1, "grid")])];
      NamesFit(inputs) && Generated(l, event, inputs, next, draw).None?
  {
    hide Generated, Valid;
    var inputs := [SectionInput("Hall", [TableInput(Some(name), 1, "grid")])];
    GeneratedIff(l, event, inputs, next, draw);
    assert inputs[0].tables[0].count > 0;
  }

  /** The configuration of two sections with one table and one seat each, the tables of one name. */
  function SameTableTwice(name: string): seq<SectionInput> {
    [SectionInput("Hall", [TableInput(Some(name), 1, "CIRCLE")]), SectionInput("Bar", [TableInput(Some(name), 1, "CIRCLE")])]
  }

  lemma SameTableTwiceIs(name: string)
    ensures var inputs := SameTableTwice(name);
      && NamesFit(inputs) && SeatShapesFit(inputs) && |TablesOf(inputs)| == 2 && TablesOf(inputs)[0].name == TablesOf(inputs)[1].name == name
      && |AllSeats(inputs)| == 2 && AllSeats(inputs)[0].tableId == TablesOf(inputs)[0].id && AllSeats(inputs)[1].tableId == TablesOf(inputs)[1].id
  {
    hide TableId, SectionId, Print, Indexed, SeatsOfTable;
    var inputs := SameTableTwice(name);
    assert inputs[..2] == inputs && inputs[..2][..1] == inputs[..1] && inputs[..1][..0] == [];
    TableIdIndexed(inputs, 0, 0);
    TableIdIndexed(inputs, 1, 0);
    var first, second := TableOf(0, inputs[0], 0), TableOf(1, inputs[1], 0);
    assert TablesOf(inputs[..1]) == [] + TablesOfSection(0, inputs[0]) == [first];
    assert TablesOf(inputs) == [first] + TablesOfSection(1, inputs[1]) == [first, second];
    assert [first, second][..1] == [first] && [first][..0] == [];
    TablesAreIndexed(inputs);
    assert SeatsOf(inputs, [first]) == [] + SeatsOfTable(inputs, first.id);
    assert SeatsOf(inputs, [first, second]) == SeatsOf(inputs, [first]) + SeatsOfTable(inputs, second.id);
    assert "Hall"[0] != "Bar"[0];
  }

  /** There, both tables are stored, and both seats land on the first. */
  lemma SecondTableStaysEmpty(l: Layout, event: EventId, next: Id, draw: Drawings, name: string)
    requires Valid(l, next)
    ensures var after := Generated(l, event, SameTableTwice(name), next, draw);
      && after.Some?
      && var rows := Of(after.value.0, event);
      && |rows.tables| == 2 && |rows.seats| == 2 && rows.tables[0].id != rows.tables[1].id
      && rows.seats[0].tableId == rows.seats[1].tableId == Some(rows.tables[0].id)
  {
    hide *;
    var inputs := SameTableTwice(name);
    SameTableTwiceIs(name);
    GeneratedIff(l, event, inputs, next, draw);
    var i := SeatLandsOnFirst(l, event, inputs, next, draw, 0, 0);
    var j := SeatLandsOnFirst(l, event, inputs, next, draw, 1, 1);
  }

  // ---------------------------------------------------------------- the layout generated for a number of seats

  /** Table `k` of the plan, as the geometry has it. */
  function PlanTable(n: int, k: nat): GeometryTable {
    GeometryTable(TableId(k / TABLES_PER_SECTION, k % TABLES_PER_SECTION), SectionId(k / TABLES_PER_SECTION), "Table " + Print(k + 1),
                  k % TABLES_PER_SECTION + 1, Min(SEATS_PER_TABLE, n - SEATS_PER_TABLE * k))
  }

  lemma PlanTableAt(n: int, s: nat, t: nat)
    requires s < TotalSections(n) && t < TablesIn(n, s)
    ensures t < |Plan(n)[s].tables| && TableOf(s, Plan(n)[s], t) == PlanTable(n, TABLES_PER_SECTION * s + t)
  {
    hide TableId, SectionId, Print;
    var k := TABLES_PER_SECTION * s + t;
    assert k / TABLES_PER_SECTION == s && k % TABLES_PER_SECTION == t;
  }

  lemma PlanCounts(n: int, s: nat)
    requires s < TotalSections(n)
    ensures Min(TABLES_PER_SECTION * s, TotalTables(n)) == TABLES_PER_SECTION * s
    ensures TABLES_PER_SECTION * s + TablesIn(n, s) == Min(TABLES_PER_SECTION * (s + 1), TotalTables(n))
  {
  }

  lemma {:induction false} PlanTables(n: int, s: nat)
    requires s <= TotalSections(n)
    ensures |TablesOf(Plan(n)[..s])| == Min(TABLES_PER_SECTION * s, TotalTables(n))
    ensures forall k | 0 <= k < |TablesOf(Plan(n)[..s])| :: TablesOf(Plan(n)[..s])[k] == PlanTable(n, k)
  {
    if s > 0 {
      hide PlanTable, TableOf, TotalTables, TotalSections, TablesIn, Min;
      var last := s - 1;
      PlanTables(n, last);
      PlanCounts(n, last);
      assert Plan(n)[..s][..last] == Plan(n)[..last];
      var before, added := TablesOf(Plan(n)[..last]), TablesOfSection(last, Plan(n)[last]);
      var tables := TablesOf(Plan(n)[..s]);
      assert tables == before + added;
      hide TablesOf;
      forall k | 0 <= k < |tables|
        ensures tables[k] == PlanTable(n, k)
      {
        if k >= |before| {
          PlanTableAt(n, last, k - |before|);
        }
      }
    }
  }

  lemma PlanTableSeats(n: int, k: nat)
    requires k < TotalTables(n)
    ensures Indexed(Plan(n), PlanTable(n, k).id)
    ensures var seats := SeatsOfTable(Plan(n), PlanTable(n, k).id);
      && |seats| == Min(SEATS_PER_TABLE, n - SEATS_PER_TABLE * k) > 0
      && forall s | 0 <= s < |seats| ::
        seats[s].tableId == PlanTable(n, k).id && seats[s].number == s + 1 && seats[s].status == "AVAILABLE" && seats[s].seatShape == PLANNED_SHAPE
  {
    hide TableId, SectionId, Print, SeatsOfTable, Indexed, SeatId, Plan;
    TablesWhileSeatsRemain(n, k);
    var i, t := k / TABLES_PER_SECTION, k % TABLES_PER_SECTION;
    assert i < TotalSections(n) && t < TablesIn(n, i) && TABLES_PER_SECTION * i + t == k;
    PlanTableAt(n, i, t);
    PlanShapes(n, i);
    TableIdIndexed(Plan(n), i, t);
  }

  /** Seat `m` of the plan: on table `m` / 10, numbered from one at each table, available. */
  predicate PlannedSeat(n: int, m: nat, seat: GeometrySeat) {
    && seat.tableId == PlanTable(n, m / SEATS_PER_TABLE).id
    && seat.number == m % SEATS_PER_TABLE + 1 && seat.status == "AVAILABLE" && seat.seatShape == PLANNED_SHAPE
  }

  lemma PlannedSeatAt(n: int, k: nat, s: nat, seat: GeometrySeat)
    requires s < SEATS_PER_TABLE && seat.tableId == PlanTable(n, k).id && seat.number == s + 1
    requires seat.status == "AVAILABLE" && seat.seatShape == PLANNED_SHAPE
    ensures PlannedSeat(n, SEATS_PER_TABLE * k + s, seat)
  {
    hide PlanTable;
    var m := SEATS_PER_TABLE * k + s;
    assert m / SEATS_PER_TABLE == k && m % SEATS_PER_TABLE == s;
  }

  lemma PlannedSeatsGrow(n: int, last: nat, before: seq<GeometrySeat>, added: seq<GeometrySeat>)
    requires |before| == SEATS_PER_TABLE * last && forall m | 0 <= m < |before| :: PlannedSeat(n, m, before[m])
    requires |added| <= SEATS_PER_TABLE
    requires forall s | 0 <= s < |added| :: added[s].tableId == PlanTable(n, last).id && added[s].number == s + 1
    requires forall s | 0 <= s < |added| :: added[s].status == "AVAILABLE" && added[s].seatShape == PLANNED_SHAPE
    ensures forall m | 0 <= m < |before + added| :: PlannedSeat(n, m, (before + added)[m])
  {
    hide PlanTable, PlannedSeat;
    forall m | 0 <= m < |before + added|
      ensures PlannedSeat(n, m, (before + added)[m])
    {
      if m >= |before| {
        PlannedSeatAt(n, last, m - |before|, added[m - |before|]);
      }
    }
  }

  lemma OneMoreTable(inputs: seq<SectionInput>, tables: seq<GeometryTable>, k: nat)
    requires k < |tables| && forall table | table in tables :: Indexed(inputs, table.id)
    ensures SeatsOf(inputs, tables[..k + 1]) == SeatsOf(inputs, tables[..k]) + SeatsOfTable(inputs, tables[k].id)
  {
    assert tables[..k + 1][..k] == tables[..k];
  }

  /** The seats of the first `k` tables are the first seats of the plan. */
  lemma {:induction false} PlanSeats(n: int, tables: seq<GeometryTable>, k: nat)
    requires k <= |tables| == TotalTables(n) && forall j | 0 <= j < |tables| :: tables[j] == PlanTable(n, j)
    requires forall table | table in tables :: Indexed(Plan(n), table.id)
    ensures |SeatsOf(Plan(n), tables[..k])| == Min(SEATS_PER_TABLE * k, Max(0, n))
    ensures forall m | 0 <= m < |SeatsOf(Plan(n), tables[..k])| :: PlannedSeat(n, m, SeatsOf(Plan(n), tables[..k])[m])
  {
    hide PlanTable, SeatsOfTable, Plan, Indexed, PlannedSeat, TotalTables;
    if k > 0 {
      var last := k - 1;
      PlanSeats(n, tables, last);
      PlanTableSeats(n, last);
      TablesWhileSeatsRemain(n, last);
      OneMoreTable(Plan(n), tables, last);
      hide SeatsOf;
      PlannedSeatsGrow(n, last, SeatsOf(Plan(n), tables[..last]), SeatsOfTable(Plan(n), tables[last].id));
    }
  }

  lemma NotFound(rows: seq<Section>, name: string)
    requires forall k | 0 <= k < |rows| :: rows[k].name != name
    ensures FirstSection(rows, name).None?
  {
  }

  predicate StoredInOrder(sections: seq<GeometrySection>, rows: seq<Section>, event: EventId, base: Id, draw: Drawings) {
    |rows| == |sections| && forall k | 0 <= k < |rows| :: rows[k] == NewSection(sections[k], event, base + k, draw)
  }

  lemma OneMoreInOrder(sections: seq<GeometrySection>, before: seq<Section>, event: EventId, base: Id, draw: Drawings)
    requires sections != [] && StoredInOrder(sections[..|sections| - 1], before, event, base, draw)
    requires forall i, j | 0 <= i < j < |sections| :: sections[i].name != sections[j].name
    ensures FirstSection(before, sections[|sections| - 1].name).None?
    ensures StoredInOrder(sections, before + [NewSection(sections[|sections| - 1], event, base + |sections| - 1, draw)], event, base, draw)
  {
    hide FirstSection;
    var last := |sections| - 1;
    forall k | 0 <= k < last
      ensures before[k].name != sections[last].name
    {
      assert before[k] == NewSection(sections[..last][k], event, base + k, draw);
    }
    NotFound(before, sections[last].name);
  }

  lemma {:induction false} DistinctSectionsAreStored(sections: seq<GeometrySection>, event: EventId, base: Id, draw: Drawings)
    requires forall i, j | 0 <= i < j < |sections| :: sections[i].name != sections[j].name
    ensures StoredInOrder(sections, NewSections([], sections, event, base, draw), event, base, draw)
  {
    if sections != [] {
      var last := |sections| - 1;
      DistinctSectionsAreStored(sections[..last], event, base, draw);
      assert FirstSection([], sections[last].name).None?;
      hide StoredInOrder, FirstSection, NewSection;
      var before := NewSections([], sections[..last], event, base, draw);
      OneMoreInOrder(sections, before, event, base, draw);
    }
  }

  lemma PlanSectionsAt(n: int)
    ensures var sections := SectionsOf(Plan(n));
      && |sections| == TotalSections(n)
      && (forall s | 0 <= s < |sections| :: sections[s] == GeometrySection(SectionId(s), "Section " + Print(s + 1), s + 1))
      && (forall i, j | 0 <= i < j < |sections| :: sections[i].name != sections[j].name && sections[i].id != sections[j].id)
  {
    var sections := SectionsOf(Plan(n));
    forall i, j | 0 <= i < j < |sections|
      ensures sections[i].name != sections[j].name && sections[i].id != sections[j].id
    {
      if sections[i].name == sections[j].name {
        NumberedNamesDiffer("Section ", i + 1, j + 1);
      }
      if sections[i].id == sections[j].id {
        NumberedNamesDiffer("sec_", i, j);
      }
    }
  }

  /** The plan's sections are stored one by one, and each is found again under its id. */
  lemma PlanSectionsStored(n: int, event: EventId, next: Id, draw: Drawings)
    ensures var rows := StoredSections(Plan(n), event, next, draw);
      && |rows| == TotalSections(n)
      && forall s | 0 <= s < |rows| ::
        rows[s].id == next + s && rows[s].name == "Section " + Print(s + 1)
        && SectionId(s) in SectionOf(Plan(n), event, next, draw) && SectionOf(Plan(n), event, next, draw)[SectionId(s)] == rows[s]
  {
    hide SectionsOf, SectionId, Plan, NewSections, SectionsByInput, FirstSection;
    var sections := SectionsOf(Plan(n));
    PlanSectionsAt(n);
    DistinctSectionsAreStored(sections, event, next, draw);
    var rows := StoredSections(Plan(n), event, next, draw);
    forall s | 0 <= s < |rows|
      ensures HasSection(rows, sections[s].name) && FirstSection(rows, sections[s].name) == Some(s)
    {
      FoundAt(rows, s);
    }
    SectionsAreFoundByName(sections, rows);
  }

  lemma FoundAt(rows: seq<Section>, s: nat)
    requires s < |rows| && forall i, j | 0 <= i < j < |rows| :: rows[i].name != rows[j].name
    ensures FirstSection(rows, rows[s].name) == Some(s)
  {
  }

  lemma PlanTableNames(n: int, i: nat, j: nat)
    requires i != j
    ensures PlanTable(n, i).name != PlanTable(n, j).name
  {
    hide TableId, SectionId, Print, Min;
    if PlanTable(n, i).name == PlanTable(n, j).name {
      NumberedNamesDiffer("Table ", i + 1, j + 1);
    }
  }

  lemma TableFoundAt(rows: seq<Table>, k: nat)
    requires k < |rows| && forall i, j | 0 <= i < j < |rows| :: rows[i].name != rows[j].name
    ensures FirstTable(rows, rows[k].name) == Some(k)
  {
  }

  lemma AllPlanTables(n: int)
    ensures |TablesOf(Plan(n))| == TotalTables(n) && forall k | 0 <= k < |TablesOf(Plan(n))| :: TablesOf(Plan(n))[k] == PlanTable(n, k)
  {
    hide PlanTable;
    PlanTables(n, TotalSections(n));
    assert Plan(n)[..TotalSections(n)] == Plan(n);
  }

  /** Table `k` of the plan, as it is stored and found again. */
  predicate PlanTableIsStored(n: int, event: EventId, next: Id, draw: Drawings, k: nat)
    requires k < |StoredTables(Plan(n), event, next, draw)|
  {
    var row, sections := StoredTables(Plan(n), event, next, draw)[k], StoredSections(Plan(n), event, next, draw);
    && k / TABLES_PER_SECTION < |sections| && row.sectionId == sections[k / TABLES_PER_SECTION].id >= next
    && row.name == PlanTable(n, k).name && row.capacity == Some(PlanTable(n, k).capacity)
  }

  lemma PlanTableRow(n: int, event: EventId, next: Id, draw: Drawings, k: nat)
    requires k < TotalTables(n)
    ensures k < |StoredTables(Plan(n), event, next, draw)| == TotalTables(n) && PlanTableIsStored(n, event, next, draw, k)
  {
    AllPlanTables(n);
    TablesStored(Plan(n), event, next, draw);
    PlanSectionsStored(n, event, next, draw);
    PlanTableSection(n, k);
    hide StoredTables, StoredSections, Plan, PlanTable, TablesOf, SectionOf, TotalTables, TotalSections, SectionId, NewTable;
    NewTableIs(PlanTable(n, k), event, next + |Plan(n)| + k, SectionOf(Plan(n), event, next, draw)[PlanTable(n, k).sectionId].id, draw);
  }

  /** The plan's tables are stored in order, each in its section, and each is found again under its id. */
  lemma PlanTablesStored(n: int, event: EventId, next: Id, draw: Drawings)
    ensures var rows, tableOf := StoredTables(Plan(n), event, next, draw), TableOfInput(Plan(n), event, next, draw);
      && |rows| == TotalTables(n)
      && (forall i, j | 0 <= i < j < |rows| :: rows[i].name != rows[j].name)
      && (forall k | 0 <= k < |rows| :: PlanTableIsStored(n, event, next, draw, k))
      && (forall k | 0 <= k < |rows| :: PlanTable(n, k).id in tableOf && tableOf[PlanTable(n, k).id] == rows[k])
  {
    AllPlanTables(n);
    TablesStored(Plan(n), event, next, draw);
    TablesFound(Plan(n), event, next, draw);
    hide StoredTables, StoredSections, Plan, PlanTable, TablesOf, SectionOf, TotalTables, TotalSections, TableOfInput, FirstTable, NewTable;
    var rows := StoredTables(Plan(n), event, next, draw);
    forall k | 0 <= k < |rows|
      ensures PlanTableIsStored(n, event, next, draw, k)
    {
      PlanTableRow(n, event, next, draw, k);
    }
    forall i, j | 0 <= i < j < |rows|
      ensures rows[i].name != rows[j].name
    {
      assert PlanTableIsStored(n, event, next, draw, i) && PlanTableIsStored(n, event, next, draw, j);
      PlanTableNames(n, i, j);
    }
    forall k | 0 <= k < |rows|
      ensures PlanTable(n, k).id in TableOfInput(Plan(n), event, next, draw)
      ensures TableOfInput(Plan(n), event, next, draw)[PlanTable(n, k).id] == rows[k]
    {
      assert PlanTableIsStored(n, event, next, draw, k);
      TableFoundAt(rows, k);
    }
  }

  lemma NewTableIs(tbl: GeometryTable, event: EventId, id: Id, sectionId: Id, draw: Drawings)
    ensures var row := NewTable(tbl, event, id, sectionId, draw);
      row.id == id && row.sectionId == sectionId && row.name == tbl.name && row.capacity == Some(tbl.capacity)
  {
  }

  lemma PlanTableSection(n: int, k: nat)
    requires k < TotalTables(n)
    ensures k / TABLES_PER_SECTION < TotalSections(n) && PlanTable(n, k).sectionId == SectionId(k / TABLES_PER_SECTION)
  {
  }

  lemma PlanShapesFit(n: int)
    ensures SeatShapesFit(Plan(n))
  {
    hide Print, Min, TotalTables, TotalSections;
    assert PLANNED_SHAPE in SEAT_SHAPES;
    forall s | 0 <= s < |Plan(n)|
      ensures forall t | 0 <= t < |Plan(n)[s].tables| :: Plan(n)[s].tables[t].seatShape == PLANNED_SHAPE
    {
      PlanShapes(n, s);
    }
  }

  lemma PlanShapes(n: int, s: nat)
    requires s < TotalSections(n)
    ensures forall t | 0 <= t < |Plan(n)[s].tables| :: Plan(n)[s].tables[t].seatShape == PLANNED_SHAPE
  {
    var section := PlannedSection(n, s);
    assert Plan(n)[s] == section;
    assert forall t | 0 <= t < |section.tables| :: section.tables[t] == PlannedTable(n, TABLES_PER_SECTION * s + t);
  }

  lemma PlanFits(event: EventId, n: int, next: Id, draw: Drawings)
    ensures TablesFit(StoredTables(Plan(n), event, next, draw))
  {
    hide StoredTables, TotalTables, TableOfInput, Plan;
    PlanTablesStored(n, event, next, draw);
  }

  /** What generating for `n` seats leaves for the event. */
  ghost predicate LaidOut(rows: Layout, n: int) {
    && |rows.sections| == TotalSections(n) && |rows.tables| == TotalTables(n) && |rows.seats| == Max(0, n)
    && (forall s | 0 <= s < |rows.sections| :: rows.sections[s].name == "Section " + Print(s + 1))
    && (forall k | 0 <= k < |rows.tables| :: TableLaidOut(rows, n, k))
    && (forall m | 0 <= m < |rows.seats| :: SeatLaidOut(rows, n, m))
  }

  predicate TableLaidOut(rows: Layout, n: int, k: nat)
    requires k < |rows.tables|
  {
    && rows.tables[k].name == "Table " + Print(k + 1)
    && k / TABLES_PER_SECTION < |rows.sections| && rows.tables[k].sectionId == rows.sections[k / TABLES_PER_SECTION].id
    && rows.tables[k].capacity == Some(Min(SEATS_PER_TABLE, n - SEATS_PER_TABLE * k)) && 1 <= rows.tables[k].capacity.value <= SEATS_PER_TABLE
  }

  predicate SeatLaidOut(rows: Layout, n: int, m: nat)
    requires m < |rows.seats|
  {
    var k, seat := m / SEATS_PER_TABLE, rows.seats[m];
    && k < |rows.tables| && seat.tableId == Some(rows.tables[k].id) && seat.sectionId == rows.tables[k].sectionId
    && seat.number == Some(m % SEATS_PER_TABLE + 1) && m % SEATS_PER_TABLE < Min(SEATS_PER_TABLE, n - SEATS_PER_TABLE * k)
    && seat.status == "AVAILABLE" && seat.shape == PLANNED_SHAPE && seat.Blank()
  }

  /**
   Generating for `n` seats always succeeds and ends with exactly `n` of them, all available and free, ten to a table
   and five tables to a section while they last, every seat on the table and section it was planned for.
   */
  lemma MaxSeatsAreLaidOut(l: Layout, event: EventId, n: int, next: Id, draw: Drawings)
    requires Valid(l, next)
    ensures var after := Generated(l, event, Plan(n), next, draw); after.Some? && LaidOut(Of(after.value.0, event), n)
  {
    GeneratedIs(l, event, Plan(n), next, draw);
    GeneratedFits(l, event, Plan(n), next, draw);
    PlanFits(event, n, next, draw);
    hide *;
    PlanShapesFit(n);
    ShapesOfAll(Plan(n));
    StoredShapes(Plan(n), event, next, draw);
    StoredIsLaidOut(event, n, next, draw);
  }

  lemma StoredIsLaidOut(event: EventId, n: int, next: Id, draw: Drawings)
    ensures LaidOut(Layout(StoredSections(Plan(n), event, next, draw), StoredTables(Plan(n), event, next, draw),
                           StoredSeats(Plan(n), event, next, draw)), n)
  {
    hide StoredSections, StoredTables, StoredSeats, TableOfInput, SectionOf, TableLaidOut, SeatLaidOut, Plan, TotalTables, TotalSections, PlanTable;
    hide TablesOf, PlannedSeat, AllSeats;
    var rows := Layout(StoredSections(Plan(n), event, next, draw), StoredTables(Plan(n), event, next, draw), StoredSeats(Plan(n), event, next, draw));
    PlanSectionsStored(n, event, next, draw);
    PlanTablesStored(n, event, next, draw);
    forall k | 0 <= k < |rows.tables|
      ensures TableLaidOut(rows, n, k)
    {
      TableIsLaidOut(event, n, next, draw, rows, k);
    }
    PlanSeatsStored(n, event, next, draw);
    forall m | 0 <= m < |rows.seats|
      ensures SeatLaidOut(rows, n, m)
    {
      SeatIsLaidOut(event, n, next, draw, rows, m);
    }
  }

  lemma TableIsLaidOut(event: EventId, n: int, next: Id, draw: Drawings, rows: Layout, k: nat)
    requires rows.sections == StoredSections(Plan(n), event, next, draw) && rows.tables == StoredTables(Plan(n), event, next, draw)
    requires k < |rows.tables|
    ensures TableLaidOut(rows, n, k)
  {
    hide StoredSections, StoredTables, TableOfInput, Plan;
    PlanTablesStored(n, event, next, draw);
    assert PlanTableIsStored(n, event, next, draw, k);
    TablesWhileSeatsRemain(n, k);
  }

  lemma PlanSeatsStored(n: int, event: EventId, next: Id, draw: Drawings)
    ensures |AllSeats(Plan(n))| == |StoredSeats(Plan(n), event, next, draw)| == Max(0, n)
    ensures forall m | 0 <= m < |AllSeats(Plan(n))| :: PlannedSeat(n, m, AllSeats(Plan(n))[m])
  {
    hide StoredSeats, TableOfInput, Plan, TablesOf, PlanTable, PlannedSeat, SeatsOf;
    AllPlanTables(n);
    var tables := TablesOf(Plan(n));
    TablesAreIndexed(Plan(n));
    PlanSeats(n, tables, |tables|);
    assert tables[..|tables|] == tables;
    SeatsStored(Plan(n), event, next, draw);
  }

  lemma SeatIsLaidOut(event: EventId, n: int, next: Id, draw: Drawings, rows: Layout, m: nat)
    requires rows.tables == StoredTables(Plan(n), event, next, draw) && rows.seats == StoredSeats(Plan(n), event, next, draw)
    requires m < |rows.seats|
    ensures SeatLaidOut(rows, n, m)
  {
    hide StoredTables, StoredSeats, TableOfInput, Plan, TablesOf, PlanTable, AllSeats, StoredSections;
    PlanSeatsStored(n, event, next, draw);
    SeatsStored(Plan(n), event, next, draw);
    PlanTablesStored(n, event, next, draw);
    var k := m / SEATS_PER_TABLE;
    TablesWhileSeatsRemain(n, k);
    assert PlannedSeat(n, m, AllSeats(Plan(n))[m]);
    assert "AVAILABLE" in STATUSES;
  }
}
