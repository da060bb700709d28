/** What writing a geometry stores: rows found again by name, tables and seats linked through them. */
module GeometryRows {
  import opened Results
  import opened Sequences
  import opened Decimal
  import opened MetaDefaults
  import opened LayoutRows
  import opened SeatPlan
  import opened GeometryEngine

  /** How the engine draws the section, table or seat with a given geometry id. */
  datatype Drawing = Drawing(x: real, y: real, rotation: real, width: real, height: real, meta: Json)

  type Drawings = string -> Drawing

  /** The first row with the name, or none. */
  function FirstSection(rows: seq<Section>, name: string): (found: Option<nat>)
    ensures found.Some? ==> found.value < |rows| && rows[found.value].name == name && forall j | 0 <= j < found.value :: rows[j].name != name
    ensures found.None? ==> forall j | 0 <= j < |rows| :: rows[j].name != name
  {
    FirstIndex(rows, (s: Section) => s.name == name)
  }

  function FirstTable(rows: seq<Table>, name: string): (found: Option<nat>)
    ensures found.Some? ==> found.value < |rows| && rows[found.value].name == name && forall j | 0 <= j < found.value :: rows[j].name != name
    ensures found.None? ==> forall j | 0 <= j < |rows| :: rows[j].name != name
  {
    FirstIndex(rows, (t: Table) => t.name == name)
  }

  function NewSection(sec: GeometrySection, event: EventId, id: Id, draw: Drawings): Section {
    var d := draw(sec.id);
    Section(id, event, sec.name, sec.order, d.x, d.y, Some(d.width), Some(d.height), d.meta)
  }

  /** New sections: those whose name the event does not have yet, each name once. */
  function NewSections(existing: seq<Section>, sections: seq<GeometrySection>, event: EventId, base: Id, draw: Drawings): seq<Section> {
    if sections == [] then []
    else
      var last := |sections| - 1;
      var before := NewSections(existing, sections[..last], event, base, draw);
      if FirstSection(existing, sections[last].name).Some? || FirstSection(before, sections[last].name).Some? then before
      else before + [NewSection(sections[last], event, base + last, draw)]
  }

  /** The stored section of each geometry section. */
  function SectionsByInput(sections: seq<GeometrySection>, all: seq<Section>): map<string, Section> {
    if sections == [] then map[]
    else
      var last := |sections| - 1;
      var m := SectionsByInput(sections[..last], all);
      var found := FirstSection(all, sections[last].name);
      if found.Some? then m[sections[last].id := all[found.value]] else m
  }

  function NewTable(tbl: GeometryTable, event: EventId, id: Id, sectionId: Id, draw: Drawings): Table {
    var d := draw(tbl.id);
    Table(id, event, sectionId, tbl.name, tbl.order, d.x, d.y, Some(tbl.capacity), d.meta)
  }

  function NewTables(tables: seq<GeometryTable>, byInput: map<string, Section>, event: EventId, base: Id, draw: Drawings): seq<Table> {
    if tables == [] then []
    else
      var last := |tables| - 1;
      var tbl := tables[last];
      NewTables(tables[..last], byInput, event, base, draw)
      + if tbl.sectionId in byInput then [NewTable(tbl, event, base + last, byInput[tbl.sectionId].id, draw)] else []
  }

  /** The stored table of each geometry table: the first of the event with its name. */
  function TablesByInput(tables: seq<GeometryTable>, all: seq<Table>): map<string, Table> {
    if tables == [] then map[]
    else
      var last := |tables| - 1;
      var m := TablesByInput(tables[..last], all);
      var found := FirstTable(all, tables[last].name);
      if found.Some? then m[tables[last].id := all[found.value]] else m
  }

  /** The name of the section that the geometry puts a table into. */
  function SectionName(tables: seq<GeometryTable>, byInput: map<string, Section>, tableId: string): string {
    if tables == [] then ""
    else if tables[0].id == tableId then (if tables[0].sectionId in byInput then byInput[tables[0].sectionId].name else "")
    else SectionName(tables[1..], byInput, tableId)
  }

  function NewSeat(seat: GeometrySeat, event: EventId, id: Id, table: Table, sectionName: string, draw: Drawings): Seat {
    var d := draw(seat.id);
    Seat(id, event, table.sectionId, Some(table.id), Some(seat.number),
         Some(sectionName + " \U{2022} " + table.name + " \U{2022} Seat " + Print(seat.number)), Some(d.x), Some(d.y), Some(d.rotation),
         Some("STANDARD"), if seat.status in STATUSES then seat.status else "AVAILABLE", None, None, None,
         seat.seatShape, Obj(map["shape" := Str(seat.seatShape)]))
  }

  function NewSeats(seats: seq<GeometrySeat>, geometry: GeometryOutput, byInput: map<string, Section>, tableOf: map<string, Table>,
                    event: EventId, base: Id, draw: Drawings): seq<Seat> {
    if seats == [] then []
    else
      var last := |seats| - 1;
      var seat := seats[last];
      NewSeats(seats[..last], geometry, byInput, tableOf, event, base, draw)
      + if seat.tableId in tableOf
        then [NewSeat(seat, event, base + last, tableOf[seat.tableId], SectionName(geometry.tables, byInput, seat.tableId), draw)]
        else []
  }

  /** Every shape is one that the shape column of the seats takes. */
  predicate ShapesFit(seats: seq<Seat>) {
    forall s | s in seats :: s.shape in SEAT_SHAPES
  }

  /**
   The rows after writing a geometry in one transaction; None when a table name is taken within its section, or the shape of
   a new seat is not one of the enum's.
   */
  function Written(l: Layout, event: EventId, geometry: GeometryOutput, next: Id, draw: Drawings): Option<(Layout, Id)> {
    var existing := Filter(l.sections, (s: Section) => s.event == event);
    var sections := l.sections + NewSections(existing, geometry.sections, event, next, draw);
    var byInput := SectionsByInput(geometry.sections, Filter(sections, (s: Section) => s.event == event));
    var forTables := next + |geometry.sections|;
    var tables := l.tables + NewTables(geometry.tables, byInput, event, forTables, draw);
    var tableOf := TablesByInput(geometry.tables, Filter(tables, (t: Table) => t.event == event));
    var forSeats := forTables + |geometry.tables|;
    var seats := NewSeats(geometry.seats, geometry, byInput, tableOf, event, forSeats, draw);
    if TablesFit(tables) && ShapesFit(seats) then Some((Layout(sections, tables, l.seats + seats), forSeats + |geometry.seats|))
    else None
  }

  lemma TablesAreIndexed(inputs: seq<SectionInput>)
    ensures forall table | table in TablesOf(inputs) :: Indexed(inputs, table.id)
  {
    assert inputs[..|inputs|] == inputs;
    TablesOfIndexed(inputs, |inputs|);
  }

  /** The rows after wiping an event and writing the geometry of a configuration for it. */
  ghost function Generated(l: Layout, event: EventId, inputs: seq<SectionInput>, next: Id, draw: Drawings): Option<(Layout, Id)> {
    TablesAreIndexed(inputs);
    Written(Wiped(l, event), event, GeometryOutput(SectionsOf(inputs), TablesOf(inputs), SeatsOf(inputs, TablesOf(inputs))), next, draw)
  }
}
