/** The rows that generating stores, column by column: what the engine drew, in the places that the names lead to. */
module GeneratedRows {
  import opened Results
  import opened Decimal
  import opened MetaDefaults
  import opened LayoutRows
  import opened SeatPlan
  import opened GeometryEngine
  import opened GeometryRows
  import opened GenerationProperties

  // ---------------------------------------------------------------- sections

  /** The row is the section drawn for place `f`, the first place of the configuration with its name. */
  ghost predicate DrawnFrom(s: Section, sections: seq<GeometrySection>, f: int, event: EventId, draw: Drawings) {
    && 0 <= f < |sections|
    && (forall k | 0 <= k < f :: sections[k].name != sections[f].name)
    && s.event == event && s.name == sections[f].name && s.order == sections[f].order
    && s.x == draw(sections[f].id).x && s.y == draw(sections[f].id).y
    && s.width == Some(draw(sections[f].id).width) && s.height == Some(draw(sections[f].id).height) && s.meta == draw(sections[f].id).meta
  }

  ghost predicate Drawn(s: Section, sections: seq<GeometrySection>, event: EventId, draw: Drawings) {
    exists f :: DrawnFrom(s, sections, f, event, draw)
  }

  ghost predicate AllDrawn(rows: seq<Section>, sections: seq<GeometrySection>, event: EventId, draw: Drawings) {
    forall q | 0 <= q < |rows| :: Drawn(rows[q], sections, event, draw)
  }

  lemma DrawnLonger(s: Section, sections: seq<GeometrySection>, event: EventId, draw: Drawings)
    requires sections != [] && Drawn(s, sections[..|sections| - 1], event, draw)
    ensures Drawn(s, sections, event, draw)
  {
    var f :| DrawnFrom(s, sections[..|sections| - 1], f, event, draw);
    assert DrawnFrom(s, sections, f, event, draw);
  }

  lemma AllDrawnLonger(rows: seq<Section>, sections: seq<GeometrySection>, event: EventId, draw: Drawings)
    requires sections != [] && AllDrawn(rows, sections[..|sections| - 1], event, draw)
    ensures AllDrawn(rows, sections, event, draw)
  {
    hide Drawn;
    forall q | 0 <= q < |rows|
      ensures Drawn(rows[q], sections, event, draw)
    {
      DrawnLonger(rows[q], sections, event, draw);
    }
  }

  lemma AllDrawnAndOne(rows: seq<Section>, s: Section, sections: seq<GeometrySection>, event: EventId, draw: Drawings)
    requires AllDrawn(rows, sections, event, draw) && Drawn(s, sections, event, draw)
    ensures AllDrawn(rows + [s], sections, event, draw)
  {
    hide Drawn;
  }

  lemma NewIsDrawn(sections: seq<GeometrySection>, before: seq<Section>, event: EventId, id: Id, draw: Drawings)
    requires sections != [] && AllStored(sections[..|sections| - 1], before) && !HasSection(before, sections[|sections| - 1].name)
    ensures Drawn(NewSection(sections[|sections| - 1], event, id, draw), sections, event, draw)
  {
    var last := |sections| - 1;
    forall k | 0 <= k < last
      ensures sections[k].name != sections[last].name
    {
      assert HasSection(before, sections[..last][k].name);
    }
    assert DrawnFrom(NewSection(sections[last], event, id, draw), sections, last, event, draw);
  }

  lemma NoneDrawn(event: EventId, base: Id, draw: Drawings)
    ensures AllDrawn(NewSections([], [], event, base, draw), [], event, draw)
  {
  }

  lemma {:induction false} NewSectionsAreDrawn(sections: seq<GeometrySection>, event: EventId, base: Id, draw: Drawings)
    ensures AllDrawn(NewSections([], sections, event, base, draw), sections, event, draw)
  {
    hide *;
    if sections == [] {
      NoneDrawn(event, base, draw);
    } else {
      var last := |sections| - 1;
      var before, s := NewSections([], sections[..last], event, base, draw), NewSection(sections[last], event, base + last, draw);
      OneMoreStored(sections, event, base, draw);
      SectionsAreStored(sections[..last], event, base, draw);
      NewSectionsAreDrawn(sections[..last], event, base, draw);
      AllDrawnLonger(before, sections, event, draw);
      if !HasSection(before, sections[last].name) {
        NewIsDrawn(sections, before, event, base + last, draw);
        AllDrawnAndOne(before, s, sections, event, draw);
      }
    }
  }

  /**
   Every name of the configuration has exactly one section, and it stands and looks as the engine drew the first section of
   the name.
   */
  lemma SectionsAreAsDrawn(l: Layout, event: EventId, inputs: seq<SectionInput>, next: Id, draw: Drawings)
    requires Valid(l, next) && Generated(l, event, inputs, next, draw).Some?
    ensures var rows := Of(Generated(l, event, inputs, next, draw).value.0, event).sections;
      && AllDrawn(rows, SectionsOf(inputs), event, draw)
      && (forall i | 0 <= i < |inputs| :: exists q :: 0 <= q < |rows| && rows[q].name == inputs[i].name)
      && (forall p, q | 0 <= p < q < |rows| :: rows[p].name != rows[q].name)
  {
    hide Valid, Generated, Of, SectionsOf, NewSections, AllDrawn, StoredTables, StoredSeats;
    GeneratedIs(l, event, inputs, next, draw);
    NewSectionsAreDrawn(SectionsOf(inputs), event, next, draw);
    StoredSectionsDiffer(SectionsOf(inputs), event, next, draw);
    SectionsStored(inputs, event, next, draw);
    var rows := StoredSections(inputs, event, next, draw);
    forall i | 0 <= i < |inputs|
      ensures exists q :: 0 <= q < |rows| && rows[q].name == inputs[i].name
    {
      HasSectionIff(rows, inputs[i].name);
    }
  }

  // ---------------------------------------------------------------- tables

  lemma SectionIdsDiffer(i: nat, j: nat)
    requires SectionId(i) == SectionId(j)
    ensures i == j
  {
    NumberedNamesDiffer("sec_", i, j);
  }

  /** The section that a geometry section leads to has its name. */
  lemma SectionByInput(inputs: seq<SectionInput>, event: EventId, next: Id, draw: Drawings, i: nat)
    requires i < |inputs|
    ensures SectionId(i) in SectionOf(inputs, event, next, draw)
    ensures var s := SectionOf(inputs, event, next, draw)[SectionId(i)];
      s.name == inputs[i].name && s in StoredSections(inputs, event, next, draw)
  {
    var sections, rows := SectionsOf(inputs), StoredSections(inputs, event, next, draw);
    SectionsStored(inputs, event, next, draw);
    forall a, b | 0 <= a < b < |sections|
      ensures sections[a].id != sections[b].id
    {
      if sections[a].id == sections[b].id {
        SectionIdsDiffer(a, b);
      }
    }
    hide NewSections, SectionsByInput, SectionId;
    assert sections[i].id == SectionId(i) && sections[i].name == inputs[i].name;
    SectionsAreFoundByName(sections, rows);
  }

  /** The table of the configuration at section `i` is stored as it was drawn, in the section of that name. */
  lemma TablesAreAsDrawn(l: Layout, event: EventId, inputs: seq<SectionInput>, next: Id, draw: Drawings, k: nat, i: nat) returns (q: nat)
    requires Valid(l, next) && Generated(l, event, inputs, next, draw).Some?
    requires k < |TablesOf(inputs)| && i < |inputs| && TablesOf(inputs)[k].sectionId == SectionId(i)
    ensures var rows, tbl := Of(Generated(l, event, inputs, next, draw).value.0, event), TablesOf(inputs)[k];
      && |rows.tables| == |TablesOf(inputs)| && q < |rows.sections| && rows.sections[q].name == inputs[i].name
      && var t, d := rows.tables[k], draw(tbl.id);
      && t.event == event && t.sectionId == rows.sections[q].id && t.name == tbl.name && t.order == tbl.order
      && t.x == d.x && t.y == d.y && t.capacity == Some(tbl.capacity) && t.meta == d.meta
  {
    hide Valid, Generated, Of, TablesOf, SectionOf, StoredSections, StoredTables, StoredSeats, SectionId;
    GeneratedIs(l, event, inputs, next, draw);
    TablesStored(inputs, event, next, draw);
    SectionByInput(inputs, event, next, draw, i);
    var s := SectionOf(inputs, event, next, draw)[SectionId(i)];
    q :| 0 <= q < |StoredSections(inputs, event, next, draw)| && StoredSections(inputs, event, next, draw)[q] == s;
  }

  // ---------------------------------------------------------------- seats

  lemma {:induction false} NameOfSection(tables: seq<GeometryTable>, byInput: map<string, Section>, j: nat)
    requires j < |tables| && tables[j].sectionId in byInput
    requires forall a, b | 0 <= a < b < |tables| :: tables[a].id != tables[b].id
    ensures SectionName(tables, byInput, tables[j].id) == byInput[tables[j].sectionId].name
  {
    if j > 0 {
      NameOfSection(tables[1..], byInput, j - 1);
    }
  }

  /** The seat is stored as it was drawn, and labelled with the names of its section and table and with its number. */
  ghost predicate SeatDrawn(s: Seat, seat: GeometrySeat, section: string, table: string, draw: Drawings) {
    && s.number == Some(seat.number) && s.seatLabel == Some(section + " \U{2022} " + table + " \U{2022} Seat " + Print(seat.number))
    && s.x == Some(draw(seat.id).x) && s.y == Some(draw(seat.id).y) && s.rotation == Some(draw(seat.id).rotation)
    && s.seatType == Some("STANDARD") && s.status == (if seat.status in STATUSES then seat.status else "AVAILABLE")
    && s.guest == None && s.invitation == None && s.note == None
    && s.shape == seat.seatShape && s.meta == Obj(map["shape" := Str(seat.seatShape)])
  }

  lemma NewSeatIsDrawn(seat: GeometrySeat, event: EventId, id: Id, table: Table, section: string, draw: Drawings)
    ensures SeatDrawn(NewSeat(seat, event, id, table, section, draw), seat, section, table.name, draw)
  {
  }

  lemma SeatsAreAsDrawn(l: Layout, event: EventId, inputs: seq<SectionInput>, next: Id, draw: Drawings, m: nat, j: nat, i: nat)
    requires Valid(l, next) && Generated(l, event, inputs, next, draw).Some?
    requires m < |AllSeats(inputs)| && j < |TablesOf(inputs)| && AllSeats(inputs)[m].tableId == TablesOf(inputs)[j].id
    requires i < |inputs| && TablesOf(inputs)[j].sectionId == SectionId(i)
    ensures var rows := Of(Generated(l, event, inputs, next, draw).value.0, event);
      && |rows.seats| == |AllSeats(inputs)| && rows.seats[m].event == event
      && SeatDrawn(rows.seats[m], AllSeats(inputs)[m], inputs[i].name, TablesOf(inputs)[j].name, draw)
  {
    hide *;
    GeneratedIs(l, event, inputs, next, draw);
    StoredSeatIs(inputs, event, next, draw, m, j, i);
    SeatsOfStored(inputs, event, next, draw);
  }

  lemma SeatsOfStored(inputs: seq<SectionInput>, event: EventId, next: Id, draw: Drawings)
    ensures Stored(inputs, event, next, draw).seats == StoredSeats(inputs, event, next, draw)
  {
    hide StoredSections, StoredTables, StoredSeats;
  }

  lemma StoredSeatIs(inputs: seq<SectionInput>, event: EventId, next: Id, draw: Drawings, m: nat, j: nat, i: nat)
    requires m < |AllSeats(inputs)| && j < |TablesOf(inputs)| && AllSeats(inputs)[m].tableId == TablesOf(inputs)[j].id
    requires i < |inputs| && TablesOf(inputs)[j].sectionId == SectionId(i)
    ensures var rows := StoredSeats(inputs, event, next, draw);
      && |rows| == |AllSeats(inputs)| && rows[m].event == event
      && SeatDrawn(rows[m], AllSeats(inputs)[m], inputs[i].name, TablesOf(inputs)[j].name, draw)
  {
    hide TablesOf, SectionsOf, SeatsOf, SectionOf, TableOfInput, NewSeats, SectionName, SectionId, StoredTables, FirstTable, NewSeat, SeatDrawn;
    var seats, tables := AllSeats(inputs), TablesOf(inputs);
    SeatsStored(inputs, event, next, draw);
    SeatsAreStored(seats, GeometryOutput(SectionsOf(inputs), tables, seats), SectionOf(inputs, event, next, draw),
                   TableOfInput(inputs, event, next, draw), event, next + |inputs| + |tables|, draw);
    TablesFound(inputs, event, next, draw);
    SectionByInput(inputs, event, next, draw, i);
    TablesDiffer(inputs, |inputs|);
    assert inputs[..|inputs|] == inputs;
    NameOfSection(tables, SectionOf(inputs, event, next, draw), j);
    var table := TableOfInput(inputs, event, next, draw)[tables[j].id];
    NewSeatIsDrawn(seats[m], event, next + |inputs| + |tables| + m, table, inputs[i].name, draw);
    FoundByName(inputs, event, next, draw, j);
  }

  lemma FoundByName(inputs: seq<SectionInput>, event: EventId, next: Id, draw: Drawings, j: nat)
    requires j < |TablesOf(inputs)|
    ensures TablesOf(inputs)[j].id in TableOfInput(inputs, event, next, draw)
    ensures TableOfInput(inputs, event, next, draw)[TablesOf(inputs)[j].id].name == TablesOf(inputs)[j].name
  {
    hide TablesOf, StoredTables, TableOfInput;
    TablesFound(inputs, event, next, draw);
  }
}
