/** layout-write.service.ts over the rows in place: versions, generation, duplicating and cloning. */
module LayoutWriteService {
  import opened Results
  import opened Sequences
  import opened MetaDefaults
  import opened LayoutRows
  import opened Snapshots
  import opened Restoring
  import opened SeatPlan
  import opened GeometryEngine
  import opened GeometryRows
  import opened Cloning

  datatype Version = Version(event: EventId, version: int, title: Option<string>, data: RawSnapshot)

  predicate VersionTaken(versions: seq<Version>, event: EventId, version: int) {
    exists v | v in versions :: v.event == event && v.version == version
  }

  /** The version that saving an event's layout adds. */
  function Snapshot(rows: Layout, event: EventId, version: int, title: string): Version {
    Version(event, version, Some(title), SerializeCurrentLayout(Of(rows, event)))
  }

  /** The event's version with the greatest number, of those below a bound if there is one. */
  function LatestVersion(versions: seq<Version>, event: EventId, below: Option<int>): Option<Version> {
    if versions == [] then None
    else
      var v, best := versions[|versions| - 1], LatestVersion(versions[..|versions| - 1], event, below);
      if v.event == event && (below.Some? ==> v.version < below.value) && (best.Some? ==> v.version > best.value.version) then Some(v) else best
  }

  /** The event's version with the least number above a bound. */
  function NextVersion(versions: seq<Version>, event: EventId, above: int): Option<Version> {
    if versions == [] then None
    else
      var v, best := versions[|versions| - 1], NextVersion(versions[..|versions| - 1], event, above);
      if v.event == event && v.version > above && (best.Some? ==> v.version < best.value.version) then Some(v) else best
  }

  lemma {:induction false} LatestVersionIs(versions: seq<Version>, event: EventId, below: Option<int>)
    ensures var best := LatestVersion(versions, event, below);
      && (best.Some? ==> best.value in versions && best.value.event == event && (below.Some? ==> best.value.version < below.value))
      && forall v | v in versions && v.event == event && (below.Some? ==> v.version < below.value) ::
        best.Some? && v.version <= best.value.version
  {
    if versions != [] {
      LatestVersionIs(versions[..|versions| - 1], event, below);
    }
  }

  lemma {:induction false} NextVersionIs(versions: seq<Version>, event: EventId, above: int)
    ensures var best := NextVersion(versions, event, above);
      && (best.Some? ==> best.value in versions && best.value.event == event && best.value.version > above)
      && forall v | v in versions && v.event == event && v.version > above :: best.Some? && best.value.version <= v.version
  {
    if versions != [] {
      NextVersionIs(versions[..|versions| - 1], event, above);
    }
  }

  /** The version that undoing restores: the one before the latest. */
  function UndoTarget(versions: seq<Version>, event: EventId): Option<Version> {
    var latest := LatestVersion(versions, event, None);
    if latest.None? then None else LatestVersion(versions, event, Some(latest.value.version))
  }

  /** The version that redoing restores: the one after the latest. */
  function RedoTarget(versions: seq<Version>, event: EventId): Option<Version> {
    var latest := LatestVersion(versions, event, None);
    if latest.None? then None else NextVersion(versions, event, latest.value.version)
  }

  /**
   Undoing always goes back to the version before the latest stored one, also a second time: nothing records where the
   layout is. There is never a version after the latest, so redoing restores nothing.
   */
  lemma UndoHasNoCursor(versions: seq<Version>, event: EventId)
    ensures var target := UndoTarget(versions, event);
      target.Some? ==> target.value in versions && target.value.event == event && exists latest :: (
        && latest in versions && latest.event == event && target.value.version < latest.version
        && forall v | v in versions && v.event == event :: v.version == latest.version || v.version <= target.value.version)
    ensures UndoTarget(versions, event).None? ==> forall v, w | v in versions && w in versions && v.event == event && w.event == event ::
      v.version == w.version
    ensures RedoTarget(versions, event).None?
  {
    hide LatestVersion, NextVersion;
    LatestVersionIs(versions, event, None);
    var latest := LatestVersion(versions, event, None);
    if latest.Some? {
      LatestVersionIs(versions, event, Some(latest.value.version));
      NextVersionIs(versions, event, latest.value.version);
    }
  }

  class LayoutWrites {
    var sections: seq<Section>
    var tables: seq<Table>
    var seats: seq<Seat>
    var versions: seq<Version>
    var nextId: Id

    constructor (l: Layout, versions: seq<Version>, nextId: Id)
      ensures Rows() == l && this.versions == versions && this.nextId == nextId
    {
      sections, tables, seats := l.sections, l.tables, l.seats;
      this.versions, this.nextId := versions, nextId;
    }

    function Rows(): Layout
      reads this
    {
      Layout(sections, tables, seats)
    }

    /** The version number is unique within the event. */
    method SaveLayoutVersion(eventId: EventId, version: int, title: Option<string>) returns (ok: bool)
      modifies this`versions
      ensures ok <==> !VersionTaken(old(versions), eventId, version)
      ensures versions == if ok then old(versions) + [Version(eventId, version, title, SerializeCurrentLayout(Of(Rows(), eventId)))]
                          else old(versions)
    {
      var snapshot := SerializeCurrentLayout(Of(Rows(), eventId));
      if exists v | v in versions :: v.event == eventId && v.version == version {
        return false;
      }
      versions := versions + [Version(eventId, version, title, snapshot)];
      return true;
    }

    /** Delete the event's seats, tables and sections; what hangs below a deleted row goes too. */
    method Wipe(eventId: EventId)
      modifies this`sections, this`tables, this`seats
      ensures Rows() == Wiped(old(Rows()), eventId)
    {
      sections := Filter(sections, (s: Section) => s.event != eventId);
      var sectionIds := SectionIds(sections);
      tables := Filter(tables, (t: Table) => t.event != eventId && t.sectionId in sectionIds);
      var tableIds := TableIds(tables);
      seats := Filter(seats, (s: Seat) => s.event != eventId && s.sectionId in sectionIds
                                          && (s.tableId.Some? ==> s.tableId.value in tableIds));
    }

    method RestoreSections(eventId: EventId, snaps: seq<SectionSnapshot>) returns (ok: bool, sectionMap: map<Id, Id>)
      requires forall s | s in sections :: s.event != eventId
      modifies this`sections
      ensures ok <==> forall i, j | 0 <= i < j < |snaps| :: snaps[i].name != snaps[j].name
      ensures ok ==> sections == old(sections) + RestoredSections(snaps, eventId, nextId) && sectionMap == SectionMap(snaps, nextId)
    {
      hide SectionNameTaken, MetaOrEmpty, SectionMap, RestoredSections;
      ghost var kept := sections;
      NoSections(eventId, nextId);
      sectionMap := map[];
      for k := 0 to |snaps|
        invariant sections == kept + RestoredSections(snaps[..k], eventId, nextId)
        invariant sectionMap == SectionMap(snaps[..k], nextId)
        invariant forall i, j | 0 <= i < j < k :: snaps[i].name != snaps[j].name
      {
        var sec := snaps[k];
        SectionNameTakenByRestored(kept, snaps[..k], eventId, nextId, sec.name);
        if SectionNameTaken(sections, eventId, sec.name) {
          return false, map[];
        }
        OneMoreSection(snaps, k, eventId, nextId);
        sections := sections + [Section(nextId + k, eventId, sec.name, sec.order, sec.x, sec.y, sec.width, sec.height, MetaOrEmpty(sec.meta))];
        sectionMap := sectionMap[sec.id := nextId + k];
      }
      assert snaps[..|snaps|] == snaps;
      return true, sectionMap;
    }

    method RestoreTables(eventId: EventId, snaps: seq<TableSnapshot>, sectionMap: map<Id, Id>, base: Id) returns (ok: bool, tableMap: map<Id, Id>)
      requires forall t, id | t in tables && id in sectionMap :: t.sectionId != sectionMap[id]
      modifies this`tables
      ensures ok <==> TablesFit(RestoredTables(snaps, sectionMap, eventId, base))
      ensures ok ==> tables == old(tables) + RestoredTables(snaps, sectionMap, eventId, base) && tableMap == TableMap(snaps, sectionMap, base)
    {
      hide TableNameTaken, TablesFit, RestoredTables, TableMap, MetaOrEmpty;
      ghost var kept := tables;
      NoTables(sectionMap, eventId, base);
      tableMap := map[];
      for k := 0 to |snaps|
        invariant tables == kept + RestoredTables(snaps[..k], sectionMap, eventId, base)
        invariant tableMap == TableMap(snaps[..k], sectionMap, base)
        invariant TablesFit(RestoredTables(snaps[..k], sectionMap, eventId, base))
      {
        var tbl := snaps[k];
        OneMoreTable(snaps, k, sectionMap, eventId, base);
        if tbl.sectionId in sectionMap {
          var newSectionId := sectionMap[tbl.sectionId];
          ghost var row := TableRow(tbl, eventId, base + k, newSectionId);
          TableRowsGrow(snaps, k + 1, sectionMap, eventId, base);
          TableNameTakenByRestored(kept, RestoredTables(snaps[..k], sectionMap, eventId, base), row);
          if TableNameTaken(tables, newSectionId, tbl.name) {
            NoFit(RestoredTables(snaps[..k + 1], sectionMap, eventId, base), RestoredTables(snaps, sectionMap, eventId, base));
            return false, map[];
          }
          tables := tables + [Table(base + k, eventId, newSectionId, tbl.name, tbl.order, tbl.x, tbl.y, tbl.capacity, MetaOrEmpty(tbl.meta))];
          tableMap := tableMap[tbl.id := base + k];
        } else {
          assert RestoredTables(snaps[..k + 1], sectionMap, eventId, base) == RestoredTables(snaps[..k], sectionMap, eventId, base);
        }
      }
      assert snaps[..|snaps|] == snaps;
      return true, tableMap;
    }

    /** Create the snapshot's rows, sections first; not all of them when one is refused. */
    method RestoreRows(eventId: EventId, snap: LayoutSnapshot) returns (ok: bool)
      requires (forall s | s in sections :: s.event != eventId) && forall t | t in tables :: t.sectionId < nextId
      modifies this`sections, this`tables, this`seats
      ensures var forTables := nextId + |snap.sections|; var forSeats := forTables + |snap.tables|;
        var sectionMap := SectionMap(snap.sections, nextId);
        var tableRows := RestoredTables(snap.tables, sectionMap, eventId, forTables);
        var seatRows := RestoredSeats(snap.seats, sectionMap, TableMap(snap.tables, sectionMap, forTables), eventId, forSeats);
        && (ok <==> Admitted(snap.sections, tableRows, seatRows))
        && (ok ==> Rows() == Layout(old(sections) + RestoredSections(snap.sections, eventId, nextId), old(tables) + tableRows, old(seats) + seatRows))
    {
      hide SectionMap, TableMap, RestoredTables, RestoredSeats, RestoredSections, TablesFit;
      var sectionMap, tableMap;
      ok, sectionMap := RestoreSections(eventId, snap.sections);
      if !ok {
        return false;
      }
      var forTables := nextId + |snap.sections|;
      ok, tableMap := RestoreTables(eventId, snap.tables, sectionMap, forTables);
      if !ok {
        return false;
      }
      var seatRows := RestoredSeats(snap.seats, sectionMap, tableMap, eventId, forTables + |snap.tables|);
      if exists s | s in seatRows :: s.seatType.Some? && s.seatType.value !in SEAT_TYPES {
        return false;
      }
      seats := seats + seatRows;
      return true;
    }

    /** Restoring runs in one transaction: when a row is refused nothing has changed. */
    method RestoreVersion(eventId: EventId, data: Option<RawSnapshot>) returns (ok: bool)
      requires Valid(Rows(), nextId)
      modifies this`sections, this`tables, this`seats, this`nextId
      ensures Restored(old(Rows()), eventId, data, old(nextId)) == if ok then Some((Rows(), nextId)) else None
      ensures !ok ==> Rows() == old(Rows()) && nextId == old(nextId)
    {
      hide Wiped, SectionMap, TableMap, RestoredTables, RestoredSeats, RestoredSections, Admitted, NormalizeSnapshot, NewIds, Valid, Filter;
      var before, next := Rows(), nextId;
      WipedIsValid(Rows(), eventId, nextId);
      KeptSectionIds(Wiped(Rows(), eventId), nextId);
      Wipe(eventId);
      var snap := NormalizeSnapshot(data, nextId);
      nextId := nextId + NewIds(data);
      ok := RestoreRows(eventId, snap);
      if ok {
        nextId := nextId + |snap.sections| + |snap.tables| + |snap.seats|;
      } else {
        sections, tables, seats, nextId := before.sections, before.tables, before.seats, next;
      }
    }

    /** Undoing stores no version and moves no cursor. */
    method Undo(eventId: EventId) returns (restored: bool)
      requires Valid(Rows(), nextId)
      modifies this`sections, this`tables, this`seats, this`nextId
      ensures var target := UndoTarget(versions, eventId);
        if target.Some?
        then Restored(old(Rows()), eventId, Some(target.value.data), old(nextId)) == if restored then Some((Rows(), nextId)) else None
        else !restored
      ensures !restored ==> Rows() == old(Rows()) && nextId == old(nextId)
    {
      hide Restored, Valid, LatestVersion;
      var latest := LatestVersion(versions, eventId, None);
      if latest.None? {
        return false;
      }
      var previous := LatestVersion(versions, eventId, Some(latest.value.version));
      if previous.None? {
        return false;
      }
      restored := RestoreVersion(eventId, Some(previous.value.data));
    }

    method Redo(eventId: EventId) returns (restored: bool)
      requires Valid(Rows(), nextId)
      modifies this`sections, this`tables, this`seats, this`nextId
      ensures var target := RedoTarget(versions, eventId);
        if target.Some?
        then Restored(old(Rows()), eventId, Some(target.value.data), old(nextId)) == if restored then Some((Rows(), nextId)) else None
        else !restored
      ensures !restored ==> Rows() == old(Rows()) && nextId == old(nextId)
    {
      hide Restored, Valid, LatestVersion, NextVersion;
      var latest := LatestVersion(versions, eventId, None);
      if latest.None? {
        return false;
      }
      var next := NextVersion(versions, eventId, latest.value.version);
      if next.None? {
        return false;
      }
      restored := RestoreVersion(eventId, Some(next.value.data));
    }

    method WriteGeometry(eventId: EventId, geometry: GeometryOutput, draw: Drawings) returns (ok: bool)
      modifies this`sections, this`tables, this`seats, this`nextId
      ensures Written(old(Rows()), eventId, geometry, old(nextId), draw) == if ok then Some((Rows(), nextId)) else None
      ensures !ok ==> Rows() == old(Rows()) && nextId == old(nextId)
    {
      hide NewSections, NewTables, NewSeats, SectionsByInput, TablesByInput, TablesFit, ShapesFit, Filter;
      var before := Rows();
      var existing := Filter(sections, (s: Section) => s.event == eventId);
      sections := sections + NewSections(existing, geometry.sections, eventId, nextId, draw);
      var allSections := Filter(sections, (s: Section) => s.event == eventId);
      var sectionByInputId := FindSections(geometry.sections, allSections);
      var forTables := nextId + |geometry.sections|;
      tables := tables + NewTables(geometry.tables, sectionByInputId, eventId, forTables, draw);
      if !TablesFit(tables) {
        sections, tables := before.sections, before.tables;
        return false;
      }
      var allTables := Filter(tables, (t: Table) => t.event == eventId);
      var tableByInputId := FindTables(geometry.tables, allTables);
      var forSeats := forTables + |geometry.tables|;
      var seatRows := NewSeats(geometry.seats, geometry, sectionByInputId, tableByInputId, eventId, forSeats, draw);
      if !ShapesFit(seatRows) {
        sections, tables := before.sections, before.tables;
        return false;
      }
      seats := seats + seatRows;
      nextId := forSeats + |geometry.seats|;
      return true;
    }

    static method FindSections(sections: seq<GeometrySection>, all: seq<Section>) returns (byInput: map<string, Section>)
      ensures byInput == SectionsByInput(sections, all)
    {
      byInput := map[];
      for k := 0 to |sections|
        invariant byInput == SectionsByInput(sections[..k], all)
      {
        assert sections[..k + 1][..k] == sections[..k];
        var db := FirstSection(all, sections[k].name);
        if db.Some? {
          byInput := byInput[sections[k].id := all[db.value]];
        }
      }
      assert sections[..|sections|] == sections;
    }

    static method FindTables(tables: seq<GeometryTable>, all: seq<Table>) returns (byInput: map<string, Table>)
      ensures byInput == TablesByInput(tables, all)
    {
      byInput := map[];
      for k := 0 to |tables|
        invariant byInput == TablesByInput(tables[..k], all)
      {
        assert tables[..k + 1][..k] == tables[..k];
        var db := FirstTable(all, tables[k].name);
        if db.Some? {
          byInput := byInput[tables[k].id := all[db.value]];
        }
      }
      assert tables[..|tables|] == tables;
    }

    /**
     The wipe is not part of the writing transaction: it stays when the writing fails. Last the layout is saved under
     the current time; when that version number is taken the call fails with the new rows in place.
     */
    method AutoGenerate(eventId: EventId, inputs: seq<SectionInput>, draw: Drawings, now: int) returns (ok: bool)
      modifies this
      ensures var generated := Generated(old(Rows()), eventId, inputs, old(nextId), draw);
        if generated.None? then !ok && Rows() == Wiped(old(Rows()), eventId) && nextId == old(nextId) && versions == old(versions)
        else
          && (Rows(), nextId) == generated.value && (ok <==> !VersionTaken(old(versions), eventId, now))
          && versions == if ok then old(versions) + [Snapshot(Rows(), eventId, now, "AutoLayout")] else old(versions)
    {
      hide Written, Wiped, SectionsOf, TablesOf, SeatsOf, VersionTaken, Of;
      Wipe(eventId);
      var geometry := Generate(inputs);
      ok := WriteGeometry(eventId, geometry, draw);
      if ok {
        ok := SaveLayoutVersion(eventId, now, Some("AutoLayout"));
      }
    }

    method AutoGenerateFromMaxSeats(eventId: EventId, maxSeats: int, draw: Drawings, now: int) returns (ok: bool)
      modifies this
      ensures var generated := Generated(old(Rows()), eventId, Plan(maxSeats), old(nextId), draw);
        if generated.None? then !ok && Rows() == Wiped(old(Rows()), eventId) && nextId == old(nextId) && versions == old(versions)
        else
          && (Rows(), nextId) == generated.value && (ok <==> !VersionTaken(old(versions), eventId, now))
          && versions == if ok then old(versions) + [Snapshot(Rows(), eventId, now, "AutoLayout")] else old(versions)
    {
      var inputs := BuildAutoGenerateInputFromMaxSeats(maxSeats);
      ok := AutoGenerate(eventId, inputs, draw, now);
    }

    method AutoGenerateSeatMap(eventId: EventId, sectionName: string, seatCount: int, tableCount: int, draw: Drawings, now: int)
      returns (ok: bool)
      modifies this
      ensures var generated := Generated(old(Rows()), eventId, SeatMap(sectionName, seatCount, tableCount), old(nextId), draw);
        if generated.None? then !ok && Rows() == Wiped(old(Rows()), eventId) && nextId == old(nextId) && versions == old(versions)
        else
          && (Rows(), nextId) == generated.value && (ok <==> !VersionTaken(old(versions), eventId, now))
          && versions == if ok then old(versions) + [Snapshot(Rows(), eventId, now, "AutoLayout")] else old(versions)
    {
      ok := AutoGenerate(eventId, SeatMap(sectionName, seatCount, tableCount), draw, now);
    }

    /** Saving the layout comes last here as well: a taken version number is reported with the copy in place. */
    method DuplicateTable(tableId: Id, offsetX: real, offsetY: real, now: int) returns (r: Result<Id, CloneError>)
      modifies this
      ensures var o := DuplicatedTable(old(Rows()), tableId, offsetX, offsetY, old(nextId));
        && Rows() == o.rows && nextId == o.next
        && if o.result.Err? then r == o.result && versions == old(versions)
           else
             var event := FindTable(old(tables), tableId).value.event;
             && r == (if VersionTaken(old(versions), event, now) then Err(VersionExists) else o.result)
             && versions == if r.Ok? then old(versions) + [Snapshot(Rows(), event, now, "DuplicateTable")] else old(versions)
    {
      hide VersionTaken, Of, FindTable, Filter, SeatsAt, CloneSeats, TableNameTaken, Prepared;
      var found := FindTable(tables, tableId);
      if found.None? {
        return Err(EntityNotFound);
      }
      var table := found.value;
      var original := SeatsAt(Rows(), tableId);
      if TableNameTaken(Rows().tables, table.sectionId, table.name + "_copy") {
        return Err(NameTaken);
      }
      var meta := PrepareMeta(table.meta);
      var clone := nextId;
      tables := tables + [Table(clone, table.event, table.sectionId, table.name + "_copy", table.order,
                                table.x + offsetX, table.y + offsetY, table.capacity, meta)];
      seats := seats + CloneSeats(original, clone + 1, None, clone, offsetX, offsetY);
      nextId := clone + 1 + |original|;
      assert Outcome(Ok(clone), Rows(), nextId) == DuplicatedTable(old(Rows()), tableId, offsetX, offsetY, old(nextId));
      var saved := SaveLayoutVersion(table.event, now, Some("DuplicateTable"));
      return if saved then Ok(clone) else Err(VersionExists);
    }

    /** Clone each table with its seats into the new section. */
    method CloneTables(original: seq<Table>, event: EventId, secClone: Id, offsetX: real, offsetY: real)
      modifies this`tables, this`seats, this`nextId
      ensures (Rows(), nextId) == ClonedTables(old(Rows()), original, event, secClone, offsetX, offsetY, old(nextId))
    {
      hide CloneSeats, CloneTable, Filter, SeatsAt;
      var before := Rows();
      for k := 0 to |original|
        invariant (Rows(), nextId) == ClonedTables(before, original[..k], event, secClone, offsetX, offsetY, old(nextId))
      {
        var tbl := original[k];
        assert original[..k + 1][..k] == original[..k];
        var tblClone := nextId;
        tables := tables + [CloneTable(tbl, event, tblClone, secClone, offsetX, offsetY)];
        var of := SeatsAt(before, tbl.id);
        seats := seats + CloneSeats(of, tblClone + 1, Some(secClone), tblClone, offsetX, offsetY);
        nextId := tblClone + 1 + |of|;
      }
      assert original[..|original|] == original;
    }

    method CloneSection(sectionId: Id, offsetX: real, offsetY: real, now: int) returns (r: Result<Id, CloneError>)
      modifies this
      ensures var o := ClonedSection(old(Rows()), sectionId, offsetX, offsetY, old(nextId));
        && Rows() == o.rows && nextId == o.next
        && if o.result.Err? then r == o.result && versions == old(versions)
           else
             var event := FindSection(old(sections), sectionId).value.event;
             && r == (if VersionTaken(old(versions), event, now) then Err(VersionExists) else o.result)
             && versions == if r.Ok? then old(versions) + [Snapshot(Rows(), event, now, "CloneSection")] else old(versions)
    {
      hide SectionNameTaken, ClonedTables, Filter, VersionTaken, Of, FindSection;
      var found := FindSection(sections, sectionId);
      if found.None? {
        return Err(EntityNotFound);
      }
      var section := found.value;
      var original := Cloning.TablesIn(Rows(), sectionId);
      if SectionNameTaken(Rows().sections, section.event, section.name + "_copy") {
        return Err(NameTaken);
      }
      var meta := PrepareMeta(section.meta);
      var secClone := nextId;
      sections := sections + [Section(secClone, section.event, section.name + "_copy", section.order,
                                      section.x + offsetX, section.y + offsetY, None, None, meta)];
      nextId := nextId + 1;
      CloneTables(original, section.event, secClone, offsetX, offsetY);
      var saved := SaveLayoutVersion(section.event, now, Some("CloneSection"));
      return if saved then Ok(secClone) else Err(VersionExists);
    }
  }
}
