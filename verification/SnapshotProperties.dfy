/** What normalising makes of stored data of any kind: nothing is lost but unknown enum values, and ids made up are new. */
module SnapshotProperties {
  import opened Results
  import opened MetaDefaults
  import opened LayoutRows
  import opened Snapshots

  /** The parts of the data that are there. */
  ghost predicate HasParts(raw: Option<RawSnapshot>, sections: seq<RawSection>, tables: seq<RawTable>, seats: seq<RawSeat>) {
    match raw
    case None => sections == [] && tables == [] && seats == []
    case Some(r) =>
      && (if r.sections == None then sections == [] else r.sections == Some(sections))
      && (if r.tables == None then tables == [] else r.tables == Some(tables))
      && (if r.seats == None then seats == [] else r.seats == Some(seats))
  }

  /** The id of the data when it has one, otherwise one of the new ids. */
  predicate IdFrom(given: Option<Id>, id: Id, next: Id, end: Id) {
    if given == None then next <= id < end else given == Some(id)
  }

  predicate MetaFrom(given: Json, meta: Json) {
    if given == Null then meta == Obj(map[]) else meta == given
  }

  predicate SectionFrom(s: RawSection, t: SectionSnapshot, next: Id, end: Id) {
    && IdFrom(s.id, t.id, next, end) && MetaFrom(s.meta, t.meta)
    && t.name == s.name && t.order == s.order && t.x == s.x && t.y == s.y && t.width == s.width && t.height == s.height
  }

  predicate TableFrom(s: RawTable, t: TableSnapshot, next: Id, end: Id) {
    && IdFrom(s.id, t.id, next, end) && IdFrom(s.sectionId, t.sectionId, next, end) && MetaFrom(s.meta, t.meta)
    && t.name == s.name && t.order == s.order && t.x == s.x && t.y == s.y && t.capacity == s.capacity
  }

  const STATUS_VALUES: set<string> := {"AVAILABLE", "RESERVED", "ASSIGNED", "BLOCKED"}

  predicate SeatFrom(s: RawSeat, t: SeatSnapshot, next: Id, end: Id) {
    && IdFrom(s.id, t.id, next, end) && IdFrom(s.tableId, t.tableId, next, end) && IdFrom(s.sectionId, t.sectionId, next, end)
    && MetaFrom(s.meta, t.meta)
    && t.number == s.number && t.seatLabel == s.seatLabel && t.x == s.x && t.y == s.y && t.rotation == s.rotation
    && t.seatType == (if s.seatType.Some? && s.seatType.value in STATUS_VALUES then s.seatType else None)
    && t.status == (if s.status.Some? && s.status.value in STATUS_VALUES then s.status.value else "AVAILABLE")
  }

  /** Each part is normalised item by item. */
  lemma AnyDataNormalises(raw: Option<RawSnapshot>, next: Id, sections: seq<RawSection>, tables: seq<RawTable>, seats: seq<RawSeat>)
    requires HasParts(raw, sections, tables, seats)
    ensures var snap, end := NormalizeSnapshot(raw, next), next + NewIds(raw);
      && |snap.sections| == |sections| && |snap.tables| == |tables| && |snap.seats| == |seats|
      && (forall k | 0 <= k < |sections| :: SectionFrom(sections[k], snap.sections[k], next, end))
      && (forall k | 0 <= k < |tables| :: TableFrom(tables[k], snap.tables[k], next, end))
      && (forall k | 0 <= k < |seats| :: SeatFrom(seats[k], snap.seats[k], next, end))
  {
  }

  // ---------------------------------------------------------------- ids that are made up

  /** A place where the data should hold an id. */
  datatype Slot = OfSection(k: nat) | OfTable(k: nat) | SectionOfTable(k: nat) | OfSeat(k: nat) | TableOfSeat(k: nat) | SectionOfSeat(k: nat)

  predicate Missing(sections: seq<RawSection>, tables: seq<RawTable>, seats: seq<RawSeat>, slot: Slot) {
    match slot
    case OfSection(k) => k < |sections| && sections[k].id == None
    case OfTable(k) => k < |tables| && tables[k].id == None
    case SectionOfTable(k) => k < |tables| && tables[k].sectionId == None
    case OfSeat(k) => k < |seats| && seats[k].id == None
    case TableOfSeat(k) => k < |seats| && seats[k].tableId == None
    case SectionOfSeat(k) => k < |seats| && seats[k].sectionId == None
  }

  function IdAt(snap: LayoutSnapshot, slot: Slot): Option<Id> {
    match slot
    case OfSection(k) => if k < |snap.sections| then Some(snap.sections[k].id) else None
    case OfTable(k) => if k < |snap.tables| then Some(snap.tables[k].id) else None
    case SectionOfTable(k) => if k < |snap.tables| then Some(snap.tables[k].sectionId) else None
    case OfSeat(k) => if k < |snap.seats| then Some(snap.seats[k].id) else None
    case TableOfSeat(k) => if k < |snap.seats| then Some(snap.seats[k].tableId) else None
    case SectionOfSeat(k) => if k < |snap.seats| then Some(snap.seats[k].sectionId) else None
  }

  /** Each item has as many places for new ids as it could need. */
  function Offset(sections: nat, tables: nat, slot: Slot): nat {
    match slot
    case OfSection(k) => k
    case OfTable(k) => sections + 2 * k
    case SectionOfTable(k) => sections + 2 * k + 1
    case OfSeat(k) => sections + 2 * tables + 3 * k
    case TableOfSeat(k) => sections + 2 * tables + 3 * k + 1
    case SectionOfSeat(k) => sections + 2 * tables + 3 * k + 2
  }

  lemma MadeUpIs(raw: Option<RawSnapshot>, next: Id, sections: seq<RawSection>, tables: seq<RawTable>, seats: seq<RawSeat>, a: Slot)
    requires HasParts(raw, sections, tables, seats) && Missing(sections, tables, seats, a)
    ensures IdAt(NormalizeSnapshot(raw, next), a) == Some(next + Offset(|sections|, |tables|, a))
  {
  }

  lemma OffsetsDiffer(sections: seq<RawSection>, tables: seq<RawTable>, seats: seq<RawSeat>, a: Slot, b: Slot)
    requires a != b && Missing(sections, tables, seats, a) && Missing(sections, tables, seats, b)
    ensures Offset(|sections|, |tables|, a) != Offset(|sections|, |tables|, b)
  {
  }

  /** Two ids made up for different places are different, so that a missing link leads nowhere. */
  lemma NewIdsDiffer(raw: Option<RawSnapshot>, next: Id, sections: seq<RawSection>, tables: seq<RawTable>, seats: seq<RawSeat>, a: Slot, b: Slot)
    requires HasParts(raw, sections, tables, seats)
    requires a != b && Missing(sections, tables, seats, a) && Missing(sections, tables, seats, b)
    ensures IdAt(NormalizeSnapshot(raw, next), a).Some? && IdAt(NormalizeSnapshot(raw, next), a) != IdAt(NormalizeSnapshot(raw, next), b)
  {
    hide *;
    MadeUpIs(raw, next, sections, tables, seats, a);
    MadeUpIs(raw, next, sections, tables, seats, b);
    OffsetsDiffer(sections, tables, seats, a, b);
  }
}
