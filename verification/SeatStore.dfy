/** What each operation of seat-write.service.ts does when its transaction runs alone, as a function on the stored rows. */
module SeatStore {
  import opened Results
  import opened Sequences
  import opened SeatRows

  /** `order` lists the seats by creation time; `nextTx` names the next transaction. */
  datatype Store = Store(seats: Seats, order: seq<Id>, log: seq<Entry>, outbox: seq<Fact>, nextTx: TxId)

  datatype Row = Row(id: Id, seat: Seat)

  datatype SeatError = HolderConflict | SeatNotFound | SeatUnavailable | EventMismatch | UniqueViolation

  datatype Outcome = Outcome(result: Result<Row, SeatError>, store: Store)

  ghost predicate Ordered(st: Store) {
    Distinct(st.order) && (forall id :: id in st.order <==> id in st.seats)
  }

  /** The seats that satisfy a condition, in order of creation. */
  function Where(seats: Seats, order: seq<Id>, p: (Id, Seat) -> bool): (ids: seq<Id>)
    ensures forall id :: id in ids <==> id in order && id in seats && p(id, seats[id])
    ensures Distinct(order) ==> Distinct(ids)
  {
    if order == [] then []
    else
      var ids, last := Where(seats, order[..|order| - 1], p), order[|order| - 1];
      ids + if last in seats && p(last, seats[last]) then [last] else []
  }

  function First(ids: seq<Id>): Option<Id> {
    if ids == [] then None else Some(ids[0])
  }

  function Recorded(st: Store, e: Entry): Store {
    st.(log := st.log + [e], outbox := st.outbox + match FactOf(e) case None => [] case Some(f) => [f])
  }

  function Written(st: Store, id: Id, row: Seat, e: Entry): Store {
    Recorded(st.(seats := st.seats[id := row]), e)
  }

  function Release(st: Store, id: Id): Entry
    requires id in st.seats
  {
    var s := st.seats[id];
    Entry(st.nextTx, s.event, id, s.guest, s.invitation, Unassigned)
  }

  function Released(st: Store, id: Id): Store
    requires id in st.seats
  {
    Written(st, id, Freed(st.seats[id]), Release(st, id))
  }

  function ReleasedAll(st: Store, ids: seq<Id>): (after: Store)
    requires forall id | id in ids :: id in st.seats
    ensures after.seats.Keys == st.seats.Keys && after.order == st.order && after.nextTx == st.nextTx
    ensures forall id | id in st.seats :: after.seats[id] == if id in ids then Freed(st.seats[id]) else st.seats[id]
  {
    if ids == [] then st
    else Released(ReleasedAll(st, ids[..|ids| - 1]), ids[|ids| - 1])
  }

  lemma ReleasedOneMore(st: Store, ids: seq<Id>, k: nat)
    requires Distinct(ids) && k < |ids| && forall other | other in ids :: other in st.seats
    ensures forall other | other in ids[..k] :: other in st.seats
    ensures forall other | other in ids[..k + 1] :: other in st.seats
    ensures var s := st.seats[ids[k]];
      ReleasedAll(st, ids[..k + 1])
      == Written(ReleasedAll(st, ids[..k]), ids[k], Freed(s), Entry(st.nextTx, s.event, ids[k], s.guest, s.invitation, Unassigned))
  {
    assert ids[..k + 1][..k] == ids[..k] && ids[k] !in ids[..k];
  }

  lemma NothingReleased(st: Store)
    ensures ReleasedAll(st, []) == st
  {
  }

  function Committed(st: Store): Store {
    st.(nextTx := st.nextTx + 1)
  }

  /** The other seats of the event that the guest or the invitation holds. */
  function Conflicting(st: Store, id: Id, guest: Option<Id>, invitation: Option<Id>): seq<Id>
    requires id in st.seats
  {
    var event := st.seats[id].event;
    Where(st.seats, st.order, (other, s: Seat) =>
      s.event == event && other != id
      && ((guest.Some? && s.guest == guest) || (invitation.Some? && s.invitation == invitation)))
  }

  lemma ConflictingIs(st: Store, id: Id, guest: Option<Id>, invitation: Option<Id>)
    requires Ordered(st) && id in st.seats
    ensures var ids := Conflicting(st, id, guest, invitation);
      Distinct(ids) && forall other | other in ids :: other in st.seats && other != id && st.seats[other].event == st.seats[id].event
  {
  }

  function Claim(st: Store, id: Id, guest: Option<Id>, invitation: Option<Id>): Entry
    requires id in st.seats
  {
    Entry(st.nextTx, st.seats[id].event, id, guest, invitation, Assigned)
  }

  function AssignSeat(st: Store, id: Id, guest: Option<Id>, invitation: Option<Id>, note: Option<string>): Outcome {
    if guest.Some? && invitation.Some? then Outcome(Err(HolderConflict), st)
    else if id !in st.seats then Outcome(Err(SeatNotFound), st)
    else if guest.None? && invitation.None? then
      if st.seats[id].Free() then Outcome(Ok(Row(id, st.seats[id])), st)
      else
        var row := Freed(st.seats[id]).(note := note);
        Outcome(Ok(Row(id, row)), Committed(Written(st, id, row, Release(st, id))))
    else if !AssignableTo(st.seats[id], guest, invitation) then Outcome(Err(SeatUnavailable), st)
    else
      var cleared := ReleasedAll(st, Conflicting(st, id, guest, invitation));
      var row := Held(st.seats[id], guest, invitation, note);
      if ClashesAt(cleared.seats[id := row], id) then Outcome(Err(UniqueViolation), st)
      else Outcome(Ok(Row(id, row)), Committed(Written(cleared, id, row, Claim(st, id, guest, invitation))))
  }

  function Existing(st: Store, event: Id, guest: Id, invitation: Option<Id>): Option<Id> {
    First(Where(st.seats, st.order, (_, s: Seat) =>
      s.event == event && s.guest == Some(guest) && (invitation.Some? ==> s.invitation == invitation)))
  }

  function FirstAvailable(st: Store, event: Id): Option<Id> {
    First(Where(st.seats, st.order, (_, s: Seat) => s.event == event && s.status.AVAILABLE? && s.Free()))
  }

  /** The seat that an assignment to a guest tries to take: the one asked for, or else the oldest available one. */
  function ChosenSeat(st: Store, event: Id, seatId: Option<Id>): Option<Id> {
    if seatId.Some? then (if seatId.value in st.seats then seatId else None) else FirstAvailable(st, event)
  }

  function AssignSeatToGuest(st: Store, event: Id, guest: Id, invitation: Option<Id>, seatId: Option<Id>, note: Option<string>): Outcome {
    var existing := Existing(st, event, guest, invitation);
    if existing.Some? then Outcome(Ok(Row(existing.value, st.seats[existing.value])), st)
    else
      var chosen := ChosenSeat(st, event, seatId);
      if chosen.None? then Outcome(Err(SeatUnavailable), st)
      else
        var id, seat := chosen.value, st.seats[chosen.value];
        var row := Held(seat, Some(guest), invitation, if note.Some? then note else seat.note);
        if seat.event != event then Outcome(Err(EventMismatch), st)
        else if !AssignableToGuest(seat, event, invitation, ReservedFor(seat, invitation)) then Outcome(Err(SeatUnavailable), st)
        else if ClashesAt(st.seats[id := row], id) then Outcome(Err(UniqueViolation), st)
        else Outcome(Ok(Row(id, row)), Committed(Written(st, id, row, Claim(st, id, Some(guest), invitation))))
  }

  function UnassignSeat(st: Store, id: Id): Store {
    if id in st.seats && !st.seats[id].Free() then Committed(Released(st, id)) else st
  }

  function UnassignAll(st: Store, ids: seq<Id>): Store {
    if ids == [] then st else UnassignSeat(UnassignAll(st, ids[..|ids| - 1]), ids[|ids| - 1])
  }

  function SeatsOfGuest(st: Store, guest: Id): seq<Id> {
    Where(st.seats, st.order, (_, s: Seat) => s.guest == Some(guest))
  }

  function UnassignSeatsByGuestId(st: Store, guest: Id): Store {
    UnassignAll(st, SeatsOfGuest(st, guest))
  }
}

/** seat-write.service.ts: the assignment operations over the rows in place, an error restoring what the transaction found. */
module SeatWriteService {
  import opened Results
  import opened Sequences
  import opened SeatRows
  import opened SeatStore

  class SeatWrites {
    var seats: Seats
    var order: seq<Id>
    var log: seq<Entry>
    var outbox: seq<Fact>
    var nextTx: TxId

    constructor (st: Store)
      ensures Db() == st
    {
      seats, order, log, outbox, nextTx := st.seats, st.order, st.log, st.outbox, st.nextTx;
    }

    function Db(): Store
      reads this
    {
      Store(seats, order, log, outbox, nextTx)
    }

    method Rollback(before: Store)
      modifies this
      ensures Db() == before
    {
      seats, order, log, outbox, nextTx := before.seats, before.order, before.log, before.outbox, before.nextTx;
    }

    /** One assignment log row and, when it names anyone, its analytics fact. */
    method Record(e: Entry)
      modifies this`log, this`outbox
      ensures Db() == Recorded(old(Db()), e)
    {
      log := log + [e];
      var subject := if e.guest.Some? then e.guest else e.invitation;
      if subject.Some? {
        outbox := outbox + [Fact(e.tx, e.event, e.seat, subject.value, e.change)];
      }
    }

    method AssignSeat(seatId: Id, guestId: Option<Id>, invitationId: Option<Id>, note: Option<string>)
      returns (r: Result<Row, SeatError>)
      requires Ordered(Db())
      modifies this
      ensures Outcome(r, Db()) == SeatStore.AssignSeat(old(Db()), seatId, guestId, invitationId, note)
    {
      hide ClashesAt, AssignableTo, Conflicting, ReleasedAll, FactOf;
      if guestId.Some? && invitationId.Some? {
        return Err(HolderConflict);
      }
      var hasAssignment := guestId.Some? || invitationId.Some?;
      if seatId !in seats {
        return Err(SeatNotFound);
      }
      var seat := seats[seatId];
      if !hasAssignment && seat.Free() {
        return Ok(Row(seatId, seat));
      }
      var before := Db();
      if hasAssignment {
        ClearConflicts(seatId, guestId, invitationId);
      }
      var claimed := !hasAssignment || AssignableTo(seats[seatId], guestId, invitationId);
      if !claimed {
        Rollback(before);
        return Err(SeatUnavailable);
      }
      var row := Seat(seat.event, guestId, invitationId, if hasAssignment then ASSIGNED else AVAILABLE, note);
      seats := seats[seatId := row];
      if hasAssignment && ClashesAt(seats, seatId) {
        Rollback(before);
        return Err(UniqueViolation);
      }
      Record(Entry(nextTx, seat.event, seatId, if hasAssignment then guestId else seat.guest,
                   if hasAssignment then invitationId else seat.invitation, if hasAssignment then Assigned else Unassigned));
      nextTx := nextTx + 1;
      return Ok(Row(seatId, row));
    }

    /** Free a seat and record its release from the holder it was read with. */
    method ClearSeat(id: Id, s: Seat, event: Id)
      modifies this`seats, this`log, this`outbox
      ensures Db() == Written(old(Db()), id, Freed(s), Entry(old(nextTx), event, id, s.guest, s.invitation, Unassigned))
    {
      seats := seats[id := s.(guest := None, invitation := None, status := AVAILABLE, note := None)];
      Record(Entry(nextTx, event, id, s.guest, s.invitation, Unassigned));
    }

    /** The first part of an assignment: free every other seat of the event that the holder has. */
    method ClearConflicts(seatId: Id, guestId: Option<Id>, invitationId: Option<Id>)
      requires Ordered(Db()) && seatId in seats
      modifies this`seats, this`log, this`outbox
      ensures Db() == ReleasedAll(old(Db()), Conflicting(old(Db()), seatId, guestId, invitationId))
      ensures seatId in seats && seats[seatId] == old(seats)[seatId]
    {
      var before := Db();
      ConflictingIs(before, seatId, guestId, invitationId);
      hide Conflicting, ReleasedAll, Distinct, FactOf, Written, Freed;
      NothingReleased(before);
      var event := seats[seatId].event;
      var conflictingSeats := Conflicting(before, seatId, guestId, invitationId);
      for k := 0 to |conflictingSeats|
        invariant Db() == ReleasedAll(before, conflictingSeats[..k])
      {
        var id := conflictingSeats[k];
        ReleasedOneMore(before, conflictingSeats, k);
        ClearSeat(id, before.seats[id], event);
      }
      assert conflictingSeats[..|conflictingSeats|] == conflictingSeats;
    }

    method AssignSeatToGuest(eventId: Id, guestId: Id, invitationId: Option<Id>, seatId: Option<Id>, note: Option<string>)
      returns (r: Result<Row, SeatError>)
      modifies this
      ensures Outcome(r, Db()) == SeatStore.AssignSeatToGuest(old(Db()), eventId, guestId, invitationId, seatId, note)
    {
      hide ClashesAt, Where, FactOf;
      var before := Db();
      var existing := Existing(before, eventId, guestId, invitationId);
      if existing.Some? {
        return Ok(Row(existing.value, seats[existing.value]));
      }
      var chosen := FirstAvailable(before, eventId);
      if seatId.Some? {
        chosen := if seatId.value in seats then seatId else None;
      }
      if chosen.None? {
        return Err(SeatUnavailable);
      }
      var id := chosen.value;
      var seat := seats[id];
      if seat.event != eventId {
        return Err(EventMismatch);
      }
      var reservedForInvitation := invitationId.Some? && seat.invitation == invitationId && seat.guest.None?;
      if !AssignableToGuest(seat, eventId, invitationId, reservedForInvitation) {
        return Err(SeatUnavailable);
      }
      var row := seat.(guest := Some(guestId), invitation := invitationId, status := ASSIGNED);
      if note.Some? {
        row := row.(note := note);
      }
      seats := seats[id := row];
      if ClashesAt(seats, id) {
        Rollback(before);
        return Err(UniqueViolation);
      }
      Record(Entry(nextTx, eventId, id, Some(guestId), invitationId, Assigned));
      nextTx := nextTx + 1;
      return Ok(Row(id, row));
    }

    method UnassignSeat(seatId: Id)
      modifies this
      ensures Db() == SeatStore.UnassignSeat(old(Db()), seatId)
    {
      if seatId !in seats {
        return;
      }
      var seat := seats[seatId];
      var subjectId := if seat.guest.Some? then seat.guest else seat.invitation;
      if subjectId.None? {
        return;
      }
      seats := seats[seatId := seat.(guest := None, invitation := None, status := AVAILABLE, note := None)];
      Record(Entry(nextTx, seat.event, seatId, seat.guest, seat.invitation, Unassigned));
      nextTx := nextTx + 1;
    }

    method UnassignSeatsByGuestId(guestId: Id)
      modifies this
      ensures Db() == SeatStore.UnassignSeatsByGuestId(old(Db()), guestId)
    {
      var before := Db();
      var found := SeatsOfGuest(before, guestId);
      for k := 0 to |found|
        invariant Db() == UnassignAll(before, found[..k])
      {
        assert found[..k + 1][..k] == found[..k];
        UnassignSeat(found[k]);
      }
      assert found[..|found|] == found;
    }
  }
}
