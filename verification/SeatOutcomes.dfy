/** What an assignment answers and what it leaves stored, field by field, for every request. */
module SeatOutcomes {
  import opened Results
  import opened Sequences
  import opened SeatRows
  import opened SeatStore
  import opened SeatProperties

  /** The seat is of the event, available and free. */
  predicate Open(st: Store, event: Id, id: Id) {
    id in st.seats && st.seats[id].event == event && st.seats[id].status == AVAILABLE
    && st.seats[id].guest == None && st.seats[id].invitation == None
  }

  /** The guest has the seat, under the invitation when one is given. */
  predicate HasSeat(st: Store, event: Id, guest: Id, invitation: Option<Id>, id: Id) {
    id in st.seats && st.seats[id].event == event && st.seats[id].guest == Some(guest)
    && (invitation == None || st.seats[id].invitation == invitation)
  }

  /** Another seat of the event already has the guest or the invitation. */
  ghost predicate SeatedElsewhere(st: Store, event: Id, guest: Option<Id>, invitation: Option<Id>, id: Id) {
    exists other :: other in st.seats && Shares(st, event, guest, invitation, id, other)
  }

  predicate Shares(st: Store, event: Id, guest: Option<Id>, invitation: Option<Id>, id: Id, other: Id)
    requires other in st.seats
  {
    && other != id && st.seats[other].event == event
    && ((guest != None && st.seats[other].guest == guest) || (invitation != None && st.seats[other].invitation == invitation))
  }

  /** The id at place `i` is the first in order of creation to satisfy the condition. */
  ghost predicate FirstAt(order: seq<Id>, p: Id -> bool, i: int, id: Id) {
    0 <= i < |order| && order[i] == id && p(id) && forall k | 0 <= k < i :: !p(order[k])
  }

  ghost predicate FirstOf(order: seq<Id>, p: Id -> bool, first: Option<Id>) {
    match first
    case None => forall id | id in order :: !p(id)
    case Some(id) => exists i :: FirstAt(order, p, i, id)
  }

  lemma FirstOneMore(order: seq<Id>, last: Id, p: Id -> bool, first: Option<Id>)
    requires FirstOf(order, p, first)
    ensures FirstOf(order + [last], p, if first.Some? then first else if p(last) then Some(last) else None)
  {
    if first.Some? {
      var i :| FirstAt(order, p, i, first.value);
      assert FirstAt(order + [last], p, i, first.value);
    } else if p(last) {
      assert FirstAt(order + [last], p, |order|, last);
    }
  }

  lemma {:induction false} FirstIsOldest(seats: Seats, order: seq<Id>, p: (Id, Seat) -> bool, q: Id -> bool)
    requires forall id | id in order :: q(id) <==> id in seats && p(id, seats[id])
    ensures FirstOf(order, q, First(Where(seats, order, p)))
  {
    if order != [] {
      var init, last := order[..|order| - 1], order[|order| - 1];
      assert init + [last] == order && last in order;
      FirstIsOldest(seats, init, p, q);
      FirstOneMore(init, last, q, First(Where(seats, init, p)));
      hide FirstOf;
    }
  }

  // ---------------------------------------------------------------- assigning a seat to a guest

  lemma ExistingIs(st: Store, event: Id, guest: Id, invitation: Option<Id>)
    requires Ordered(st)
    ensures var existing := Existing(st, event, guest, invitation);
      && (existing.Some? <==> exists id :: HasSeat(st, event, guest, invitation, id))
      && (existing.Some? ==> HasSeat(st, event, guest, invitation, existing.value))
  {
    var p := (_, s: Seat) => s.event == event && s.guest == Some(guest) && (invitation.Some? ==> s.invitation == invitation);
    var q := id => HasSeat(st, event, guest, invitation, id);
    FirstIsOldest(st.seats, st.order, p, q);
    hide Where;
    if id :| HasSeat(st, event, guest, invitation, id) {
      assert id in st.order;
    }
  }

  lemma FirstAvailableIs(st: Store, event: Id)
    requires Ordered(st)
    ensures FirstOf(st.order, id => Open(st, event, id), FirstAvailable(st, event))
  {
    var p := (_, s: Seat) => s.event == event && s.status.AVAILABLE? && s.Free();
    FirstIsOldest(st.seats, st.order, p, id => Open(st, event, id));
    hide Where, FirstOf;
  }

  lemma ClashIs(st: Store, id: Id, row: Seat)
    requires id in st.seats
    ensures ClashesAt(st.seats[id := row], id) <==> SeatedElsewhere(st, row.event, row.guest, row.invitation, id)
  {
    var seats := st.seats[id := row];
    if ClashesAt(seats, id) {
      var other :| other in seats && other != id && Clash(seats[other], seats[id]);
      assert Shares(st, row.event, row.guest, row.invitation, id, other);
    }
    if SeatedElsewhere(st, row.event, row.guest, row.invitation, id) {
      var other :| other in st.seats && Shares(st, row.event, row.guest, row.invitation, id, other);
      assert other in seats && other != id && Clash(seats[other], seats[id]);
    }
  }

  /** The seat is open, or waits for the invitation without a guest. */
  predicate Takeable(s: Seat, invitation: Option<Id>) {
    || (s.status == AVAILABLE && s.guest == None && s.invitation == None)
    || (invitation != None && s.invitation == invitation && s.guest == None)
  }

  /** The answer for a seat that was asked for, or chosen. */
  ghost predicate Answers(st: Store, event: Id, guest: Id, invitation: Option<Id>, note: Option<string>, id: Id, r: Result<Row, SeatError>)
    requires id in st.seats
  {
    var s := st.seats[id];
    if s.event != event then r == Err(EventMismatch)
    else if !Takeable(s, invitation) then r == Err(SeatUnavailable)
    else if SeatedElsewhere(st, event, Some(guest), invitation, id) then r == Err(UniqueViolation)
    else r == Ok(Row(id, Seat(event, Some(guest), invitation, ASSIGNED, if note.Some? then note else s.note)))
  }

  /** One seat, one log entry and one fact are written; nothing else changes. */
  ghost predicate TakesSeat(st: Store, event: Id, guest: Id, invitation: Option<Id>, row: Row, after: Store) {
    && after.seats == st.seats[row.id := row.seat] && after.order == st.order && after.nextTx == st.nextTx + 1
    && after.log == st.log + [Entry(st.nextTx, event, row.id, Some(guest), invitation, Assigned)]
    && after.outbox == st.outbox + [Fact(st.nextTx, event, row.id, guest, Assigned)]
  }

  lemma AnswersChosen(st: Store, event: Id, guest: Id, invitation: Option<Id>, seatId: Option<Id>, note: Option<string>, id: Id)
    requires Existing(st, event, guest, invitation).None? && ChosenSeat(st, event, seatId) == Some(id) && id in st.seats
    ensures var o := AssignSeatToGuest(st, event, guest, invitation, seatId, note);
      && Answers(st, event, guest, invitation, note, id, o.result)
      && if o.result.Ok? then TakesSeat(st, event, guest, invitation, o.result.value, o.store) else o.store == st
  {
    var seat := st.seats[id];
    var row := Held(seat, Some(guest), invitation, if note.Some? then note else seat.note);
    ClashIs(st, id, row);
    hide Existing, ChosenSeat, ClashesAt, SeatedElsewhere, Written, Committed;
    if seat.event == event {
      GivesSeat(st, event, guest, invitation, id, row);
    }
  }

  lemma GivesSeat(st: Store, event: Id, guest: Id, invitation: Option<Id>, id: Id, row: Seat)
    requires id in st.seats && st.seats[id].event == event
    ensures TakesSeat(st, event, guest, invitation, Row(id, row), Committed(Written(st, id, row, Claim(st, id, Some(guest), invitation))))
  {
  }

  /** The guest's seat is returned as it is when there is one; otherwise the answer is that for the seat asked for. */
  lemma AskedSeatAnswers(st: Store, event: Id, guest: Id, invitation: Option<Id>, id: Id, note: Option<string>)
    requires Ordered(st)
    ensures var o := AssignSeatToGuest(st, event, guest, invitation, Some(id), note);
      if exists has :: HasSeat(st, event, guest, invitation, has) then
        o.store == st && o.result.Ok? && HasSeat(st, event, guest, invitation, o.result.value.id)
        && o.result.value.seat == st.seats[o.result.value.id]
      else if id !in st.seats then o.store == st && o.result == Err(SeatUnavailable)
      else
        && Answers(st, event, guest, invitation, note, id, o.result)
        && if o.result.Ok? then TakesSeat(st, event, guest, invitation, o.result.value, o.store) else o.store == st
  {
    ExistingIs(st, event, guest, invitation);
    hide Existing, Answers, TakesSeat, HasSeat;
    if Existing(st, event, guest, invitation).None? && id in st.seats {
      AnswersChosen(st, event, guest, invitation, Some(id), note, id);
    }
  }

  /** The seat is open, and every other open seat of the event was created later. */
  ghost predicate OldestOpen(st: Store, event: Id, id: Id) {
    exists i :: 0 <= i < |st.order| && st.order[i] == id && Open(st, event, id) && NoneOpenBefore(st, event, i)
  }

  ghost predicate NoneOpenBefore(st: Store, event: Id, i: int)
    requires i <= |st.order|
  {
    forall k | 0 <= k < i :: !Open(st, event, st.order[k])
  }

  /**
   A guest who has no seat and asks for none in particular is offered the oldest open seat of the event: there is none
   exactly when the answer is that no seat is available, and the seat is refused exactly when the guest or the invitation is
   seated elsewhere in the event.
   */
  lemma GuestGetsOldestSeat(st: Store, event: Id, guest: Id, invitation: Option<Id>, note: Option<string>)
    requires Ordered(st) && !exists has :: HasSeat(st, event, guest, invitation, has)
    ensures var o := AssignSeatToGuest(st, event, guest, invitation, None, note);
      && (o.result == Err(SeatUnavailable) <==> !exists id :: Open(st, event, id))
      && (o.result.Ok? ==>
        && OldestOpen(st, event, o.result.value.id) && TakesSeat(st, event, guest, invitation, o.result.value, o.store)
        && o.result.value.seat.guest == Some(guest) && o.result.value.seat.invitation == invitation && o.result.value.seat.status == ASSIGNED)
      && (o.result.Err? ==> o.store == st)
      && forall id :: OldestOpen(st, event, id) ==>
        if SeatedElsewhere(st, event, Some(guest), invitation, id) then o.result == Err(UniqueViolation)
        else o.result.Ok? && o.result.value.id == id
  {
    ExistingIs(st, event, guest, invitation);
    FirstAvailableIs(st, event);
    var chosen := FirstAvailable(st, event);
    hide Existing, FirstAvailable;
    if chosen.Some? {
      var i :| FirstAt(st.order, id => Open(st, event, id), i, chosen.value);
      assert NoneOpenBefore(st, event, i);
      assert OldestOpen(st, event, chosen.value);
      OnlyOldest(st, event, chosen.value);
      AnswersChosen(st, event, guest, invitation, None, note, chosen.value);
    } else {
      NoneOpen(st, event);
    }
  }

  lemma OnlyOldest(st: Store, event: Id, id: Id)
    requires OldestOpen(st, event, id)
    ensures forall other :: OldestOpen(st, event, other) ==> other == id
  {
    hide Open;
  }

  lemma NoneOpen(st: Store, event: Id)
    requires Ordered(st) && forall id | id in st.order :: !Open(st, event, id)
    ensures forall id :: !Open(st, event, id)
  {
  }

  // ---------------------------------------------------------------- assigning a seat to a holder or to nobody

  /** The release of a seat that the holder had before, and its fact. */
  function ClearEntry(st: Store, id: Id): Entry
    requires id in st.seats
  {
    Entry(st.nextTx, st.seats[id].event, id, st.seats[id].guest, st.seats[id].invitation, Unassigned)
  }

  function ClearFact(st: Store, id: Id): Fact
    requires id in st.seats && !st.seats[id].Free()
  {
    Fact(st.nextTx, st.seats[id].event, id, if st.seats[id].guest.Some? then st.seats[id].guest.value else st.seats[id].invitation.value, Unassigned)
  }

  function ClearEntries(st: Store, ids: seq<Id>): (entries: seq<Entry>)
    requires forall id | id in ids :: id in st.seats && !st.seats[id].Free()
    ensures |entries| == |ids| && forall k | 0 <= k < |ids| :: entries[k] == ClearEntry(st, ids[k])
  {
    seq(|ids|, k requires 0 <= k < |ids| => ClearEntry(st, ids[k]))
  }

  function ClearFacts(st: Store, ids: seq<Id>): (facts: seq<Fact>)
    requires forall id | id in ids :: id in st.seats && !st.seats[id].Free()
    ensures |facts| == |ids| && forall k | 0 <= k < |ids| :: facts[k] == ClearFact(st, ids[k])
  {
    seq(|ids|, k requires 0 <= k < |ids| => ClearFact(st, ids[k]))
  }

  function Cleared(s: Seat): Seat {
    Seat(s.event, None, None, AVAILABLE, None)
  }

  /** The rows after clearing the seats one after the other. */
  ghost predicate ClearsAll(st: Store, ids: seq<Id>, after: Store)
    requires forall id | id in ids :: id in st.seats && !st.seats[id].Free()
  {
    && after.order == st.order && after.nextTx == st.nextTx && after.seats.Keys == st.seats.Keys
    && (forall id | id in st.seats :: after.seats[id] == if id in ids then Cleared(st.seats[id]) else st.seats[id])
    && after.log == st.log + ClearEntries(st, ids)
    && after.outbox == st.outbox + ClearFacts(st, ids)
  }

  lemma {:induction false} ReleasedAllClears(st: Store, ids: seq<Id>)
    requires Distinct(ids) && forall id | id in ids :: id in st.seats && !st.seats[id].Free()
    ensures ClearsAll(st, ids, ReleasedAll(st, ids))
  {
    if ids != [] {
      var init, last := ids[..|ids| - 1], ids[|ids| - 1];
      assert last !in init && init + [last] == ids;
      ReleasedAllClears(st, init);
      ClearsOneMore(st, init, last, ReleasedAll(st, init));
    }
  }

  lemma ClearsOneMore(st: Store, init: seq<Id>, last: Id, before: Store)
    requires last in st.seats && !st.seats[last].Free() && last !in init
    requires forall id | id in init :: id in st.seats && !st.seats[id].Free()
    requires ClearsAll(st, init, before)
    ensures ClearsAll(st, init + [last], Released(before, last))
  {
    var ids := init + [last];
    assert ClearEntries(st, ids) == ClearEntries(st, init) + [ClearEntry(st, last)];
    assert ClearFacts(st, ids) == ClearFacts(st, init) + [ClearFact(st, last)];
  }

  lemma {:induction false} WhereInOrder(seats: Seats, order: seq<Id>, p: (Id, Seat) -> bool) returns (at: seq<nat>)
    ensures var ids := Where(seats, order, p);
      && |at| == |ids| && (forall k | 0 <= k < |at| :: at[k] < |order| && order[at[k]] == ids[k])
      && (forall j, k | 0 <= j < k < |at| :: at[j] < at[k])
  {
    if order == [] {
      at := [];
    } else {
      var last := |order| - 1;
      at := WhereInOrder(seats, order[..last], p);
      if order[last] in seats && p(order[last], seats[order[last]]) {
        at := at + [last];
      }
    }
  }

  /** The ids stand at increasing places of the order. */
  ghost predicate InOrder(order: seq<Id>, ids: seq<Id>) {
    exists at: seq<nat> :: Places(order, ids, at)
  }

  ghost predicate Places(order: seq<Id>, ids: seq<Id>, at: seq<nat>) {
    && |at| == |ids| && (forall k | 0 <= k < |at| :: at[k] < |order| && order[at[k]] == ids[k])
    && (forall j, k | 0 <= j < k < |at| :: at[j] < at[k])
  }

  lemma ConflictsAre(st: Store, id: Id, guest: Option<Id>, invitation: Option<Id>)
    requires Ordered(st) && id in st.seats
    ensures var ids := Conflicting(st, id, guest, invitation);
      && Distinct(ids) && InOrder(st.order, ids) && (forall other | other in ids :: other in st.seats && !st.seats[other].Free())
      && (forall other :: other in ids <==> other in st.seats && Shares(st, st.seats[id].event, guest, invitation, id, other))
  {
    var event := st.seats[id].event;
    var p := (other: Id, s: Seat) =>
      s.event == event && other != id && ((guest.Some? && s.guest == guest) || (invitation.Some? && s.invitation == invitation));
    var at := WhereInOrder(st.seats, st.order, p);
    assert Conflicting(st, id, guest, invitation) == Where(st.seats, st.order, p);
    assert Places(st.order, Conflicting(st, id, guest, invitation), at);
    forall other | other in st.seats
      ensures other in st.order
    {
    }
    hide Places;
  }

  /**
   The holder's other seats of the event are freed, logged and published in order of creation, and then the seat is given to
   the holder, logged and published; no other row changes.
   */
  ghost predicate MovesHolder(st: Store, id: Id, guest: Option<Id>, invitation: Option<Id>, note: Option<string>, ids: seq<Id>, after: Store)
    requires id in st.seats && (guest.Some? || invitation.Some?)
    requires forall other | other in ids :: other in st.seats && !st.seats[other].Free()
  {
    var event := st.seats[id].event;
    && InOrder(st.order, ids) && (forall other :: other in ids <==> other in st.seats && Shares(st, event, guest, invitation, id, other))
    && after.order == st.order && after.nextTx == st.nextTx + 1 && after.seats.Keys == st.seats.Keys
    && after.seats[id] == Seat(event, guest, invitation, ASSIGNED, note)
    && (forall other | other in st.seats && other != id ::
      after.seats[other] == if other in ids then Cleared(st.seats[other]) else st.seats[other])
    && after.log == st.log + ClearEntries(st, ids) + [Entry(st.nextTx, event, id, guest, invitation, Assigned)]
    && after.outbox == st.outbox + ClearFacts(st, ids) + [Fact(st.nextTx, event, id, if guest.Some? then guest.value else invitation.value, Assigned)]
  }

  lemma HoldMoves(st: Store, id: Id, guest: Option<Id>, invitation: Option<Id>, note: Option<string>)
    requires Ordered(st) && id in st.seats && (guest.Some? || invitation.Some?)
    ensures var ids := Conflicting(st, id, guest, invitation);
      && (forall other | other in ids :: other in st.seats && !st.seats[other].Free())
      && MovesHolder(st, id, guest, invitation, note, ids,
                     Committed(Written(ReleasedAll(st, ids), id, Held(st.seats[id], guest, invitation, note), Claim(st, id, guest, invitation))))
  {
    var ids := Conflicting(st, id, guest, invitation);
    ConflictsAre(st, id, guest, invitation);
    NoSharingWithItself(st, id, guest, invitation);
    hide *;
    ReleasedAllClears(st, ids);
    HeldMoves(st, id, guest, invitation, note, ids, ReleasedAll(st, ids));
  }

  lemma NoSharingWithItself(st: Store, id: Id, guest: Option<Id>, invitation: Option<Id>)
    requires id in st.seats
    ensures !Shares(st, st.seats[id].event, guest, invitation, id, id)
  {
  }

  lemma HeldMoves(st: Store, id: Id, guest: Option<Id>, invitation: Option<Id>, note: Option<string>, ids: seq<Id>, cleared: Store)
    requires id in st.seats && (guest.Some? || invitation.Some?) && id !in ids && InOrder(st.order, ids)
    requires forall other | other in ids :: other in st.seats && !st.seats[other].Free()
    requires forall other :: other in ids <==> other in st.seats && Shares(st, st.seats[id].event, guest, invitation, id, other)
    requires ClearsAll(st, ids, cleared)
    ensures MovesHolder(st, id, guest, invitation, note, ids,
                        Committed(Written(cleared, id, Held(st.seats[id], guest, invitation, note), Claim(st, id, guest, invitation))))
  {
    hide InOrder, Shares, ClearEntries, ClearFacts, Cleared;
  }

  /** The seat is freed with its log entry and fact; no other row changes. */
  predicate FreesSeat(st: Store, id: Id, note: Option<string>, after: Store)
    requires id in st.seats && !st.seats[id].Free()
  {
    && after.seats == st.seats[id := Seat(st.seats[id].event, None, None, AVAILABLE, note)] && after.order == st.order
    && after.nextTx == st.nextTx + 1 && after.log == st.log + [ClearEntry(st, id)] && after.outbox == st.outbox + [ClearFact(st, id)]
  }

  /** What an assignment requires of its seat. */
  predicate Assignable(s: Seat, guest: Option<Id>, invitation: Option<Id>) {
    || (s.status == AVAILABLE && s.guest == None && s.invitation == None)
    || (s.guest == guest && s.invitation == invitation)
  }

  /** The answer to every assignment and the rows it leaves. */
  ghost predicate Assigns(st: Store, id: Id, guest: Option<Id>, invitation: Option<Id>, note: Option<string>, o: Outcome) {
    && (o.result.Err? ==> o.store == st)
    && if guest.Some? && invitation.Some? then o.result == Err(HolderConflict)
       else if id !in st.seats then o.result == Err(SeatNotFound)
       else if guest.None? && invitation.None? then
         if st.seats[id].Free() then o == Outcome(Ok(Row(id, st.seats[id])), st)
         else FreesSeat(st, id, note, o.store) && o.result == Ok(Row(id, o.store.seats[id]))
       else if !Assignable(st.seats[id], guest, invitation) then o.result == Err(SeatUnavailable)
       else
         exists ids: seq<Id> :: (forall other | other in ids :: other in st.seats && !st.seats[other].Free())
           && MovesHolder(st, id, guest, invitation, note, ids, o.store) && o.result == Ok(Row(id, o.store.seats[id]))
  }

  lemma AssignSeatAnswers(st: Store, id: Id, guest: Option<Id>, invitation: Option<Id>, note: Option<string>)
    requires Sound(st)
    ensures Assigns(st, id, guest, invitation, note, AssignSeat(st, id, guest, invitation, note))
  {
    hide Sound, MovesHolder, FreesSeat, Assignable, AssignableTo, ReleasedAll, ClashesAt;
    if id in st.seats && !(guest.Some? && invitation.Some?) {
      if guest.Some? || invitation.Some? {
        HolderAssigned(st, id, guest, invitation, note);
      } else {
        NobodyAssigned(st, id, note);
      }
    }
  }

  lemma HolderAssigned(st: Store, id: Id, guest: Option<Id>, invitation: Option<Id>, note: Option<string>)
    requires Sound(st) && id in st.seats && (guest.Some? || invitation.Some?) && !(guest.Some? && invitation.Some?)
    ensures Assigns(st, id, guest, invitation, note, AssignSeat(st, id, guest, invitation, note))
  {
    hide *;
    IsOrdered(st);
    HoldMoves(st, id, guest, invitation, note);
    AssignSeatIsSound(st, id, guest, invitation, note);
    HolderOutcome(st, id, guest, invitation, note);
    var ids, o := Conflicting(st, id, guest, invitation), AssignSeat(st, id, guest, invitation, note);
    HolderAssigns(st, id, guest, invitation, note, ids, o);
  }

  lemma HolderOutcome(st: Store, id: Id, guest: Option<Id>, invitation: Option<Id>, note: Option<string>)
    requires id in st.seats && (guest.Some? || invitation.Some?) && !(guest.Some? && invitation.Some?)
    requires AssignSeat(st, id, guest, invitation, note).result != Err(UniqueViolation)
    requires forall other | other in Conflicting(st, id, guest, invitation) :: other in st.seats
    ensures var o, ids, row := AssignSeat(st, id, guest, invitation, note), Conflicting(st, id, guest, invitation),
                               Held(st.seats[id], guest, invitation, note);
      o == if Assignable(st.seats[id], guest, invitation)
           then Outcome(Ok(Row(id, row)), Committed(Written(ReleasedAll(st, ids), id, row, Claim(st, id, guest, invitation))))
           else Outcome(Err(SeatUnavailable), st)
  {
    hide Conflicting, ReleasedAll, ClashesAt, Written, Held, Committed, Claim;
  }

  lemma HolderAssigns(st: Store, id: Id, guest: Option<Id>, invitation: Option<Id>, note: Option<string>, ids: seq<Id>, o: Outcome)
    requires id in st.seats && (guest.Some? || invitation.Some?) && !(guest.Some? && invitation.Some?)
    requires forall other | other in ids :: other in st.seats && !st.seats[other].Free()
    requires Assignable(st.seats[id], guest, invitation) ==>
      MovesHolder(st, id, guest, invitation, note, ids, o.store) && o.result == Ok(Row(id, Held(st.seats[id], guest, invitation, note)))
    requires !Assignable(st.seats[id], guest, invitation) ==> o == Outcome(Err(SeatUnavailable), st)
    ensures Assigns(st, id, guest, invitation, note, o)
  {
    hide Assignable;
    if Assignable(st.seats[id], guest, invitation) {
      GivenSeat(st, id, guest, invitation, note, ids, o.store);
    }
    hide MovesHolder, Held;
  }

  lemma GivenSeat(st: Store, id: Id, guest: Option<Id>, invitation: Option<Id>, note: Option<string>, ids: seq<Id>, after: Store)
    requires id in st.seats && (guest.Some? || invitation.Some?)
    requires forall other | other in ids :: other in st.seats && !st.seats[other].Free()
    requires MovesHolder(st, id, guest, invitation, note, ids, after)
    ensures id in after.seats && after.seats[id] == Held(st.seats[id], guest, invitation, note)
  {
    hide InOrder, Shares;
  }

  lemma NobodyAssigned(st: Store, id: Id, note: Option<string>)
    requires id in st.seats
    ensures Assigns(st, id, None, None, note, AssignSeat(st, id, None, None, note))
  {
    hide Conflicting, ReleasedAll, ClashesAt, MovesHolder;
  }
}
