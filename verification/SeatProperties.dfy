/** What the assignment operations keep and achieve, each run as one transaction. */
module SeatProperties {
  import opened Results
  import opened Sequences
  import opened SeatRows
  import opened SeatStore

  /** Holders are unique, held seats are assigned, the log replays to the rows, and each log entry has its fact. */
  ghost predicate Consistent(st: Store) {
    && Unique(st.seats) && HeldIsAssigned(st.seats)
    && Replays(st.seats, st.log) && OneEventPerSeat(st.seats, st.log)
    && Paired(st.log, st.outbox)
  }

  ghost predicate NextIsNew(st: Store) {
    forall f | f in st.outbox :: f.tx < st.nextTx
  }

  /** What holds between transactions. */
  ghost predicate Sound(st: Store) {
    Ordered(st) && Consistent(st) && NextIsNew(st)
  }

  /** Within the running transaction: facts of earlier transactions, and of this one only for the seats in `touched`. */
  ghost predicate Running(st: Store, touched: seq<Id>) {
    forall f | f in st.outbox :: f.tx < st.nextTx || (f.tx == st.nextTx && f.seat in touched)
  }

  /** A row written together with an entry that tells it. */
  lemma WrittenKeeps(st: Store, id: Id, row: Seat, e: Entry, touched: seq<Id>)
    requires Consistent(st) && Running(st, touched) && id in st.seats && id !in touched
    requires row.event == st.seats[id].event && e.seat == id && e.event == row.event && e.tx == st.nextTx
    requires Tells(Some(e), row) && FactOf(e).Some? && (!row.Free() ==> row.status == ASSIGNED)
    requires !ClashesAt(st.seats[id := row], id)
    ensures Consistent(Written(st, id, row, e)) && Running(Written(st, id, row, e), touched + [id])
  {
    var after := Written(st, id, row, e);
    WrittenReplays(st, id, row, e);
    PairedAppend(st.log, st.outbox, e);
    forall a, b | a in after.seats && b in after.seats && a != b
      ensures !Clash(after.seats[a], after.seats[b])
    {
      if a == id {
        assert b in st.seats[id := row];
      } else if b == id {
        assert a in st.seats[id := row];
      }
    }
  }

  lemma WrittenReplays(st: Store, id: Id, row: Seat, e: Entry)
    requires Replays(st.seats, st.log) && OneEventPerSeat(st.seats, st.log) && id in st.seats
    requires row.event == st.seats[id].event && e.seat == id && e.event == row.event && Tells(Some(e), row)
    ensures var after := Written(st, id, row, e); Replays(after.seats, after.log) && OneEventPerSeat(after.seats, after.log)
  {
    var after := Written(st, id, row, e);
    forall x | x in after.seats
      ensures Tells(Latest(after.log, x), after.seats[x])
    {
      LatestOfBoth(st.log, [e], x);
      assert Latest([e], x) == if e.seat == x then Some(e) else None;
    }
  }

  lemma FreedNeverClashes(seats: Seats, id: Id, row: Seat)
    requires row.Free()
    ensures !ClashesAt(seats[id := row], id)
  {
  }

  lemma ReleasedKeeps(st: Store, id: Id, touched: seq<Id>)
    requires Consistent(st) && Running(st, touched) && id in st.seats && id !in touched && !st.seats[id].Free()
    ensures Consistent(Released(st, id)) && Running(Released(st, id), touched + [id])
  {
    FreedNeverClashes(st.seats, id, Freed(st.seats[id]));
    WrittenKeeps(st, id, Freed(st.seats[id]), Release(st, id), touched);
  }

  lemma {:induction false} ReleasedAllKeeps(st: Store, ids: seq<Id>)
    requires Consistent(st) && NextIsNew(st) && Distinct(ids)
    requires forall id | id in ids :: id in st.seats && !st.seats[id].Free()
    ensures Consistent(ReleasedAll(st, ids)) && Running(ReleasedAll(st, ids), ids)
  {
    hide Consistent;
    if ids != [] {
      var init, last := ids[..|ids| - 1], ids[|ids| - 1];
      ReleasedAllKeeps(st, init);
      ReleasedKeeps(ReleasedAll(st, init), last, init);
      assert init + [last] == ids;
    }
  }

  lemma CommittedIsSound(st: Store, after: Store, touched: seq<Id>)
    requires Ordered(st) && Consistent(after) && Running(after, touched)
    requires after.order == st.order && after.seats.Keys == st.seats.Keys
    ensures Sound(Committed(after))
  {
  }

  /** Clearing the conflicts is what keeps an assignment within the unique constraints. */
  lemma ClearedHasRoom(st: Store, id: Id, guest: Option<Id>, invitation: Option<Id>, note: Option<string>)
    requires Ordered(st) && id in st.seats
    ensures var cleared := ReleasedAll(st, Conflicting(st, id, guest, invitation));
      !ClashesAt(cleared.seats[id := Held(st.seats[id], guest, invitation, note)], id)
  {
    var row := Held(st.seats[id], guest, invitation, note);
    var conflicts := Conflicting(st, id, guest, invitation);
    var cleared := ReleasedAll(st, conflicts);
    forall other | other in cleared.seats && other != id
      ensures !Clash(cleared.seats[other], row)
    {
      if other !in conflicts {
        assert other in st.order;
      }
    }
  }

  /** An assignment keeps every invariant, never trips a unique constraint, and changes nothing when it fails. */
  lemma AssignSeatIsSound(st: Store, id: Id, guest: Option<Id>, invitation: Option<Id>, note: Option<string>)
    requires Sound(st)
    ensures var o := AssignSeat(st, id, guest, invitation, note);
      && Sound(o.store) && (o.result.Err? ==> o.store == st) && o.result != Err(UniqueViolation)
  {
    hide Consistent, ClashesAt, Conflicting, ReleasedAll, Written;
    if id in st.seats && !(guest.Some? && invitation.Some?) {
      if guest.None? && invitation.None? {
        if !st.seats[id].Free() {
          AssignSeatReleases(st, id, note);
        }
      } else {
        AssignSeatHolds(st, id, guest, invitation, note);
      }
    }
  }

  lemma AssignSeatReleases(st: Store, id: Id, note: Option<string>)
    requires Sound(st) && id in st.seats && !st.seats[id].Free()
    ensures Sound(Committed(Written(st, id, Freed(st.seats[id]).(note := note), Release(st, id))))
  {
    hide Consistent;
    var row := Freed(st.seats[id]).(note := note);
    FreedNeverClashes(st.seats, id, row);
    WrittenKeeps(st, id, row, Release(st, id), []);
    CommittedIsSound(st, Written(st, id, row, Release(st, id)), [] + [id]);
  }

  lemma ConflictingAreHeld(st: Store, id: Id, guest: Option<Id>, invitation: Option<Id>)
    requires Ordered(st) && id in st.seats
    ensures var ids := Conflicting(st, id, guest, invitation);
      Distinct(ids) && forall other | other in ids :: other in st.seats && other != id && !st.seats[other].Free()
  {
  }

  lemma AssignSeatHolds(st: Store, id: Id, guest: Option<Id>, invitation: Option<Id>, note: Option<string>)
    requires Sound(st) && id in st.seats && (guest.Some? || invitation.Some?)
    ensures var cleared := ReleasedAll(st, Conflicting(st, id, guest, invitation));
      var row := Held(st.seats[id], guest, invitation, note);
      && Sound(Committed(Written(cleared, id, row, Claim(st, id, guest, invitation))))
      && !ClashesAt(cleared.seats[id := row], id)
  {
    hide Consistent, ClashesAt, Conflicting;
    var conflicts := Conflicting(st, id, guest, invitation);
    ConflictingAreHeld(st, id, guest, invitation);
    var cleared := ReleasedAll(st, conflicts);
    var row := Held(st.seats[id], guest, invitation, note);
    ReleasedAllKeeps(st, conflicts);
    ClearedHasRoom(st, id, guest, invitation, note);
    WrittenKeeps(cleared, id, row, Claim(st, id, guest, invitation), conflicts);
    CommittedIsSound(st, Written(cleared, id, row, Claim(st, id, guest, invitation)), conflicts + [id]);
  }

  lemma IsOrdered(st: Store)
    requires Sound(st)
    ensures Ordered(st)
  {
    hide Ordered;
  }

  /** A successful assignment moves the holder: it has this seat, no other seat of the event, and other holders keep theirs. */
  lemma AssignSeatMovesHolder(st: Store, id: Id, guest: Option<Id>, invitation: Option<Id>, note: Option<string>)
    requires Ordered(st) && (guest.Some? || invitation.Some?)
    requires AssignSeat(st, id, guest, invitation, note).result.Ok?
    ensures var after := AssignSeat(st, id, guest, invitation, note).store.seats;
      && after.Keys == st.seats.Keys && id in after
      && after[id].guest == guest && after[id].invitation == invitation && after[id].status == ASSIGNED
      && forall other | other in after && other != id ::
        if Clash(st.seats[other], after[id]) then after[other] == Freed(st.seats[other]) else after[other] == st.seats[other]
  {
    var conflicts := Conflicting(st, id, guest, invitation);
    forall other | other in st.seats && other != id
      ensures other in conflicts <==> Clash(st.seats[other], Held(st.seats[id], guest, invitation, note))
    {
      assert other in st.order;
    }
  }

  /** An assignment to a guest keeps every invariant and changes nothing when it fails. */
  lemma AssignSeatToGuestIsSound(st: Store, event: Id, guest: Id, invitation: Option<Id>, seatId: Option<Id>, note: Option<string>)
    requires Sound(st)
    ensures var o := AssignSeatToGuest(st, event, guest, invitation, seatId, note); Sound(o.store) && (o.result.Err? ==> o.store == st)
  {
    hide Consistent, ClashesAt;
    var o := AssignSeatToGuest(st, event, guest, invitation, seatId, note);
    if o.store != st {
      var id := o.result.value.id;
      var e := Claim(st, id, Some(guest), invitation);
      WrittenKeeps(st, id, o.result.value.seat, e, []);
      CommittedIsSound(st, Written(st, id, o.result.value.seat, e), [] + [id]);
    }
  }

  /** It never takes a seat from anyone: every seat that was held keeps its guest, or gains one on its invitation. */
  lemma AssignSeatToGuestTakesNothing(st: Store, event: Id, guest: Id, invitation: Option<Id>, seatId: Option<Id>, note: Option<string>, id: Id)
    requires id in st.seats
    ensures var after := AssignSeatToGuest(st, event, guest, invitation, seatId, note).store.seats;
      && id in after && !Swaps(st.seats[id], after[id])
      && (st.seats[id].guest.Some? ==> after[id] == st.seats[id])
      && (st.seats[id].invitation.Some? ==> after[id].invitation == st.seats[id].invitation)
  {
    hide ClashesAt, FactOf, Where;
  }

  /** A guest or invitation already seated elsewhere in the event aborts the assignment instead of being moved. */
  lemma SeatedElsewhereAborts(st: Store, event: Id, guest: Id, invitation: Option<Id>, seatId: Option<Id>, note: Option<string>)
    requires Sound(st) && Existing(st, event, guest, invitation).None?
    ensures var o := AssignSeatToGuest(st, event, guest, invitation, seatId, note);
      o.result.Ok? ==> forall other | other in st.seats && st.seats[other].event == event && other != o.result.value.id ::
        st.seats[other].guest != Some(guest) && (invitation.Some? ==> st.seats[other].invitation != invitation)
    ensures var o := AssignSeatToGuest(st, event, guest, invitation, seatId, note);
      o.result == Err(UniqueViolation) ==> o.store == st && ChosenSeat(st, event, seatId).Some? && exists other :: (
        && other in st.seats && other != ChosenSeat(st, event, seatId).value && st.seats[other].event == event
        && (st.seats[other].guest == Some(guest) || (invitation.Some? && st.seats[other].invitation == invitation)))
  {
    hide Sound, FactOf, Existing, FirstAvailable;
    var o := AssignSeatToGuest(st, event, guest, invitation, seatId, note);
    if o.result.Ok? {
      var row := o.result.value;
      forall other | other in st.seats && other != row.id
        ensures !Clash(st.seats[other], row.seat)
      {
        assert other in st.seats[row.id := row.seat];
      }
    }
  }

  /**
   Delivering a guest assignment again, at any time while the guest still has the seat, returns that seat and writes nothing
   at all, whichever seat it asks for.
   */
  lemma RedeliveryIsNoOp(st: Store, id: Id, event: Id, guest: Id, invitation: Option<Id>, seatId: Option<Id>, note: Option<string>)
    requires Sound(st) && id in st.seats && st.seats[id].event == event && st.seats[id].guest == Some(guest)
    requires invitation.Some? ==> st.seats[id].invitation == invitation
    ensures AssignSeatToGuest(st, event, guest, invitation, seatId, note) == Outcome(Ok(Row(id, st.seats[id])), st)
  {
    hide Consistent, ClashesAt, Written;
    OnlySeatOf(st, id, event, guest, invitation);
  }

  lemma OnlySeatOf(st: Store, id: Id, event: Id, guest: Id, invitation: Option<Id>)
    requires Sound(st) && id in st.seats && st.seats[id].event == event && st.seats[id].guest == Some(guest)
    requires invitation.Some? ==> st.seats[id].invitation == invitation
    ensures Existing(st, event, guest, invitation) == Some(id)
  {
    var found := Where(st.seats, st.order, (_, s: Seat) =>
      s.event == event && s.guest == Some(guest) && (invitation.Some? ==> s.invitation == invitation));
    assert id in found;
    assert found[0] in found;
    assert Clash(st.seats[found[0]], st.seats[id]);
  }

  lemma UnassignSeatIsSound(st: Store, id: Id)
    requires Sound(st)
    ensures Sound(UnassignSeat(st, id))
    ensures UnassignSeat(st, id).seats == if id in st.seats && !st.seats[id].Free() then st.seats[id := Freed(st.seats[id])] else st.seats
  {
    hide Consistent;
    if id in st.seats && !st.seats[id].Free() {
      ReleasedKeeps(st, id, []);
      CommittedIsSound(st, Released(st, id), [] + [id]);
    }
  }

  lemma {:induction false} UnassignAllIsSound(st: Store, ids: seq<Id>)
    requires Sound(st) && forall id | id in ids :: id in st.seats && !st.seats[id].Free()
    ensures var after := UnassignAll(st, ids);
      && Sound(after) && after.seats.Keys == st.seats.Keys
      && forall id | id in st.seats :: after.seats[id] == if id in ids then Freed(st.seats[id]) else st.seats[id]
  {
    hide Sound, UnassignSeat;
    if ids != [] {
      UnassignAllIsSound(st, ids[..|ids| - 1]);
      UnassignSeatIsSound(UnassignAll(st, ids[..|ids| - 1]), ids[|ids| - 1]);
    }
  }

  /** Unassigning by guest frees exactly the seats the guest had, in every event. */
  lemma UnassignSeatsByGuestIdFrees(st: Store, guest: Id)
    requires Sound(st)
    ensures var after := UnassignSeatsByGuestId(st, guest);
      && Sound(after) && after.seats.Keys == st.seats.Keys
      && forall id | id in st.seats ::
        after.seats[id] == if st.seats[id].guest == Some(guest) then Freed(st.seats[id]) else st.seats[id]
  {
    hide Consistent, UnassignAll;
    UnassignAllIsSound(st, SeatsOfGuest(st, guest));
  }

  // ---------------------------------------------------------------- runs

  /** The seat-write operations, and the row creations and deletions that the layout operations are made of. */
  datatype Request =
    | Assign(id: Id, guest: Option<Id>, invitation: Option<Id>, note: Option<string>)
    | AssignGuest(event: Id, guestId: Id, invitation: Option<Id>, seatId: Option<Id>, note: Option<string>)
    | Unassign(id: Id)
    | UnassignGuest(guestId: Id)
    | Create(id: Id, event: Id, status: SeatStatus)
    | Delete(ids: set<Id>)
    | DeleteEvents(events: set<Id>)

  /** A created row has an id that was never used. */
  ghost predicate Possible(st: Store, q: Request) {
    q.Create? ==> q.id !in st.seats && forall e | e in st.log :: e.seat != q.id
  }

  /** The rows `keep` selects stay. */
  function Keeping(st: Store, keep: (Id, Seat) -> bool): Store {
    var order := Where(st.seats, st.order, keep);
    st.(seats := map id | id in st.seats && keep(id, st.seats[id]) :: st.seats[id], order := order)
  }

  ghost function Perform(st: Store, q: Request): Store
    requires Possible(st, q)
  {
    match q
    case Assign(id, guest, invitation, note) => AssignSeat(st, id, guest, invitation, note).store
    case AssignGuest(event, guest, invitation, seatId, note) => AssignSeatToGuest(st, event, guest, invitation, seatId, note).store
    case Unassign(id) => UnassignSeat(st, id)
    case UnassignGuest(guest) => UnassignSeatsByGuestId(st, guest)
    case Create(id, event, status) =>
      st.(seats := st.seats[id := Seat(event, None, None, status, None)], order := st.order + [id])
    case Delete(ids) => Keeping(st, (id, s) => id !in ids)
    case DeleteEvents(events) =>
      Keeping(st, (id, s: Seat) => s.event !in events).(log := Without(st.log, events))
  }

  lemma KeepingIsSound(st: Store, keep: (Id, Seat) -> bool)
    requires Sound(st)
    ensures Sound(Keeping(st, keep))
  {
    var after := Keeping(st, keep);
    assert Unique(after.seats) && HeldIsAssigned(after.seats) && Replays(after.seats, after.log);
  }

  lemma CreateIsSound(st: Store, id: Id, event: Id, status: SeatStatus)
    requires Sound(st) && Possible(st, Create(id, event, status))
    ensures Sound(Perform(st, Create(id, event, status)))
  {
    var after := Perform(st, Create(id, event, status));
    assert Ordered(after);
    assert Latest(st.log, id).None?;
  }

  lemma DeleteEventsIsSound(st: Store, events: set<Id>)
    requires Sound(st)
    ensures Sound(Perform(st, DeleteEvents(events)))
  {
    var kept := Keeping(st, (id, s: Seat) => s.event !in events);
    KeepingIsSound(st, (id, s: Seat) => s.event !in events);
    PairedWithout(st.log, st.outbox, events);
    forall id | id in kept.seats
      ensures Tells(Latest(Without(st.log, events), id), kept.seats[id])
    {
      LatestOfWithout(st.log, events, id);
    }
  }

  lemma PerformIsSound(st: Store, q: Request)
    requires Sound(st) && Possible(st, q)
    ensures Sound(Perform(st, q))
  {
    hide Sound, AssignSeat, AssignSeatToGuest, UnassignSeat, UnassignSeatsByGuestId, Keeping;
    match q
    case Assign(id, guest, invitation, note) => AssignSeatIsSound(st, id, guest, invitation, note);
    case AssignGuest(event, guest, invitation, seatId, note) => AssignSeatToGuestIsSound(st, event, guest, invitation, seatId, note);
    case Unassign(id) => UnassignSeatIsSound(st, id);
    case UnassignGuest(guest) => UnassignSeatsByGuestIdFrees(st, guest);
    case Create(id, event, status) => CreateIsSound(st, id, event, status);
    case Delete(ids) => KeepingIsSound(st, (id, s) => id !in ids);
    case DeleteEvents(events) => DeleteEventsIsSound(st, events);
  }

  ghost predicate PossibleRun(st: Store, qs: seq<Request>)
    decreases |qs|
  {
    qs == [] || (Possible(st, qs[0]) && PossibleRun(Perform(st, qs[0]), qs[1..]))
  }

  ghost function Performed(st: Store, qs: seq<Request>): Store
    requires PossibleRun(st, qs)
    decreases |qs|
  {
    if qs == [] then st else Performed(Perform(st, qs[0]), qs[1..])
  }

  lemma {:induction false} ContinueRun(st: Store, first: seq<Request>, rest: seq<Request>)
    requires PossibleRun(st, first) && PossibleRun(Performed(st, first), rest)
    ensures PossibleRun(st, first + rest) && Performed(st, first + rest) == Performed(Performed(st, first), rest)
    decreases |first|
  {
    hide Possible, Perform;
    if first == [] {
      assert first + rest == rest;
    } else {
      ContinueRun(Perform(st, first[0]), first[1..], rest);
      assert (first + rest)[1..] == first[1..] + rest;
    }
  }

  /** Every state that any run of atomic operations reaches is sound. */
  lemma {:induction false} RunsAreSound(st: Store, qs: seq<Request>)
    requires Sound(st) && PossibleRun(st, qs)
    ensures Sound(Performed(st, qs))
    decreases |qs|
  {
    hide Sound, Perform;
    if qs != [] {
      PerformIsSound(st, qs[0]);
      RunsAreSound(Perform(st, qs[0]), qs[1..]);
    }
  }

  /** A guest assignment that comes again after any run that left the guest on the seat does nothing. */
  lemma RedeliveredAfterRun(st: Store, qs: seq<Request>, event: Id, guest: Id, invitation: Option<Id>, seatId: Option<Id>, note: Option<string>)
    requires Sound(st) && AssignSeatToGuest(st, event, guest, invitation, seatId, note).result.Ok?
    requires PossibleRun(AssignSeatToGuest(st, event, guest, invitation, seatId, note).store, qs)
    requires var o := AssignSeatToGuest(st, event, guest, invitation, seatId, note); var later := Performed(o.store, qs);
      && o.result.value.id in later.seats && later.seats[o.result.value.id].event == event
      && later.seats[o.result.value.id].guest == Some(guest)
      && (invitation.Some? ==> later.seats[o.result.value.id].invitation == invitation)
    ensures var o := AssignSeatToGuest(st, event, guest, invitation, seatId, note); var later := Performed(o.store, qs);
      AssignSeatToGuest(later, event, guest, invitation, seatId, note)
      == Outcome(Ok(Row(o.result.value.id, later.seats[o.result.value.id])), later)
  {
    hide *;
    var o := AssignSeatToGuest(st, event, guest, invitation, seatId, note);
    AssignSeatToGuestIsSound(st, event, guest, invitation, seatId, note);
    RunsAreSound(o.store, qs);
    RedeliveryIsNoOp(Performed(o.store, qs), o.result.value.id, event, guest, invitation, seatId, note);
  }

  /** While no seat is created as assigned, a request leaves no assigned seat without a holder. */
  lemma AssignedStaysHeld(st: Store, q: Request)
    requires Ordered(st) && Possible(st, q) && AssignedIsHeld(st.seats) && (q.Create? ==> q.status != ASSIGNED)
    ensures AssignedIsHeld(Perform(st, q).seats)
  {
    hide ClashesAt, Conflicting, FactOf, Existing, FirstAvailable, SeatsOfGuest, AssignSeat, UnassignAll;
    if q.UnassignGuest? {
      UnassignAllKeepsHeld(st, SeatsOfGuest(st, q.guestId));
    } else if q.Assign? {
      AssignSeatStaysHeld(st, q.id, q.guest, q.invitation, q.note);
    }
  }

  lemma AssignSeatStaysHeld(st: Store, id: Id, guest: Option<Id>, invitation: Option<Id>, note: Option<string>)
    requires AssignedIsHeld(st.seats)
    ensures AssignedIsHeld(AssignSeat(st, id, guest, invitation, note).store.seats)
  {
    hide ClashesAt, Conflicting, FactOf;
  }

  lemma {:induction false} UnassignAllKeepsHeld(st: Store, ids: seq<Id>)
    requires AssignedIsHeld(st.seats)
    ensures AssignedIsHeld(UnassignAll(st, ids).seats)
  {
    if ids != [] {
      UnassignAllKeepsHeld(st, ids[..|ids| - 1]);
    }
  }

  /** In a run that creates no assigned seat (only cloning and restoring can), the assigned seats are exactly the held ones. */
  lemma {:induction false} AssignedIffHeld(st: Store, qs: seq<Request>)
    requires Sound(st) && AssignedIsHeld(st.seats) && PossibleRun(st, qs)
    requires forall q | q in qs && q.Create? :: q.status != ASSIGNED
    ensures HeldIsAssigned(Performed(st, qs).seats) && AssignedIsHeld(Performed(st, qs).seats)
    decreases |qs|
  {
    hide Perform, Consistent, HeldIsAssigned, AssignedIsHeld;
    if qs == [] {
      AssignedIsConsistent(st);
    } else {
      PerformIsSound(st, qs[0]);
      AssignedStaysHeld(st, qs[0]);
      AssignedIffHeld(Perform(st, qs[0]), qs[1..]);
    }
  }

  lemma AssignedIsConsistent(st: Store)
    requires Consistent(st)
    ensures HeldIsAssigned(st.seats)
  {
  }
}
