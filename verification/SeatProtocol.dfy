/**
 The assignment operations as interleaved transactions: reads are of committed rows and may be stale by the time of
 a write, a written row stays locked until its transaction ends, and writes, log entries and facts commit together.
 */
module SeatProtocol {
  import opened Results
  import opened Sequences
  import opened SeatRows
  import opened SeatStore

  /** How far a transaction is; `seat` and the rows of `todo` are as they were read. */
  datatype Phase =
    | Found(id: Id, seat: Seat, guest: Option<Id>, invitation: Option<Id>, note: Option<string>)
    | Clearing(id: Id, seat: Seat, guest: Option<Id>, invitation: Option<Id>, note: Option<string>, todo: seq<Row>)
    | Chosen(id: Id, seat: Seat, event: Id, guestId: Id, invitation: Option<Id>, note: Option<string>)
    | Unassigning(id: Id, seat: Seat)
    | Ready
    | Done

  datatype Tx = Tx(phase: Phase, writes: Seats, entries: seq<Entry>, facts: seq<Fact>)

  /** `used` holds every seat id ever given out. */
  datatype State = State(seats: Seats, log: seq<Entry>, outbox: seq<Fact>, used: set<Id>, txs: map<TxId, Tx>)

  datatype Action =
    | ReadSeat(t: TxId, id: Id, guest: Option<Id>, invitation: Option<Id>, note: Option<string>)
    | ReadConflicts(t: TxId, others: seq<Id>)
    | ClearNext(t: TxId)
    | Claim(t: TxId)
    | ChooseSeat(t: TxId, id: Id, event: Id, guestId: Id, invitation: Option<Id>, note: Option<string>)
    | ClaimForGuest(t: TxId)
    | ReadHeld(t: TxId, id: Id)
    | Unassign(t: TxId)
    | Commit(t: TxId)
    | Abort(t: TxId)
    | Create(id: Id, event: Id, status: SeatStatus)
    | Delete(ids: set<Id>)
    | DeleteEvents(events: set<Id>)

  function Initial(): State {
    State(map[], [], [], {}, map[])
  }

  /** Another transaction has written the row and not ended. */
  predicate Locked(s: State, t: TxId, id: Id) {
    exists u | u in s.txs :: u != t && id in s.txs[u].writes
  }

  predicate AnyLock(s: State, id: Id) {
    exists u | u in s.txs :: id in s.txs[u].writes
  }

  function PhaseOf(s: State, t: TxId): Phase {
    if t in s.txs then s.txs[t].phase else Done
  }

  predicate Holds(s: Seat, guest: Option<Id>, invitation: Option<Id>) {
    (guest.Some? && s.guest == guest) || (invitation.Some? && s.invitation == invitation)
  }

  predicate Conflicts(s: State, p: Phase, id: Id)
    requires p.Found?
  {
    id in s.seats && id != p.id && s.seats[id].event == p.seat.event && Holds(s.seats[id], p.guest, p.invitation)
  }

  predicate Assigns(p: Phase)
    requires p.Found? || p.Clearing?
  {
    p.guest.Some? || p.invitation.Some?
  }

  ghost predicate Enabled(s: State, a: Action) {
    match a
    case ReadSeat(t, id, guest, invitation, note) =>
      && t !in s.txs && id in s.seats && !(guest.Some? && invitation.Some?)
      && (guest.Some? || invitation.Some? || !s.seats[id].Free())
    case ReadConflicts(t, others) =>
      var p := PhaseOf(s, t);
      && p.Found? && Distinct(others)
      && forall id :: id in others <==> Conflicts(s, p, id)
    case ClearNext(t) =>
      var p := PhaseOf(s, t);
      p.Clearing? && p.todo != [] && p.todo[0].id in s.seats && !Locked(s, t, p.todo[0].id)
    case Claim(t) =>
      var p := PhaseOf(s, t);
      && p.Clearing? && p.todo == [] && p.id in s.seats && !Locked(s, t, p.id)
      && s.seats[p.id].event == p.seat.event && (Assigns(p) ==> AssignableTo(s.seats[p.id], p.guest, p.invitation))
    case ChooseSeat(t, id, event, guest, invitation, note) =>
      && t !in s.txs && id in s.seats && s.seats[id].event == event
      && forall other | other in s.seats && s.seats[other].event == event && s.seats[other].guest == Some(guest) ::
        invitation.Some? && s.seats[other].invitation != invitation
    case ClaimForGuest(t) =>
      var p := PhaseOf(s, t);
      && p.Chosen? && p.id in s.seats && !Locked(s, t, p.id)
      && AssignableToGuest(s.seats[p.id], p.event, p.invitation, ReservedFor(p.seat, p.invitation))
    case ReadHeld(t, id) => t !in s.txs && id in s.seats && !s.seats[id].Free()
    case Unassign(t) =>
      var p := PhaseOf(s, t);
      p.Unassigning? && p.id in s.seats && !Locked(s, t, p.id)
    case Commit(t) => PhaseOf(s, t).Ready? && Unique(s.seats + s.txs[t].writes)
    case Abort(t) => t in s.txs
    case Create(id, event, status) => id !in s.used
    case Delete(ids) => forall id | id in ids :: !AnyLock(s, id)
    case DeleteEvents(events) => forall id | id in s.seats && s.seats[id].event in events :: !AnyLock(s, id)
  }

  function At(s: State, t: TxId, tx: Tx): State {
    s.(txs := s.txs[t := tx])
  }

  /** The transaction writes a row, its log entry and, when the entry names anyone, its fact. */
  function Write(tx: Tx, id: Id, row: Seat, e: Entry, next: Phase): Tx {
    Tx(next, tx.writes[id := row], tx.entries + [e], tx.facts + match FactOf(e) case None => [] case Some(f) => [f])
  }

  function RowsOf(seats: Seats, ids: seq<Id>): seq<Row>
    requires forall id | id in ids :: id in seats
  {
    seq(|ids|, k requires 0 <= k < |ids| => Row(ids[k], seats[ids[k]]))
  }

  ghost function Do(s: State, a: Action): State
    requires Enabled(s, a)
  {
    match a
    case ReadSeat(t, id, guest, invitation, note) => At(s, t, Tx(Found(id, s.seats[id], guest, invitation, note), map[], [], []))
    case ReadConflicts(t, others) =>
      var p := PhaseOf(s, t);
      At(s, t, s.txs[t].(phase := Clearing(p.id, p.seat, p.guest, p.invitation, p.note, RowsOf(s.seats, others))))
    case ClearNext(t) =>
      var p := PhaseOf(s, t);
      var id, read := p.todo[0].id, p.todo[0].seat;
      At(s, t, Write(s.txs[t], id, Freed(s.seats[id]), Entry(t, p.seat.event, id, read.guest, read.invitation, Unassigned), p.(todo := p.todo[1..])))
    case Claim(t) =>
      var p := PhaseOf(s, t);
      if Assigns(p) then
        At(s, t, Write(s.txs[t], p.id, Held(s.seats[p.id], p.guest, p.invitation, p.note),
                       Entry(t, p.seat.event, p.id, p.guest, p.invitation, Assigned), Ready))
      else
        At(s, t, Write(s.txs[t], p.id, Freed(s.seats[p.id]).(note := p.note),
                       Entry(t, p.seat.event, p.id, p.seat.guest, p.seat.invitation, Unassigned), Ready))
    case ChooseSeat(t, id, event, guest, invitation, note) =>
      At(s, t, Tx(Chosen(id, s.seats[id], event, guest, invitation, note), map[], [], []))
    case ClaimForGuest(t) =>
      var p := PhaseOf(s, t);
      var note := if p.note.Some? then p.note else s.seats[p.id].note;
      At(s, t, Write(s.txs[t], p.id, Held(s.seats[p.id], Some(p.guestId), p.invitation, note),
                     Entry(t, p.event, p.id, Some(p.guestId), p.invitation, Assigned), Ready))
    case ReadHeld(t, id) => At(s, t, Tx(Unassigning(id, s.seats[id]), map[], [], []))
    case Unassign(t) =>
      var p := PhaseOf(s, t);
      At(s, t, Write(s.txs[t], p.id, Freed(s.seats[p.id]),
                     Entry(t, p.seat.event, p.id, p.seat.guest, p.seat.invitation, Unassigned), Ready))
    case Commit(t) =>
      var tx := s.txs[t];
      State(s.seats + tx.writes, s.log + tx.entries, s.outbox + tx.facts, s.used, s.txs[t := Tx(Done, map[], [], [])])
    case Abort(t) => At(s, t, Tx(Done, map[], [], []))
    case Create(id, event, status) => s.(seats := s.seats[id := Seat(event, None, None, status, None)], used := s.used + {id})
    case Delete(ids) => s.(seats := s.seats - ids)
    case DeleteEvents(events) =>
      s.(seats := map id | id in s.seats && s.seats[id].event !in events :: s.seats[id], log := Without(s.log, events))
  }

  ghost predicate Allowed(s: State, acts: seq<Action>)
    decreases |acts|
  {
    acts == [] || (Enabled(s, acts[0]) && Allowed(Do(s, acts[0]), acts[1..]))
  }

  ghost function After(s: State, acts: seq<Action>): State
    requires Allowed(s, acts)
    decreases |acts|
  {
    if acts == [] then s else After(Do(s, acts[0]), acts[1..])
  }

  /** A run given by its states: one action between each and the next. */
  ghost predicate Chain(states: seq<State>, acts: seq<Action>) {
    |states| == |acts| + 1
    && forall i | 0 <= i < |acts| :: Enabled(states[i], acts[i]) && Do(states[i], acts[i]) == states[i + 1]
  }

  /** The states that a run passes, its first and its last one included. */
  ghost function Trace(s: State, acts: seq<Action>): (states: seq<State>)
    requires Allowed(s, acts)
    ensures Chain(states, acts) && states[0] == s && states[|acts|] == After(s, acts)
    decreases |acts|
  {
    if acts == [] then [s] else
      var rest := Trace(Do(s, acts[0]), acts[1..]);
      TraceStep(s, acts, rest);
      [s] + rest
  }

  lemma TraceStep(s: State, acts: seq<Action>, rest: seq<State>)
    requires acts != [] && Enabled(s, acts[0]) && Chain(rest, acts[1..]) && rest[0] == Do(s, acts[0])
    ensures Chain([s] + rest, acts)
  {
    hide Enabled, Do;
    var states := [s] + rest;
    forall i | 0 <= i < |acts|
      ensures Enabled(states[i], acts[i]) && Do(states[i], acts[i]) == states[i + 1]
    {
      if i > 0 {
        assert acts[i] == acts[1..][i - 1] && states[i] == rest[i - 1] && states[i + 1] == rest[i];
      }
    }
  }

  lemma {:induction false} ChainRuns(states: seq<State>, acts: seq<Action>)
    requires Chain(states, acts)
    ensures Allowed(states[0], acts) && After(states[0], acts) == states[|acts|]
    decreases |acts|
  {
    hide Enabled, Do;
    if acts != [] {
      assert Enabled(states[0], acts[0]) && Do(states[0], acts[0]) == states[1];
      ChainRuns(states[1..], acts[1..]);
    }
  }

  lemma {:induction false} Continue(s: State, first: seq<Action>, rest: seq<Action>)
    requires Allowed(s, first) && Allowed(After(s, first), rest)
    ensures Allowed(s, first + rest) && After(s, first + rest) == After(After(s, first), rest)
    decreases |first|
  {
    hide Enabled, Do;
    if first == [] {
      assert first + rest == rest;
    } else {
      Continue(Do(s, first[0]), first[1..], rest);
      assert (first + rest)[1..] == first[1..] + rest;
    }
  }

  // ---------------------------------------------------------------- the invariant

  /** The committed rows, log and outbox agree. */
  ghost predicate Base(s: State) {
    && Unique(s.seats) && HeldIsAssigned(s.seats) && Replays(s.seats, s.log) && OneEventPerSeat(s.seats, s.log)
    && Fair(s.log) && Paired(s.log, s.outbox)
    && s.seats.Keys <= s.used && (forall e | e in s.log :: e.seat in s.used)
    && (forall f | f in s.outbox :: f.tx in s.txs && s.txs[f.tx] == Tx(Done, map[], [], []))
  }

  /** A pending row frees the seat or keeps whoever the committed row seats. */
  predicate Extends(before: Seat, after: Seat) {
    && (before.guest.Some? ==> after.guest == before.guest)
    && (before.invitation.Some? ==> after.invitation == before.invitation)
  }

  predicate WriteOk(before: Seat, after: Seat, last: Option<Entry>) {
    && after.event == before.event && last.Some? && Tells(last, after)
    && (after.Free() || (Extends(before, after) && after.status == ASSIGNED))
  }

  ghost predicate WorkOk(seats: Seats, t: TxId, tx: Tx) {
    && (forall id | id in tx.writes :: id in seats && WriteOk(seats[id], tx.writes[id], Latest(tx.entries, id)))
    && (forall e | e in tx.entries :: e.tx == t && e.seat in tx.writes && e.event == tx.writes[e.seat].event && FactOf(e).Some?)
    && OncePerSeat(tx.entries) && tx.facts == FactsOf(tx.entries)
  }

  predicate ReadOk(s: State, id: Id, seat: Seat) {
    id in s.used && (id in s.seats ==> s.seats[id].event == seat.event)
  }

  ghost predicate TodoOk(s: State, p: Phase, writes: Seats)
    requires p.Clearing?
  {
    && (forall r | r in p.todo :: ReadOk(s, r.id, r.seat) && r.seat.event == p.seat.event && !r.seat.Free() && r.id !in writes && r.id != p.id)
    && (forall i, j | 0 <= i < j < |p.todo| :: p.todo[i].id != p.todo[j].id)
  }

  ghost predicate PhaseOk(s: State, tx: Tx) {
    var p := tx.phase;
    match p
    case Found(id, seat, guest, invitation, note) => ReadOk(s, id, seat) && tx.writes == map[] && (Assigns(p) || !seat.Free())
    case Clearing(id, seat, guest, invitation, note, todo) =>
      ReadOk(s, id, seat) && id !in tx.writes && (Assigns(p) || !seat.Free()) && TodoOk(s, p, tx.writes)
    case Chosen(id, seat, event, guest, invitation, note) => ReadOk(s, id, seat) && tx.writes == map[]
    case Unassigning(id, seat) => ReadOk(s, id, seat) && !seat.Free() && tx.writes == map[]
    case Ready => true
    case Done => tx == Tx(Done, map[], [], [])
  }

  ghost predicate TxOk(s: State, t: TxId)
    requires t in s.txs
  {
    WorkOk(s.seats, t, s.txs[t]) && PhaseOk(s, s.txs[t])
  }

  /** A row is pending in at most one transaction. */
  ghost predicate Exclusive(s: State) {
    forall t, u, id | t in s.txs && u in s.txs && id in s.txs[t].writes && id in s.txs[u].writes :: t == u
  }

  ghost predicate Inv(s: State) {
    Base(s) && Exclusive(s) && forall t | t in s.txs :: TxOk(s, t)
  }
}
