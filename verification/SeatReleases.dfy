/** Whom a release names: the holder its transaction read, who may have left the seat before the write. */
module SeatReleases {
  import opened Results
  import opened SeatRows
  import opened SeatStore
  import opened SeatProtocol
  import opened SeatInterleaving

  /** The three writes that free a seat: clearing a conflict, an assignment to nobody, and an unassignment. */
  ghost predicate Releases(s: State, a: Action)
    requires Enabled(s, a)
  {
    a.ClearNext? || a.Unassign? || (a.Claim? && !Assigns(PhaseOf(s, a.t)))
  }

  /** The row that the release frees, as its transaction read it. */
  ghost function ReadRow(s: State, a: Action): (r: Row)
    requires Enabled(s, a) && Releases(s, a)
    ensures r.id in s.seats
  {
    var p := PhaseOf(s, a.t);
    if a.ClearNext? then p.todo[0] else Row(p.id, p.seat)
  }

  ghost function ReleaseEntry(s: State, a: Action): Entry
    requires Enabled(s, a) && Releases(s, a)
  {
    var r := ReadRow(s, a);
    Entry(a.t, PhaseOf(s, a.t).seat.event, r.id, r.seat.guest, r.seat.invitation, Unassigned)
  }

  predicate SameHolder(s: Seat, t: Seat) {
    s.guest == t.guest && s.invitation == t.invitation
  }

  /** The seat still has the holder that the releasing transaction read. */
  ghost predicate Stands(s: State, a: Action)
    requires Enabled(s, a) && Releases(s, a)
  {
    SameHolder(ReadRow(s, a).seat, s.seats[ReadRow(s, a).id])
  }

  lemma ReleaseWrites(s: State, a: Action)
    requires Inv(s) && Enabled(s, a) && Releases(s, a)
    ensures var u, r := Do(s, a), ReadRow(s, a);
      && a.t in s.txs && u.seats == s.seats && u.log == s.log && u.txs.Keys == s.txs.Keys && !r.seat.Free()
      && u.txs[a.t].entries == s.txs[a.t].entries + [ReleaseEntry(s, a)] && r.id in u.txs[a.t].writes
      && forall t | t in s.txs && t != a.t :: u.txs[t] == s.txs[t]
  {
    hide Base, WorkOk, Locked, FactOf, AssignableTo;
    assert TxOk(s, a.t);
    if a.ClearNext? {
      assert PhaseOf(s, a.t).todo[0] in PhaseOf(s, a.t).todo;
    }
  }

  // ---------------------------------------------------------------- while every release frees the holder it read

  /** Every release that awaits its commit names the holder of the committed row. */
  ghost predicate PendingNamed(s: State) {
    forall t, e | t in s.txs && e in s.txs[t].entries && e.change == Unassigned ::
      e.seat in s.seats && s.seats[e.seat].guest == e.guest && s.seats[e.seat].invitation == e.invitation
  }

  lemma LockedRowStays(s: State, a: Action, t: TxId, id: Id)
    requires Inv(s) && Enabled(s, a) && t in s.txs && id in s.txs[t].writes && !((a.Commit? || a.Abort?) && a.t == t)
    ensures id in s.seats && id in Do(s, a).seats && Do(s, a).seats[id] == s.seats[id]
  {
    hide Paired, Each, Replays, Unique, HeldIsAssigned, OneEventPerSeat, PhaseOk, FactsOf, WriteOk;
    assert TxOk(s, t);
  }

  lemma NewEntries(s: State, a: Action, t: TxId, e: Entry)
    requires Inv(s) && Enabled(s, a) && t in Do(s, a).txs && e in Do(s, a).txs[t].entries && e.change == Unassigned
    ensures (t in s.txs && e in s.txs[t].entries && !((a.Commit? || a.Abort?) && a.t == t)) || (Releases(s, a) && e == ReleaseEntry(s, a))
  {
    hide Base, WorkOk, Locked, FactOf, AssignableTo, PhaseOk;
  }

  lemma PendingStep(s: State, a: Action)
    requires Inv(s) && Enabled(s, a) && PendingNamed(s) && (Releases(s, a) ==> Stands(s, a))
    ensures PendingNamed(Do(s, a))
  {
    hide Inv, Enabled, Do, Releases;
    var u := Do(s, a);
    forall t, e | t in u.txs && e in u.txs[t].entries && e.change == Unassigned
      ensures e.seat in u.seats && u.seats[e.seat].guest == e.guest && u.seats[e.seat].invitation == e.invitation
    {
      NewEntries(s, a, t, e);
      if Releases(s, a) && e == ReleaseEntry(s, a) {
        ReleaseWrites(s, a);
      } else {
        EntryIsWritten(s, t, e);
        LockedRowStays(s, a, t, e.seat);
      }
    }
  }

  lemma EntryIsWritten(s: State, t: TxId, e: Entry)
    requires Inv(s) && t in s.txs && e in s.txs[t].entries
    ensures e.seat in s.txs[t].writes && FactOf(e).Some?
  {
    hide Base, PhaseOk, FactOf, FactsOf, WriteOk;
    assert TxOk(s, t);
  }

  /** An entry names whom the log had put on the seat exactly when it names the holder of the committed row. */
  lemma NamesTheHolder(s: State, e: Entry)
    requires Inv(s) && e.seat in s.seats && e.change == Unassigned && e.Subject().Some?
    ensures Names(Latest(s.log, e.seat), e) <==> s.seats[e.seat].guest == e.guest && s.seats[e.seat].invitation == e.invitation
  {
    hide Paired, Each, Unique, HeldIsAssigned, OneEventPerSeat, TxOk;
    assert Tells(Latest(s.log, e.seat), s.seats[e.seat]);
  }

  lemma CommitNames(s: State, t: TxId)
    requires Inv(s) && t in s.txs && Named(s.log) && PendingNamed(s)
    ensures Named(s.log + s.txs[t].entries)
  {
    var entries := s.txs[t].entries;
    OneEntryEach(s, t);
    hide Each, Inv, Latest;
    forall e | e in entries
      ensures Names(Latest(s.log, e.seat), e)
    {
      if e.change == Unassigned {
        EntryIsWritten(s, t, e);
        NamesTheHolder(s, e);
      }
    }
    EachAppend(s.log, entries, Names);
  }

  lemma OneEntryEach(s: State, t: TxId)
    requires Inv(s) && t in s.txs
    ensures var entries := s.txs[t].entries; forall i, j | 0 <= i < j < |entries| :: entries[i].seat != entries[j].seat
  {
    hide Base, PhaseOk, FactsOf, WriteOk;
    assert TxOk(s, t);
    assert OncePerSeat(s.txs[t].entries);
    assert forall e | e in s.txs[t].entries :: e.tx == t;
  }

  lemma NamedStep(s: State, a: Action)
    requires Inv(s) && Enabled(s, a) && Named(s.log) && PendingNamed(s)
    ensures Named(Do(s, a).log)
  {
    if a.Commit? {
      CommitNames(s, a.t);
    } else if a.DeleteEvents? {
      LogHasEvents(s);
      EachWithout(s.log, a.events, Names);
    }
  }

  lemma LogHasEvents(s: State)
    requires Inv(s)
    ensures forall e, f | e in s.log && f in s.log && e.seat == f.seat :: e.event == f.event
  {
  }

  // ---------------------------------------------------------------- every run

  /** A run of the protocol by its states and actions. */
  ghost predicate Run(states: seq<State>, acts: seq<Action>) {
    Chain(states, acts) && states[0] == Initial()
  }

  lemma {:induction false} RunInv(states: seq<State>, acts: seq<Action>, k: nat)
    requires Run(states, acts) && k <= |acts|
    ensures Inv(states[k])
  {
    hide Enabled, Do, Inv;
    if k == 0 {
      InitialHolds();
    } else {
      RunInv(states, acts, k - 1);
      StepKeeps(states[k - 1], acts[k - 1]);
    }
  }

  lemma {:induction false} StandingPrefixIsNamed(states: seq<State>, acts: seq<Action>, k: nat)
    requires Run(states, acts) && k <= |acts|
    requires forall j | 0 <= j < k && Releases(states[j], acts[j]) :: Stands(states[j], acts[j])
    ensures Named(states[k].log) && PendingNamed(states[k])
  {
    hide Enabled, Do, Inv, Stands, Releases, Named, PendingNamed;
    if k == 0 {
      InitialIsNamed();
    } else {
      StandingPrefixIsNamed(states, acts, k - 1);
      RunInv(states, acts, k - 1);
      NamedStep(states[k - 1], acts[k - 1]);
      PendingStep(states[k - 1], acts[k - 1]);
    }
  }

  /** In a run whose releases each free the holder they read, every release in the log names whom the log had put there. */
  lemma StandingReleasesAreNamed(acts: seq<Action>)
    requires Allowed(Initial(), acts)
    requires var states := Trace(Initial(), acts);
      forall k | 0 <= k < |acts| && Releases(states[k], acts[k]) :: Stands(states[k], acts[k])
    ensures Named(After(Initial(), acts).log)
  {
    StandingPrefixIsNamed(Trace(Initial(), acts), acts, |acts|);
  }

  lemma InitialIsNamed()
    ensures Named(Initial().log) && PendingNamed(Initial())
  {
  }

  /** Transaction `t` reads the row of a seat that it may free later. */
  predicate Reads(a: Action, t: TxId, id: Id) {
    match a
    case ReadSeat(u, x, _, _, _) => u == t && x == id
    case ReadConflicts(u, others) => u == t && id in others
    case ReadHeld(u, x) => u == t && x == id
    case _ => false
  }

  /** The step commits a write of the seat, creates it or deletes it. */
  predicate Touches(s: State, a: Action, id: Id) {
    match a
    case Commit(t) => t in s.txs && id in s.txs[t].writes
    case Create(x, _, _) => x == id
    case Delete(ids) => id in ids
    case DeleteEvents(events) => id in s.seats && s.seats[id].event in events
    case _ => false
  }

  ghost predicate UntouchedSince(states: seq<State>, acts: seq<Action>, id: Id, i: int, k: nat)
    requires k <= |acts| == |states| - 1 && 0 <= i
  {
    forall j | i < j < k :: !Touches(states[j], acts[j], id)
  }

  /** What transaction `t` read of the seat is fresh before step `k`: no step since then touched the row. */
  ghost predicate Fresh(states: seq<State>, acts: seq<Action>, t: TxId, id: Id, k: nat)
    requires k <= |acts| == |states| - 1
  {
    exists i | 0 <= i < k :: Reads(acts[i], t, id) && UntouchedSince(states, acts, id, i, k)
  }

  /** The transaction remembers the row from a read. */
  predicate Remembers(p: Phase, id: Id, row: Seat) {
    || ((p.Found? || p.Clearing? || p.Unassigning?) && p.id == id && p.seat == row)
    || (p.Clearing? && Row(id, row) in p.todo)
  }

  lemma RowsOfHas(seats: Seats, ids: seq<Id>, r: Row)
    requires (forall id | id in ids :: id in seats) && r in RowsOf(seats, ids)
    ensures r.id in ids && r.seat == seats[r.id]
  {
    var k :| 0 <= k < |ids| && RowsOf(seats, ids)[k] == r;
    assert ids[k] in ids;
  }

  /** A row that is remembered after a step was remembered before it, or has just been read from the committed rows. */
  lemma MemoryStep(s: State, a: Action, t: TxId, id: Id, row: Seat)
    requires Enabled(s, a) && Remembers(PhaseOf(Do(s, a), t), id, row)
    ensures (Remembers(PhaseOf(s, t), id, row) && !Reads(a, t, id)) || (id in s.seats && s.seats[id] == row)
  {
    hide Locked, FactOf, AssignableTo, Unique, AssignableToGuest;
    if a.ReadConflicts? && a.t == t {
      var p := PhaseOf(s, t);
      assert forall other | other in a.others :: Conflicts(s, p, other);
      if Row(id, row) in RowsOf(s.seats, a.others) {
        RowsOfHas(s.seats, a.others, Row(id, row));
      }
    }
  }

  lemma UntouchedStep(s: State, a: Action, id: Id)
    requires Enabled(s, a) && !Touches(s, a, id) && id in s.seats
    ensures id in Do(s, a).seats && Do(s, a).seats[id] == s.seats[id]
  {
  }

  lemma {:induction false} FreshRowStands(states: seq<State>, acts: seq<Action>, t: TxId, id: Id, i: nat, k: nat, row: Seat)
    requires Chain(states, acts) && i < k <= |acts| && Reads(acts[i], t, id) && UntouchedSince(states, acts, id, i, k)
    requires Remembers(PhaseOf(states[k], t), id, row)
    ensures id in states[k].seats && states[k].seats[id] == row
    decreases k
  {
    hide Enabled, Do, Touches, Remembers, Reads;
    var s, a := states[k - 1], acts[k - 1];
    assert Enabled(s, a) && Do(s, a) == states[k];
    MemoryStep(s, a, t, id, row);
    if id !in s.seats || s.seats[id] != row {
      assert k - 1 != i;
      FreshRowStands(states, acts, t, id, i, k - 1, row);
    }
    if k - 1 == i {
      ReadTouchesNothing(s, a, t, id);
    }
    UntouchedStep(s, a, id);
  }

  lemma ReadTouchesNothing(s: State, a: Action, t: TxId, id: Id)
    requires Reads(a, t, id)
    ensures !Touches(s, a, id)
  {
  }

  /** A release of a fresh row frees the holder that was read. */
  lemma FreshReleaseStands(states: seq<State>, acts: seq<Action>, k: nat)
    requires Chain(states, acts) && k < |acts| && Releases(states[k], acts[k])
    requires Fresh(states, acts, acts[k].t, ReadRow(states[k], acts[k]).id, k)
    ensures Stands(states[k], acts[k])
  {
    hide Do, Reads, Locked;
    var s, a := states[k], acts[k];
    var r := ReadRow(s, a);
    var i :| 0 <= i < k && Reads(acts[i], a.t, r.id) && UntouchedSince(states, acts, r.id, i, k);
    if a.ClearNext? {
      assert Row(r.id, r.seat) in PhaseOf(s, a.t).todo;
    }
    FreshRowStands(states, acts, a.t, r.id, i, k, r.seat);
  }

  /**
   In every run whose releasing writes are all of fresh rows, each release in the log carries the guest and the
   invitation of the seat's entry before it, which is the assignment that seated them.
   */
  lemma FreshReleasesAreNamed(acts: seq<Action>)
    requires Allowed(Initial(), acts)
    requires var states := Trace(Initial(), acts);
      forall k | 0 <= k < |acts| && Releases(states[k], acts[k]) :: Fresh(states, acts, acts[k].t, ReadRow(states[k], acts[k]).id, k)
    ensures Named(After(Initial(), acts).log)
  {
    hide Enabled, Do, Inv, Stands, Releases, Named, PendingNamed, Fresh;
    var states := Trace(Initial(), acts);
    forall k | 0 <= k < |acts| && Releases(states[k], acts[k])
      ensures Stands(states[k], acts[k])
    {
      FreshReleaseStands(states, acts, k);
    }
    StandingReleasesAreNamed(acts);
  }

  // ---------------------------------------------------------------- one release

  /** The release awaits its commit over the row it was written to, or its transaction has ended. */
  ghost predicate Awaits(s: State, t: TxId, e: Entry, row: Seat) {
    && t in s.txs
    && (s.txs[t].phase.Done? || (e in s.txs[t].entries && e.seat in s.seats && s.seats[e.seat] == row))
  }

  lemma AwaitsStep(s: State, a: Action, t: TxId, e: Entry, row: Seat)
    requires Inv(s) && Enabled(s, a) && Awaits(s, t, e, row)
    ensures Awaits(Do(s, a), t, e, row)
  {
    EntriesGrow(s, a, t);
    hide Inv, Enabled, Do;
    if e in s.txs[t].entries {
      EntryIsWritten(s, t, e);
      if !((a.Commit? || a.Abort?) && a.t == t) {
        LockedRowStays(s, a, t, e.seat);
      }
    }
  }

  lemma EntriesGrow(s: State, a: Action, t: TxId)
    requires Enabled(s, a) && t in s.txs
    ensures t in Do(s, a).txs
    ensures (a.Commit? || a.Abort?) && a.t == t ==> Do(s, a).txs[t].phase.Done?
    ensures !((a.Commit? || a.Abort?) && a.t == t) ==> s.txs[t].entries <= Do(s, a).txs[t].entries
    ensures s.txs[t].phase.Done? ==> Do(s, a).txs[t].phase.Done?
  {
    hide Locked, FactOf, AssignableTo, Unique, AssignableToGuest, Conflicts;
  }

  lemma {:induction false} AwaitsOn(states: seq<State>, acts: seq<Action>, t: TxId, e: Entry, row: Seat, k: nat, c: nat)
    requires |states| == |acts| + 1 && Run(states, acts) && k <= c <= |acts| && Awaits(states[k], t, e, row)
    ensures Awaits(states[c], t, e, row)
    decreases c
  {
    hide *;
    if k < c {
      AwaitsOn(states, acts, t, e, row, k, c - 1);
      RunStep(states, acts, c - 1);
      AwaitsStep(states[c - 1], acts[c - 1], t, e, row);
    }
  }

  lemma AwaitsUntil(states: seq<State>, acts: seq<Action>, k: nat, c: nat)
    requires Run(states, acts) && k < c <= |acts| && Releases(states[k], acts[k])
    ensures Awaits(states[c], acts[k].t, ReleaseEntry(states[k], acts[k]), states[k].seats[ReadRow(states[k], acts[k]).id])
  {
    RunStep(states, acts, k);
    hide Enabled, Do, Inv, Awaits, ReleaseEntry, ReadRow;
    ReleaseAwaits(states[k], acts[k]);
    AwaitsOn(states, acts, acts[k].t, ReleaseEntry(states[k], acts[k]), states[k].seats[ReadRow(states[k], acts[k]).id], k + 1, c);
  }

  lemma RunStep(states: seq<State>, acts: seq<Action>, k: nat)
    requires Run(states, acts) && k < |acts|
    ensures Inv(states[k]) && Enabled(states[k], acts[k]) && Do(states[k], acts[k]) == states[k + 1]
  {
    hide Enabled, Do, Inv;
    RunInv(states, acts, k);
  }

  lemma ReleaseAwaits(s: State, a: Action)
    requires Inv(s) && Enabled(s, a) && Releases(s, a)
    ensures Awaits(Do(s, a), a.t, ReleaseEntry(s, a), s.seats[ReadRow(s, a).id])
  {
    hide Inv, Enabled, Do, Releases, ReadRow;
    ReleaseWrites(s, a);
  }

  /**
   For each release that commits, in any run at all: its log entry names whom the log had put on the seat exactly when
   the seat, at the write, still had the holder that was read.
   */
  lemma ReleaseNamesIff(acts: seq<Action>, k: nat, c: nat) returns (n: nat)
    requires Allowed(Initial(), acts) && k < c < |acts|
    requires Releases(Trace(Initial(), acts)[k], acts[k]) && acts[c] == Commit(acts[k].t)
    ensures var states := Trace(Initial(), acts); var log := states[c + 1].log;
      && n < |log| && log[n] == ReleaseEntry(states[k], acts[k])
      && (Names(Latest(log[..n], log[n].seat), log[n]) <==> Stands(states[k], acts[k]))
  {
    n := CommittedRelease(Trace(Initial(), acts), acts, k, c);
  }

  lemma CommittedRelease(states: seq<State>, acts: seq<Action>, k: nat, c: nat) returns (n: nat)
    requires Run(states, acts) && k < c < |acts| && Releases(states[k], acts[k]) && acts[c] == Commit(acts[k].t)
    ensures var log := states[c + 1].log;
      && n < |log| && log[n] == ReleaseEntry(states[k], acts[k])
      && (Names(Latest(log[..n], log[n].seat), log[n]) <==> Stands(states[k], acts[k]))
  {
    RunInv(states, acts, k);
    RunInv(states, acts, c);
    AwaitsUntil(states, acts, k, c);
    var s, a, t := states[k], acts[k], acts[k].t;
    var e, row := ReleaseEntry(s, a), s.seats[ReadRow(s, a).id];
    hide Enabled, Do, Inv, Releases, Latest, ReadRow, Awaits, Names;
    ReleaseWrites(s, a);
    assert Enabled(states[c], acts[c]) && Do(states[c], acts[c]) == states[c + 1];
    n := CommittedReleaseNames(states[c], t, e, row);
  }

  lemma CommittedReleaseNames(s: State, t: TxId, e: Entry, row: Seat) returns (n: nat)
    requires Inv(s) && Enabled(s, Commit(t)) && Awaits(s, t, e, row) && e.change == Unassigned
    ensures var log := Do(s, Commit(t)).log;
      n < |log| && log[n] == e && (Names(Latest(log[..n], e.seat), e) <==> e.guest == row.guest && e.invitation == row.invitation)
  {
    hide *;
    CommitsEntries(s, t);
    StillAwaits(s, t, e, row);
    var entries := s.txs[t].entries;
    var m :| 0 <= m < |entries| && entries[m] == e;
    n := |s.log| + m;
    EntryIsWritten(s, t, e);
    SomebodyNamed(e);
    OneEntryEach(s, t);
    assert (s.log + entries)[..n] == s.log + entries[..m];
    NoEarlier(s.log, entries, m);
    NamesTheHolder(s, e);
  }

  lemma StillAwaits(s: State, t: TxId, e: Entry, row: Seat)
    requires t in s.txs && Awaits(s, t, e, row) && !s.txs[t].phase.Done?
    ensures e in s.txs[t].entries && e.seat in s.seats && s.seats[e.seat] == row
  {
  }

  lemma SomebodyNamed(e: Entry)
    requires FactOf(e).Some?
    ensures e.Subject().Some?
  {
  }

  lemma CommitsEntries(s: State, t: TxId)
    requires Enabled(s, Commit(t))
    ensures t in s.txs && !s.txs[t].phase.Done? && Do(s, Commit(t)).log == s.log + s.txs[t].entries
  {
  }

  lemma NoEarlier(log: seq<Entry>, entries: seq<Entry>, m: nat)
    requires m < |entries| && forall i, j | 0 <= i < j < |entries| :: entries[i].seat != entries[j].seat
    ensures Latest(log + entries[..m], entries[m].seat) == Latest(log, entries[m].seat)
  {
    LatestOfBoth(log, entries[..m], entries[m].seat);
  }

  // ---------------------------------------------------------------- what a stale read does

  /** The state after transaction `t` freed the seat and logged the holder of the row it read. */
  function Logged(s: State, t: TxId, id: Id, guest: Id): State
    requires id in s.seats
  {
    State(s.seats[id := Freed(s.seats[id])], s.log + [Entry(t, s.seats[id].event, id, Some(guest), None, Unassigned)],
          s.outbox + [Fact(t, s.seats[id].event, id, guest, Unassigned)], s.used, Ended(s, t))
  }

  /** The row of a seat that only the guest holds. */
  predicate HeldBy(s: State, id: Id, guest: Id) {
    id in s.seats && s.seats[id] == Seat(s.seats[id].event, Some(guest), None, ASSIGNED, None)
  }

  lemma CommitsRelease(s: State, t: TxId, id: Id, guest: Id)
    requires id in s.seats && Unique(s.seats) && t in s.txs
    requires var e := Entry(t, s.seats[id].event, id, Some(guest), None, Unassigned);
      s.txs[t] == Tx(Ready, map[id := Freed(s.seats[id])], [e], [FactOf(e).value])
    ensures Enabled(s, Commit(t)) && Do(s, Commit(t)) == Logged(s, t, id, guest)
  {
    CommitsOne(s, t, id, Freed(s.seats[id]), s.txs[t].entries[0]);
  }

  /** An unassignment that read the guest on the seat, whoever has it now. */
  lemma UnassignRuns(s: State, t: TxId, id: Id, read: Seat) returns (acts: seq<Action>)
    requires id in s.seats && Unique(s.seats) && !AnyLock(s, id) && t in s.txs && s.txs[t] == Tx(Unassigning(id, read), map[], [], [])
    requires read.guest.Some? && read.invitation.None? && read.event == s.seats[id].event
    ensures acts == [Unassign(t), Commit(t)] && Allowed(s, acts) && After(s, acts) == Logged(s, t, id, read.guest.value)
  {
    var e := Entry(t, read.event, id, read.guest, None, Unassigned);
    acts := [Unassign(t), Commit(t)];
    var s1 := At(s, t, Tx(Ready, map[id := Freed(s.seats[id])], [e], [FactOf(e).value]));
    assert map[][id := Freed(s.seats[id])] == map[id := Freed(s.seats[id])] && [] + [e] == [e] && [] + [FactOf(e).value] == [FactOf(e).value];
    assert Enabled(s, acts[0]) && Do(s, acts[0]) == s1;
    CommitsRelease(s1, t, id, read.guest.value);
    LoggedAlike(s, s1, t, id, read.guest.value);
    ChainRuns([s, s1, Logged(s, t, id, read.guest.value)], acts);
  }

  lemma LoggedAlike(s: State, u: State, t: TxId, id: Id, guest: Id)
    requires id in s.seats && t in u.txs && u == At(s, t, u.txs[t])
    ensures Logged(u, t, id, guest) == Logged(s, t, id, guest)
  {
    assert Ended(u, t) == Ended(s, t);
  }

  /** An assignment to nobody that read the guest on the seat, whoever has it now. */
  lemma AssignNobodyRuns(s: State, t: TxId, id: Id, read: Seat) returns (acts: seq<Action>)
    requires id in s.seats && Unique(s.seats) && !AnyLock(s, id) && t in s.txs && s.txs[t] == Tx(Found(id, read, None, None, None), map[], [], [])
    requires read.guest.Some? && read.invitation.None? && read.event == s.seats[id].event
    ensures Allowed(s, acts) && After(s, acts) == Logged(s, t, id, read.guest.value)
  {
    var e := Entry(t, read.event, id, read.guest, None, Unassigned);
    acts := [ReadConflicts(t, []), SeatProtocol.Claim(t), Commit(t)];
    var s1 := At(s, t, Tx(Clearing(id, read, None, None, None, []), map[], [], []));
    var s2 := At(s1, t, Tx(Ready, map[id := Freed(s.seats[id])], [e], [FactOf(e).value]));
    assert RowsOf(s.seats, []) == [];
    assert Enabled(s, acts[0]) && Do(s, acts[0]) == s1;
    assert map[][id := Freed(s.seats[id])] == map[id := Freed(s.seats[id])] && [] + [e] == [e] && [] + [FactOf(e).value] == [FactOf(e).value];
    assert Enabled(s1, acts[1]) && Do(s1, acts[1]) == s2;
    CommitsRelease(s2, t, id, read.guest.value);
    LoggedAlike(s, s1, t, id, read.guest.value);
    LoggedAlike(s1, s2, t, id, read.guest.value);
    ChainRuns([s, s1, s2, Logged(s, t, id, read.guest.value)], acts);
  }

  /** The state after transaction `t` gave the free seat to a guest. */
  function Seated(s: State, t: TxId, id: Id, guest: Id): State
    requires id in s.seats
  {
    State(s.seats[id := Held(s.seats[id], Some(guest), None, s.seats[id].note)],
          s.log + [Entry(t, s.seats[id].event, id, Some(guest), None, Assigned)],
          s.outbox + [Fact(t, s.seats[id].event, id, guest, Assigned)], s.used, Ended(s, t))
  }

  /** The seat passes from one guest to another through two transactions that end before anything else happens. */
  lemma Passes(s: State, id: Id, t: TxId, u: TxId, first: Id, second: Id) returns (acts: seq<Action>)
    requires HeldBy(s, id, first) && Unique(s.seats) && !AnyLock(s, id) && t !in s.txs && u !in s.txs && t != u
    requires forall other | other in s.seats && s.seats[other].event == s.seats[id].event :: s.seats[other].guest != Some(second)
    ensures Allowed(s, acts) && After(s, acts) == Seated(Logged(s, t, id, first), u, id, second)
  {
    var read := [ReadHeld(t, id)];
    var s1 := At(s, t, Tx(Unassigning(id, s.seats[id]), map[], [], []));
    ChainRuns([s, s1], read);
    var frees := UnassignRuns(s1, t, id, s.seats[id]);
    LoggedAlike(s, s1, t, id, first);
    var s2 := Logged(s, t, id, first);
    hide Allowed, After, Enabled, Do;
    FreedIsFree(s, t, id, first);
    var seats := AvailableCanBeAssigned(s2, id, u, second);
    Continue(s1, frees, seats);
    Continue(s, read, frees + seats);
    acts := read + (frees + seats);
  }

  lemma FreedIsFree(s: State, t: TxId, id: Id, guest: Id)
    requires id in s.seats && Unique(s.seats) && !AnyLock(s, id)
    ensures var u := Logged(s, t, id, guest);
      Unique(u.seats) && !AnyLock(u, id) && u.seats[id].Free() && u.seats[id].status == AVAILABLE
  {
  }

  /** The seat is free, and the log's last word on it is the release of a guest who was not the one seated before. */
  ghost predicate Misnamed(s: State, id: Id, first: Id, second: Id) {
    && id in s.seats && s.seats[id].Free() && |s.log| >= 4 && !Named(s.log)
    && s.log[2].seat == id && s.log[2].change == Assigned && s.log[2].guest == Some(second)
    && s.log[3].seat == id && s.log[3].change == Unassigned && s.log[3].guest == Some(first)
  }

  lemma NotNamed(log: seq<Entry>, id: Id, first: Id, second: Id)
    requires |log| >= 4 && first != second
    requires log[2].seat == id && log[2].change == Assigned && log[2].guest == Some(second)
    requires log[3].seat == id && log[3].change == Unassigned && log[3].guest == Some(first)
    ensures !Named(log)
  {
    assert log[..3][2] == log[2];
    if Named(log) {
      EachAt(log, Names, 3);
      assert false;
    }
  }

  /** A seat with a guest, and one available seat more, in an event that nobody else uses. */
  function Opened(id: Id, other: Id, event: Id): State {
    State(map[other := Seat(event, None, None, AVAILABLE, None), id := Seat(event, None, None, AVAILABLE, None)], [], [], {other, id}, map[])
  }

  lemma Opens(id: Id, other: Id, event: Id, first: Id) returns (acts: seq<Action>)
    requires id != other
    ensures Allowed(Initial(), acts) && After(Initial(), acts) == Seated(Opened(id, other, event), 1, id, first)
  {
    var free := Seat(event, None, None, AVAILABLE, None);
    var made := [Create(other, event, AVAILABLE), Create(id, event, AVAILABLE)];
    var s0 := State(map[other := free], [], [], {other}, map[]);
    assert map[][other := free] == map[other := free] && map[other := free][id := free] == map[other := free, id := free];
    assert {} + {other} == {other} && {other} + {id} == {other, id};
    ChainRuns([Initial(), s0, Opened(id, other, event)], made);
    hide Allowed, After, Enabled, Do;
    var seats := AvailableCanBeAssigned(Opened(id, other, event), id, 1, first);
    Continue(Initial(), made, seats);
    acts := made + seats;
  }

  /** Four pieces of a run, end to end. */
  lemma Joined(a: seq<Action>, b: seq<Action>, c: seq<Action>, d: seq<Action>) returns (acts: seq<Action>)
    requires Allowed(Initial(), a) && Allowed(After(Initial(), a), b) && Allowed(After(After(Initial(), a), b), c)
    requires Allowed(After(After(After(Initial(), a), b), c), d)
    ensures Allowed(Initial(), acts) && After(Initial(), acts) == After(After(After(After(Initial(), a), b), c), d)
  {
    hide Allowed, After, Enabled, Do;
    var s := After(Initial(), a);
    Continue(After(s, b), c, d);
    Continue(s, b, c + d);
    Continue(Initial(), a, b + (c + d));
    acts := a + (b + (c + d));
  }

  /** The state in which transaction 2 has read, and the state after the seat passed on behind its back. */
  function Waiting(id: Id, other: Id, event: Id, first: Id, phase: Phase): State {
    At(Seated(Opened(id, other, event), 1, id, first), 2, Tx(phase, map[], [], []))
  }

  function PassedOn(id: Id, other: Id, event: Id, first: Id, second: Id, phase: Phase): State {
    Seated(Logged(Waiting(id, other, event, first, phase), 3, id, first), 4, id, second)
  }

  lemma PassesOn(id: Id, other: Id, event: Id, first: Id, second: Id, phase: Phase) returns (acts: seq<Action>)
    requires id != other && first != second
    ensures var s := Waiting(id, other, event, first, phase);
      Allowed(s, acts) && After(s, acts) == PassedOn(id, other, event, first, second, phase)
  {
    var s := Waiting(id, other, event, first, phase);
    acts := Passes(s, id, 3, 4, first, second);
  }

  lemma PassedOnIs(id: Id, other: Id, event: Id, first: Id, second: Id, phase: Phase)
    requires id != other && first != second
    ensures var s := PassedOn(id, other, event, first, second, phase);
      && id in s.seats && other in s.seats && s.seats[id].event == event && Unique(s.seats) && !AnyLock(s, id) && !AnyLock(s, other)
      && s.seats[other] == Seat(event, None, None, AVAILABLE, None) && s.seats.Keys == {id, other}
      && 2 in s.txs && s.txs[2] == Tx(phase, map[], [], [])
      && s.log == [Entry(1, event, id, Some(first), None, Assigned), Entry(3, event, id, Some(first), None, Unassigned),
                   Entry(4, event, id, Some(second), None, Assigned)]
  {
  }

  function SeatOf(event: Id, guest: Id): Seat {
    Held(Seat(event, None, None, AVAILABLE, None), Some(guest), None, None)
  }

  /** An unassignment frees the seat of a guest it never read, and its log entry names the guest it did read. */
  lemma StaleUnassignFreesAnother(id: Id, other: Id, event: Id, first: Id, second: Id) returns (acts: seq<Action>)
    requires id != other && first != second
    ensures Allowed(Initial(), acts) && Misnamed(After(Initial(), acts), id, first, second)
  {
    var phase := Unassigning(id, SeatOf(event, first));
    var opening := Opens(id, other, event, first);
    var read := [ReadHeld(2, id)];
    ChainRuns([Seated(Opened(id, other, event), 1, id, first), Waiting(id, other, event, first, phase)], read);
    PassedOnIs(id, other, event, first, second, phase);
    hide Allowed, After, Enabled, Do, AnyLock, PassedOn, Waiting, Opened, Each;
    var passed := PassesOn(id, other, event, first, second, phase);
    var released := UnassignRuns(PassedOn(id, other, event, first, second, phase), 2, id, SeatOf(event, first));
    acts := Joined(opening, read, passed, released);
    NotNamed(After(Initial(), acts).log, id, first, second);
  }

  /** So does an assignment to nobody. */
  lemma StaleAssignNobodyFreesAnother(id: Id, other: Id, event: Id, first: Id, second: Id) returns (acts: seq<Action>)
    requires id != other && first != second
    ensures Allowed(Initial(), acts) && Misnamed(After(Initial(), acts), id, first, second)
  {
    var phase := Found(id, SeatOf(event, first), None, None, None);
    var opening := Opens(id, other, event, first);
    var read := [ReadSeat(2, id, None, None, None)];
    ChainRuns([Seated(Opened(id, other, event), 1, id, first), Waiting(id, other, event, first, phase)], read);
    PassedOnIs(id, other, event, first, second, phase);
    hide Allowed, After, Enabled, Do, AnyLock, PassedOn, Waiting, Opened, Each;
    var passed := PassesOn(id, other, event, first, second, phase);
    var released := AssignNobodyRuns(PassedOn(id, other, event, first, second, phase), 2, id, SeatOf(event, first));
    acts := Joined(opening, read, passed, released);
    NotNamed(After(Initial(), acts).log, id, first, second);
  }

  /** So does clearing a seat that conflicts with an assignment: here the guest it was read with gets another seat. */
  lemma StaleClearingFreesAnother(id: Id, other: Id, event: Id, first: Id, second: Id) returns (acts: seq<Action>)
    requires id != other && first != second
    ensures Allowed(Initial(), acts) && Misnamed(After(Initial(), acts), id, first, second)
  {
    var phase := Clearing(other, Seat(event, None, None, AVAILABLE, None), Some(first), None, None, [Row(id, SeatOf(event, first))]);
    var opening := Opens(id, other, event, first);
    var read := ReadsConflict(id, other, event, first);
    PassedOnIs(id, other, event, first, second, phase);
    hide Allowed, After, Enabled, Do, AnyLock, PassedOn, Waiting, Opened, Each;
    var passed := PassesOn(id, other, event, first, second, phase);
    var released := ClearingRuns(PassedOn(id, other, event, first, second, phase), id, other, event, first);
    acts := Joined(opening, read, passed, released);
    NotNamed(After(Initial(), acts).log, id, first, second);
  }

  lemma ReadsConflict(id: Id, other: Id, event: Id, first: Id) returns (acts: seq<Action>)
    requires id != other
    ensures var s := Seated(Opened(id, other, event), 1, id, first);
      var phase := Clearing(other, Seat(event, None, None, AVAILABLE, None), Some(first), None, None, [Row(id, SeatOf(event, first))]);
      Allowed(s, acts) && After(s, acts) == Waiting(id, other, event, first, phase)
  {
    var s := Seated(Opened(id, other, event), 1, id, first);
    var free := Seat(event, None, None, AVAILABLE, None);
    var phase := Clearing(other, free, Some(first), None, None, [Row(id, SeatOf(event, first))]);
    acts := [ReadSeat(2, other, Some(first), None, None), ReadConflicts(2, [id])];
    var s1 := At(s, 2, Tx(Found(other, free, Some(first), None, None), map[], [], []));
    assert Enabled(s, acts[0]) && Do(s, acts[0]) == s1;
    ConflictIsRead(s1, id, other, event, first);
    assert At(s1, 2, Tx(phase, map[], [], [])) == Waiting(id, other, event, first, phase);
    hide Enabled, Do;
    ChainRuns([s, s1, Waiting(id, other, event, first, phase)], acts);
  }

  lemma ConflictIsRead(s: State, id: Id, other: Id, event: Id, first: Id)
    requires id != other && s.seats.Keys == {id, other} && s.seats[id] == SeatOf(event, first) && s.seats[other].event == event
    requires 2 in s.txs && s.txs[2] == Tx(Found(other, s.seats[other], Some(first), None, None), map[], [], [])
    ensures Enabled(s, ReadConflicts(2, [id]))
    ensures Do(s, ReadConflicts(2, [id]))
         == At(s, 2, Tx(Clearing(other, s.seats[other], Some(first), None, None, [Row(id, SeatOf(event, first))]), map[], [], []))
  {
    assert RowsOf(s.seats, [id]) == [Row(id, SeatOf(event, first))];
  }

  lemma ClearingRuns(s: State, id: Id, other: Id, event: Id, first: Id) returns (acts: seq<Action>)
    requires id != other && s.seats.Keys == {id, other} && Unique(s.seats) && !AnyLock(s, id) && !AnyLock(s, other)
    requires s.seats[id].event == event && s.seats[other] == Seat(event, None, None, AVAILABLE, None) && 2 in s.txs
    requires s.txs[2] == Tx(Clearing(other, s.seats[other], Some(first), None, None, [Row(id, SeatOf(event, first))]), map[], [], [])
    ensures Allowed(s, acts)
    ensures var u := After(s, acts);
      && id in u.seats && u.seats[id].Free()
      && u.log == s.log + [Entry(2, event, id, Some(first), None, Unassigned), Entry(2, event, other, Some(first), None, Assigned)]
  {
    acts := [ClearNext(2), SeatProtocol.Claim(2), Commit(2)];
    var e1, e2 := Entry(2, event, id, Some(first), None, Unassigned), Entry(2, event, other, Some(first), None, Assigned);
    var tx1 := Write(s.txs[2], id, Freed(s.seats[id]), e1, Clearing(other, s.seats[other], Some(first), None, None, []));
    var tx2 := Write(tx1, other, Held(s.seats[other], Some(first), None, None), e2, Ready);
    var s1, s2 := At(s, 2, tx1), At(s, 2, tx2);
    ClearsRead(s, id, other, event, first, e1);
    TakesOther(s1, other, event, first, e2);
    assert At(s1, 2, tx2) == s2;
    BothWritten(s, id, other, event, first, s2);
    hide Enabled, Do, Write, Unique, AnyLock;
    ChainRuns([s, s1, s2, Do(s2, Commit(2))], acts);
  }

  lemma ClearsRead(s: State, id: Id, other: Id, event: Id, first: Id, e: Entry)
    requires id != other && s.seats.Keys == {id, other} && !AnyLock(s, id) && 2 in s.txs && s.seats[other].event == event
    requires s.txs[2].phase == Clearing(other, s.seats[other], Some(first), None, None, [Row(id, SeatOf(event, first))])
    requires e == Entry(2, event, id, Some(first), None, Unassigned)
    ensures Enabled(s, ClearNext(2))
    ensures Do(s, ClearNext(2))
         == At(s, 2, Write(s.txs[2], id, Freed(s.seats[id]), e, Clearing(other, s.seats[other], Some(first), None, None, [])))
  {
    hide Write, FactOf;
    assert [Row(id, SeatOf(event, first))][1..] == [];
  }

  lemma TakesOther(s: State, other: Id, event: Id, first: Id, e: Entry)
    requires other in s.seats && s.seats[other] == Seat(event, None, None, AVAILABLE, None) && !AnyLock(s, other) && 2 in s.txs
    requires s.txs[2].phase == Clearing(other, s.seats[other], Some(first), None, None, [])
    requires e == Entry(2, event, other, Some(first), None, Assigned)
    ensures Enabled(s, SeatProtocol.Claim(2))
    ensures Do(s, SeatProtocol.Claim(2)) == At(s, 2, Write(s.txs[2], other, Held(s.seats[other], Some(first), None, None), e, Ready))
  {
    hide Write, FactOf;
  }

  lemma BothWritten(s: State, id: Id, other: Id, event: Id, first: Id, u: State)
    requires id != other && s.seats.Keys == {id, other} && s.seats[id].event == event && s.seats[other] == Seat(event, None, None, AVAILABLE, None)
    requires u.seats == s.seats && u.log == s.log && 2 in u.txs && u.txs[2].phase.Ready?
    requires u.txs[2].writes == map[][id := Freed(s.seats[id])][other := Held(s.seats[other], Some(first), None, None)]
    requires u.txs[2].entries == [] + [Entry(2, event, id, Some(first), None, Unassigned)] + [Entry(2, event, other, Some(first), None, Assigned)]
    ensures Enabled(u, Commit(2))
    ensures var v := Do(u, Commit(2));
      && id in v.seats && v.seats[id].Free()
      && v.log == s.log + [Entry(2, event, id, Some(first), None, Unassigned), Entry(2, event, other, Some(first), None, Assigned)]
  {
    var seats := u.seats + u.txs[2].writes;
    assert seats.Keys == {id, other} && seats[id].Free();
  }
}
