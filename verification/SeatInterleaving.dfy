/** What every interleaving of the assignment transactions keeps. */
module SeatInterleaving {
  import opened Results
  import opened SeatRows
  import opened SeatProtocol

  // ---------------------------------------------------------------- steps inside a transaction

  lemma WriteKeepsWork(seats: Seats, t: TxId, tx: Tx, id: Id, row: Seat, e: Entry, next: Phase)
    requires WorkOk(seats, t, tx) && id !in tx.writes && id in seats
    requires e.tx == t && e.seat == id && e.event == row.event && FactOf(e).Some? && WriteOk(seats[id], row, Some(e))
    ensures WorkOk(seats, t, Write(tx, id, row, e, next))
  {
    hide WriteOk, Latest, FactsOf;
    var after := Write(tx, id, row, e, next);
    OneMore(tx.entries, e);
    forall x | x in after.writes
      ensures x in seats && WriteOk(seats[x], after.writes[x], Latest(after.entries, x))
    {
      assert Latest(after.entries, x) == if x == id then Some(e) else Latest(tx.entries, x);
    }
  }

  lemma OneMore(entries: seq<Entry>, e: Entry)
    ensures forall x :: Latest(entries + [e], x) == if x == e.seat then Some(e) else Latest(entries, x)
    ensures FactsOf(entries + [e]) == FactsOf(entries) + match FactOf(e) case None => [] case Some(f) => [f]
  {
    assert (entries + [e])[..|entries|] == entries;
  }

  /** The steps that only their own transaction sees. */
  predicate Local(a: Action) {
    a.ReadSeat? || a.ReadConflicts? || a.ClearNext? || a.Claim? || a.ChooseSeat? || a.ClaimForGuest? || a.ReadHeld? || a.Unassign? || a.Abort?
  }

  lemma ReadStep(s: State, a: Action)
    requires Inv(s) && Enabled(s, a) && (a.ReadSeat? || a.ChooseSeat? || a.ReadHeld? || a.Abort?)
    ensures TxOk(Do(s, a), a.t)
  {
    hide WorkOk, Paired, Fair, Replays, Unique, HeldIsAssigned, OneEventPerSeat;
    NoWork(s.seats, a.t, Do(s, a).txs[a.t].phase);
  }

  lemma NoWork(seats: Seats, t: TxId, phase: Phase)
    ensures WorkOk(seats, t, Tx(phase, map[], [], []))
  {
  }

  lemma ReadConflictsStep(s: State, a: Action)
    requires Inv(s) && Enabled(s, a) && a.ReadConflicts?
    ensures TxOk(Do(s, a), a.t)
  {
    hide Paired, Fair, Replays, Unique, WorkOk;
    assert TxOk(s, a.t);
    var p := PhaseOf(s, a.t);
    var after := Do(s, a).txs[a.t];
    forall r | r in after.phase.todo
      ensures ReadOk(s, r.id, r.seat) && r.seat.event == p.seat.event && !r.seat.Free() && r.id != p.id
    {
      var k :| 0 <= k < |a.others| && after.phase.todo[k] == r;
      assert a.others[k] in a.others;
      assert Conflicts(s, p, r.id);
    }
    assert WorkOk(s.seats, a.t, after) by {
      SameWork(s.seats, a.t, s.txs[a.t], after);
    }
  }

  lemma SameWork(seats: Seats, t: TxId, before: Tx, after: Tx)
    requires WorkOk(seats, t, before) && after.writes == before.writes && after.entries == before.entries && after.facts == before.facts
    ensures WorkOk(seats, t, after)
  {
  }

  lemma ClearNextStep(s: State, a: Action)
    requires Inv(s) && Enabled(s, a) && a.ClearNext?
    ensures TxOk(Do(s, a), a.t)
  {
    hide Paired, Fair, Replays, Unique, WorkOk;
    assert TxOk(s, a.t);
    var p, tx := PhaseOf(s, a.t), s.txs[a.t];
    var id, read := p.todo[0].id, p.todo[0].seat;
    assert p.todo[0] in p.todo;
    var e := Entry(a.t, p.seat.event, id, read.guest, read.invitation, Unassigned);
    WriteKeepsWork(s.seats, a.t, tx, id, Freed(s.seats[id]), e, p.(todo := p.todo[1..]));
    assert TodoOk(Do(s, a), p.(todo := p.todo[1..]), tx.writes[id := Freed(s.seats[id])]);
  }

  lemma ClaimStep(s: State, a: Action)
    requires Inv(s) && Enabled(s, a) && a.Claim?
    ensures TxOk(Do(s, a), a.t)
  {
    hide Paired, Fair, Replays, Unique, WorkOk;
    assert TxOk(s, a.t);
    var p, tx := PhaseOf(s, a.t), s.txs[a.t];
    if Assigns(p) {
      var e := Entry(a.t, p.seat.event, p.id, p.guest, p.invitation, Assigned);
      WriteKeepsWork(s.seats, a.t, tx, p.id, Held(s.seats[p.id], p.guest, p.invitation, p.note), e, Ready);
    } else {
      var e := Entry(a.t, p.seat.event, p.id, p.seat.guest, p.seat.invitation, Unassigned);
      WriteKeepsWork(s.seats, a.t, tx, p.id, Freed(s.seats[p.id]).(note := p.note), e, Ready);
    }
  }

  lemma ClaimForGuestStep(s: State, a: Action)
    requires Inv(s) && Enabled(s, a) && a.ClaimForGuest?
    ensures TxOk(Do(s, a), a.t)
  {
    hide Paired, Fair, Replays, Unique, WorkOk;
    assert TxOk(s, a.t);
    var p, tx := PhaseOf(s, a.t), s.txs[a.t];
    var note := if p.note.Some? then p.note else s.seats[p.id].note;
    var e := Entry(a.t, p.event, p.id, Some(p.guestId), p.invitation, Assigned);
    WriteKeepsWork(s.seats, a.t, tx, p.id, Held(s.seats[p.id], Some(p.guestId), p.invitation, note), e, Ready);
  }

  lemma UnassignStep(s: State, a: Action)
    requires Inv(s) && Enabled(s, a) && a.Unassign?
    ensures TxOk(Do(s, a), a.t)
  {
    hide Paired, Fair, Replays, Unique, WorkOk;
    assert TxOk(s, a.t);
    var p, tx := PhaseOf(s, a.t), s.txs[a.t];
    var e := Entry(a.t, p.seat.event, p.id, p.seat.guest, p.seat.invitation, Unassigned);
    WriteKeepsWork(s.seats, a.t, tx, p.id, Freed(s.seats[p.id]), e, Ready);
  }

  lemma OwnStep(s: State, a: Action)
    requires Inv(s) && Enabled(s, a) && Local(a)
    ensures TxOk(Do(s, a), a.t)
  {
    hide Inv, Enabled, Do, TxOk;
    match a
    case ReadConflicts(_, _) => ReadConflictsStep(s, a);
    case ClearNext(_) => ClearNextStep(s, a);
    case Claim(_) => ClaimStep(s, a);
    case ClaimForGuest(_) => ClaimForGuestStep(s, a);
    case Unassign(_) => UnassignStep(s, a);
    case _ => ReadStep(s, a);
  }

  lemma LocalFrame(s: State, a: Action)
    requires Enabled(s, a) && Local(a)
    ensures var u := Do(s, a);
      && u.(txs := s.txs) == s && a.t in u.txs && u.txs == s.txs[a.t := u.txs[a.t]]
      && forall id | id in u.txs[a.t].writes :: !Locked(s, a.t, id) || (a.t in s.txs && id in s.txs[a.t].writes)
  {
  }

  lemma OtherTx(s: State, u: State, t: TxId)
    requires t in s.txs && t in u.txs && u.txs[t] == s.txs[t] && TxOk(s, t)
    requires s.used <= u.used
    requires forall id | id in s.used && id in u.seats :: id in s.seats && u.seats[id].event == s.seats[id].event
    requires forall id | id in s.txs[t].writes :: id in s.seats ==> id in u.seats && u.seats[id] == s.seats[id]
    ensures TxOk(u, t)
  {
  }

  lemma LocalKeeps(s: State, a: Action)
    requires Inv(s) && Enabled(s, a) && Local(a)
    ensures Inv(Do(s, a))
  {
    hide Do, Enabled, TxOk, Paired, Fair, Replays, Unique, HeldIsAssigned, OneEventPerSeat;
    LocalFrame(s, a);
    OwnStep(s, a);
    var u := Do(s, a);
    forall t | t in u.txs
      ensures TxOk(u, t)
    {
      if t != a.t {
        OtherTx(s, u, t);
      }
    }
    LocalBase(s, a);
  }

  lemma LocalBase(s: State, a: Action)
    requires Inv(s) && Enabled(s, a) && Local(a)
    ensures Base(Do(s, a))
  {
    hide TxOk, Paired, Fair, Replays, Unique, HeldIsAssigned, OneEventPerSeat;
  }

  // ---------------------------------------------------------------- commit

  /** The entries of a committing transaction tell its rows, after whatever the log said before. */
  lemma CommittedReplays(s: State, t: TxId, id: Id)
    requires Inv(s) && t in s.txs && id in s.seats
    ensures var tx := s.txs[t]; Tells(Latest(s.log + tx.entries, id), (s.seats + tx.writes)[id])
  {
    hide Paired, Fair, Unique, HeldIsAssigned, OneEventPerSeat, PhaseOk;
    var tx := s.txs[t];
    assert TxOk(s, t);
    LatestOfBoth(s.log, tx.entries, id);
  }

  lemma CommittedFair(s: State, t: TxId)
    requires Inv(s) && t in s.txs
    ensures Fair(s.log + s.txs[t].entries)
  {
    hide Paired, Unique, HeldIsAssigned, OneEventPerSeat, PhaseOk, Each;
    var tx := s.txs[t];
    assert TxOk(s, t);
    forall e | e in tx.entries
      ensures Follows(Latest(s.log, e.seat), e)
    {
      EntryTellsWrite(s, t, e);
      assert Tells(Latest(s.log, e.seat), s.seats[e.seat]);
    }
    EachAppend(s.log, tx.entries, Follows);
  }

  /** An entry of a transaction is the only one for its seat, so it is the one that tells the pending row. */
  lemma EntryTellsWrite(s: State, t: TxId, e: Entry)
    requires Inv(s) && t in s.txs && e in s.txs[t].entries
    ensures var tx := s.txs[t]; e.seat in tx.writes && e.seat in s.seats && WriteOk(s.seats[e.seat], tx.writes[e.seat], Some(e))
  {
    hide Paired, Unique, HeldIsAssigned, OneEventPerSeat, PhaseOk, Fair, Replays;
    assert TxOk(s, t);
    var tx := s.txs[t];
    assert Latest(tx.entries, e.seat).value in tx.entries;
  }

  lemma CommittedPaired(s: State, t: TxId)
    requires Inv(s) && t in s.txs && s.txs[t].phase != Done
    ensures var tx := s.txs[t];
      && Paired(s.log + tx.entries, s.outbox + tx.facts)
      && forall f | f in tx.facts :: f.tx == t
  {
    hide Paired, Unique, HeldIsAssigned, OneEventPerSeat, PhaseOk, Fair, Replays;
    assert TxOk(s, t);
    PairedAppendAll(s.log, s.outbox, s.txs[t].entries, t);
    FactsReport(s.txs[t].entries, t);
  }

  lemma CommittedEvents(s: State, t: TxId)
    requires Inv(s) && t in s.txs
    ensures var tx := s.txs[t]; OneEventPerSeat(s.seats + tx.writes, s.log + tx.entries)
    ensures var tx := s.txs[t]; forall e | e in s.log + tx.entries :: e.seat in s.used
  {
    hide Paired, Unique, HeldIsAssigned, PhaseOk, Fair, Replays, Latest, Tells;
    assert TxOk(s, t);
    var tx := s.txs[t];
    var seats, log := s.seats + tx.writes, s.log + tx.entries;
    forall e | e in log
      ensures e.seat in s.used && (e.seat in seats ==> e.event == seats[e.seat].event)
    {
    }
    forall e, f | e in log && f in log && e.seat == f.seat
      ensures e.event == f.event
    {
      if e.seat !in seats {
        assert e in s.log && f in s.log;
      }
    }
  }

  lemma CommitBase(s: State, a: Action)
    requires Inv(s) && Enabled(s, a) && a.Commit?
    ensures Base(Do(s, a))
  {
    hide Paired, Unique, OneEventPerSeat, Fair, Tells, PhaseOk, FactsOf, HeldIsAssigned, WriteOk;
    var u := Do(s, a);
    assert TxOk(s, a.t);
    forall id | id in u.seats
      ensures Tells(Latest(u.log, id), u.seats[id])
    {
      CommittedReplays(s, a.t, id);
    }
    CommittedFair(s, a.t);
    CommittedPaired(s, a.t);
    CommittedEvents(s, a.t);
    CommittedHeld(s, a.t);
  }

  lemma CommittedHeld(s: State, t: TxId)
    requires Inv(s) && t in s.txs
    ensures HeldIsAssigned(s.seats + s.txs[t].writes)
  {
    hide Paired, Unique, OneEventPerSeat, Fair, Tells, PhaseOk, FactsOf, Replays;
    assert TxOk(s, t);
  }

  lemma CommitKeeps(s: State, a: Action)
    requires Inv(s) && Enabled(s, a) && a.Commit?
    ensures Inv(Do(s, a))
  {
    hide Base, TxOk;
    CommitBase(s, a);
    var u := Do(s, a);
    forall t | t in u.txs
      ensures TxOk(u, t)
    {
      if t == a.t {
        FinishedTx(u, t);
      } else {
        CommitOthers(s, a, t);
      }
    }
  }

  lemma FinishedTx(s: State, t: TxId)
    requires t in s.txs && s.txs[t] == Tx(Done, map[], [], [])
    ensures TxOk(s, t)
  {
    NoWork(s.seats, t, Done);
  }

  lemma CommitOthers(s: State, a: Action, t: TxId)
    requires Inv(s) && Enabled(s, a) && a.Commit? && t in s.txs && t != a.t
    ensures TxOk(Do(s, a), t)
  {
    hide Paired, Unique, OneEventPerSeat, Fair, Tells, PhaseOk, FactsOf, Replays, HeldIsAssigned;
    assert TxOk(s, a.t) && TxOk(s, t);
    OtherTx(s, Do(s, a), t);
  }

  // ---------------------------------------------------------------- creating and deleting seats

  lemma CreateKeeps(s: State, a: Action)
    requires Inv(s) && Enabled(s, a) && a.Create?
    ensures Inv(Do(s, a))
  {
    hide Paired, Fair, TxOk;
    var u := Do(s, a);
    assert Latest(s.log, a.id).None?;
    forall t | t in u.txs
      ensures TxOk(u, t)
    {
      CreateOthers(s, a, t);
    }
  }

  lemma CreateOthers(s: State, a: Action, t: TxId)
    requires Inv(s) && Enabled(s, a) && a.Create? && t in s.txs
    ensures TxOk(Do(s, a), t)
  {
    hide Paired, Unique, OneEventPerSeat, Fair, Tells, PhaseOk, FactsOf, Replays, HeldIsAssigned;
    assert TxOk(s, t);
    OtherTx(s, Do(s, a), t);
  }

  lemma DeleteKeeps(s: State, a: Action)
    requires Inv(s) && Enabled(s, a) && (a.Delete? || a.DeleteEvents?)
    ensures Inv(Do(s, a))
  {
    hide TxOk, Base;
    var u := Do(s, a);
    DeleteBase(s, a);
    forall t | t in u.txs
      ensures TxOk(u, t)
    {
      DeleteOthers(s, a, t);
    }
  }

  lemma DeleteBase(s: State, a: Action)
    requires Inv(s) && Enabled(s, a) && (a.Delete? || a.DeleteEvents?)
    ensures Base(Do(s, a))
  {
    hide Paired, Each, TxOk, Tells;
    var u := Do(s, a);
    assert Unique(u.seats) && HeldIsAssigned(u.seats);
    if a.DeleteEvents? {
      EachWithout(s.log, a.events, Follows);
      PairedWithout(s.log, s.outbox, a.events);
      forall id | id in u.seats
        ensures Tells(Latest(u.log, id), u.seats[id])
      {
        LatestOfWithout(s.log, a.events, id);
      }
    }
  }

  lemma DeleteOthers(s: State, a: Action, t: TxId)
    requires Inv(s) && Enabled(s, a) && (a.Delete? || a.DeleteEvents?) && t in s.txs
    ensures TxOk(Do(s, a), t)
  {
    hide Paired, Unique, OneEventPerSeat, Fair, Tells, PhaseOk, FactsOf, Replays, HeldIsAssigned;
    assert TxOk(s, t);
    OtherTx(s, Do(s, a), t);
  }

  // ---------------------------------------------------------------- every run

  lemma StepKeeps(s: State, a: Action)
    requires Inv(s) && Enabled(s, a)
    ensures Inv(Do(s, a))
  {
    hide Inv, Enabled, Do;
    if Local(a) {
      LocalKeeps(s, a);
    } else if a.Commit? {
      CommitKeeps(s, a);
    } else if a.Create? {
      CreateKeeps(s, a);
    } else {
      DeleteKeeps(s, a);
    }
  }

  lemma {:induction false} RunKeeps(s: State, acts: seq<Action>)
    requires Inv(s) && Allowed(s, acts)
    ensures Inv(After(s, acts))
    decreases |acts|
  {
    hide Inv, Enabled, Do;
    if acts != [] {
      StepKeeps(s, acts[0]);
      RunKeeps(Do(s, acts[0]), acts[1..]);
    }
  }

  lemma InitialHolds()
    ensures Inv(Initial())
  {
  }

  /**
   In every state that any interleaving reaches, replaying the log gives each seat's holder, no two seats of an event share
   a guest or an invitation, every held seat is assigned, no logged assignment displaces an earlier one that still
   stood, and each log entry has exactly one fact of the same transaction, seat and change.
   */
  lemma EveryInterleaving(acts: seq<Action>)
    requires Allowed(Initial(), acts)
    ensures var s := After(Initial(), acts);
      && Replays(s.seats, s.log) && Unique(s.seats) && HeldIsAssigned(s.seats) && Fair(s.log) && Paired(s.log, s.outbox)
  {
    InitialHolds();
    RunKeeps(Initial(), acts);
  }

  /** No step turns a seat's guest or invitation directly into a different one. */
  lemma HolderNeverSwaps(acts: seq<Action>, a: Action, id: Id)
    requires Allowed(Initial(), acts) && Enabled(After(Initial(), acts), a)
    requires id in After(Initial(), acts).seats && id in Do(After(Initial(), acts), a).seats
    ensures !Swaps(After(Initial(), acts).seats[id], Do(After(Initial(), acts), a).seats[id])
  {
    InitialHolds();
    RunKeeps(Initial(), acts);
    NoSwap(After(Initial(), acts), a, id);
  }

  lemma NoSwap(s: State, a: Action, id: Id)
    requires Inv(s) && Enabled(s, a) && id in s.seats && id in Do(s, a).seats
    ensures !Swaps(s.seats[id], Do(s, a).seats[id])
    ensures !a.Commit? ==> Do(s, a).seats[id] == s.seats[id]
  {
    hide Paired, Unique, OneEventPerSeat, Fair, Tells, PhaseOk, FactsOf, Replays, HeldIsAssigned;
    if a.Commit? {
      assert TxOk(s, a.t);
    }
  }

  /** Of two logged assignments of a seat to different holders, a release of that seat lies between them: one racer wins. */
  lemma RaceHasOneWinner(acts: seq<Action>, i: nat, j: nat)
    requires Allowed(Initial(), acts)
    requires var log := After(Initial(), acts).log;
      && i < j < |log| && log[i].seat == log[j].seat && log[i].change == Assigned && log[j].change == Assigned
      && !Keeps(log[i], log[j])
    ensures var log := After(Initial(), acts).log;
      exists k | i < k < j :: log[k].seat == log[i].seat && log[k].change == Unassigned
  {
    EveryInterleaving(acts);
    OneWinner(After(Initial(), acts).log, i, j);
  }

  // ---------------------------------------------------------------- seats that no assignment can reach

  /** A free seat that is not available, and that no transaction is about to free. */
  ghost predicate Stuck(s: State, id: Id) {
    && id in s.seats && s.seats[id].Free() && s.seats[id].status != AVAILABLE && id in s.used
    && (forall t | t in s.txs :: id !in s.txs[t].writes && !Frees(s.txs[t].phase, id))
  }

  predicate Frees(p: Phase, id: Id) {
    || (p.Unassigning? && p.id == id)
    || (p.Found? && !Assigns(p) && p.id == id)
    || (p.Clearing? && ((!Assigns(p) && p.id == id) || exists r | r in p.todo :: r.id == id))
  }

  lemma StuckStep(s: State, a: Action, id: Id)
    requires Stuck(s, id) && Enabled(s, a) && id in Do(s, a).seats
    ensures Stuck(Do(s, a), id) && Do(s, a).seats[id] == s.seats[id]
  {
    if a.ReadConflicts? {
      var others := a.others;
      assert id in others <==> Conflicts(s, PhaseOf(s, a.t), id);
    }
  }

  lemma {:induction false} GoneStaysGone(s: State, acts: seq<Action>, id: Id)
    requires id in s.used && id !in s.seats && Allowed(s, acts)
    requires forall t | t in s.txs :: id !in s.txs[t].writes
    ensures id !in After(s, acts).seats
    decreases |acts|
  {
    if acts != [] {
      GoneStep(s, acts[0], id);
      GoneStaysGone(Do(s, acts[0]), acts[1..], id);
    }
  }

  lemma GoneStep(s: State, a: Action, id: Id)
    requires id in s.used && id !in s.seats && Enabled(s, a)
    requires forall t | t in s.txs :: id !in s.txs[t].writes
    ensures var u := Do(s, a); id in u.used && id !in u.seats && forall t | t in u.txs :: id !in u.txs[t].writes
  {
  }

  lemma DeletedStep(s: State, a: Action, id: Id)
    requires Stuck(s, id) && Enabled(s, a) && id !in Do(s, a).seats
    ensures var u := Do(s, a); id in u.used && forall t | t in u.txs :: id !in u.txs[t].writes
  {
  }

  /** No run of assignments, however interleaved, ever changes a stuck seat: it can only be deleted. */
  lemma {:induction false} StuckUntilDeleted(s: State, acts: seq<Action>, id: Id)
    requires Stuck(s, id) && Allowed(s, acts)
    ensures id in After(s, acts).seats ==> After(s, acts).seats[id] == s.seats[id]
    decreases |acts|
  {
    hide Do, Enabled, Stuck;
    if acts != [] {
      var u := Do(s, acts[0]);
      if id in u.seats {
        StuckStep(s, acts[0], id);
        StuckUntilDeleted(u, acts[1..], id);
      } else {
        DeletedStep(s, acts[0], id);
        GoneStaysGone(u, acts[1..], id);
      }
    }
  }

  /** A seat created other than available, as a clone or a restored copy of an assigned seat is, is stuck from the start. */
  lemma CreatedStuck(s: State, id: Id, event: Id, status: SeatStatus)
    requires Inv(s) && Enabled(s, Create(id, event, status)) && status != AVAILABLE
    ensures Stuck(Do(s, Create(id, event, status)), id)
  {
    hide Paired, Unique, OneEventPerSeat, Fair, Tells, FactsOf, Replays, HeldIsAssigned;
    var u := Do(s, Create(id, event, status));
    forall t | t in u.txs
      ensures id !in u.txs[t].writes && !Frees(u.txs[t].phase, id)
    {
      assert TxOk(s, t);
    }
  }

  function Ended(s: State, t: TxId): map<TxId, Tx> {
    s.txs[t := Tx(Done, map[], [], [])]
  }

  predicate CanSeat(s: State, id: Id, t: TxId, guest: Id) {
    && id in s.seats && s.seats[id].Free() && s.seats[id].status == AVAILABLE && !AnyLock(s, id) && t !in s.txs
    && Unique(s.seats)
    && forall other | other in s.seats && s.seats[other].event == s.seats[id].event :: s.seats[other].guest != Some(guest)
  }

  /** An available free seat that no transaction has written can be given to a guest who has none in the event. */
  lemma AvailableCanBeAssigned(s: State, id: Id, t: TxId, guest: Id) returns (acts: seq<Action>)
    requires CanSeat(s, id, t, guest)
    ensures Allowed(s, acts)
    ensures After(s, acts) == State(s.seats[id := Held(s.seats[id], Some(guest), None, s.seats[id].note)],
                                    s.log + [Entry(t, s.seats[id].event, id, Some(guest), None, Assigned)],
                                    s.outbox + [Fact(t, s.seats[id].event, id, guest, Assigned)], s.used, Ended(s, t))
  {
    var row := Held(s.seats[id], Some(guest), None, s.seats[id].note);
    var e := Entry(t, s.seats[id].event, id, Some(guest), None, Assigned);
    acts := [ChooseSeat(t, id, s.seats[id].event, guest, None, None), ClaimForGuest(t), Commit(t)];
    var s1 := At(s, t, Tx(Chosen(id, s.seats[id], s.seats[id].event, guest, None, None), map[], [], []));
    var s2 := At(s1, t, Tx(Ready, map[id := row], [e], [FactOf(e).value]));
    assert Enabled(s, acts[0]) && Do(s, acts[0]) == s1;
    assert Enabled(s1, acts[1]) && Do(s1, acts[1]) == s2 by {
      ClaimsFor(s1, t, row, e);
    }
    var s3 := State(s.seats[id := row], s.log + [e], s.outbox + [FactOf(e).value], s.used, Ended(s, t));
    assert Enabled(s2, acts[2]) && Do(s2, acts[2]) == s3 by {
      CommitsOne(s2, t, id, row, e);
      assert Ended(s2, t) == Ended(s, t);
    }
    ChainRuns([s, s1, s2, s3], acts);
  }

  lemma ClaimsFor(s: State, t: TxId, row: Seat, e: Entry)
    requires t in s.txs && s.txs[t].phase.Chosen? && s.txs[t] == Tx(s.txs[t].phase, map[], [], [])
    requires var p := s.txs[t].phase;
      && p.id in s.seats && p.seat == s.seats[p.id] && p.seat.Free() && p.seat.status == AVAILABLE && p.event == p.seat.event
      && p.invitation.None? && p.note.None? && !AnyLock(s, p.id)
      && row == Held(p.seat, Some(p.guestId), None, p.seat.note) && e == Entry(t, p.event, p.id, Some(p.guestId), None, Assigned)
    ensures Enabled(s, ClaimForGuest(t))
    ensures Do(s, ClaimForGuest(t)) == At(s, t, Tx(Ready, map[s.txs[t].phase.id := row], [e], [FactOf(e).value]))
  {
    var id := s.txs[t].phase.id;
    assert map[][id := row] == map[id := row] && [] + [e] == [e] && [] + [FactOf(e).value] == [FactOf(e).value];
  }

  lemma CommitsOne(s: State, t: TxId, id: Id, row: Seat, e: Entry)
    requires t in s.txs && FactOf(e).Some? && s.txs[t] == Tx(Ready, map[id := row], [e], [FactOf(e).value])
    requires id in s.seats && Unique(s.seats) && row.event == s.seats[id].event && row.invitation.None?
    requires forall other | other in s.seats && s.seats[other].event == row.event && row.guest.Some? :: s.seats[other].guest != row.guest
    ensures Enabled(s, Commit(t))
    ensures Do(s, Commit(t)) == State(s.seats[id := row], s.log + [e], s.outbox + [FactOf(e).value], s.used, Ended(s, t))
  {
    var seats := s.seats + map[id := row];
    assert seats == s.seats[id := row];
  }
}
