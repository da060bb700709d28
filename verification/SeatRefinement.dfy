/** A transaction that runs alone through the interleaved protocol does what the operation's function says. */
module SeatRefinement {
  import opened Results
  import opened Sequences
  import opened SeatRows
  import opened SeatStore
  import opened SeatProperties
  import opened SeatProtocol

  /** The protocol's committed rows are the store's, and no transaction is holding a lock. */
  ghost predicate Shows(s: State, st: Store) {
    && s.seats == st.seats && s.log == st.log && s.outbox == st.outbox && st.nextTx !in s.txs
    && forall t | t in s.txs :: s.txs[t].writes == map[]
  }

  /** The transaction has so far done to the committed rows what leads from `st` to `now`. */
  ghost predicate Did(st: Store, now: Store, tx: Tx) {
    && now.seats == st.seats + tx.writes && now.log == st.log + tx.entries && now.outbox == st.outbox + tx.facts
    && now.nextTx == st.nextTx && tx.writes.Keys <= st.seats.Keys
  }

  lemma DidWrite(st: Store, now: Store, tx: Tx, id: Id, row: Seat, e: Entry, next: Phase)
    requires Did(st, now, tx) && id in st.seats
    ensures Did(st, SeatStore.Written(now, id, row, e), Write(tx, id, row, e, next)) && Write(tx, id, row, e, next).phase == next
  {
    var after := SeatStore.Written(now, id, row, e);
    var fact := match FactOf(e) case None => [] case Some(f) => [f];
    assert after.seats == st.seats + tx.writes[id := row];
    assert after.log == st.log + (tx.entries + [e]);
    assert after.outbox == st.outbox + (tx.facts + fact);
  }

  /** Two states that differ only in the phase and work of transaction `t`. */
  ghost predicate Only(s: State, u: State, t: TxId) {
    t in u.txs && u == s.(txs := s.txs[t := u.txs[t]])
  }

  lemma NobodyElseLocks(s: State, st: Store, u: State, id: Id)
    requires Shows(s, st) && Only(s, u, st.nextTx)
    ensures !Locked(u, st.nextTx, id)
  {
  }

  /** The phase after clearing the first `k` conflicting seats. */
  function ClearingAt(st: Store, id: Id, guest: Option<Id>, invitation: Option<Id>, note: Option<string>, ids: seq<Id>, k: nat): Phase
    requires id in st.seats && k <= |ids| && forall other | other in ids :: other in st.seats
  {
    Clearing(id, st.seats[id], guest, invitation, note, RowsOf(st.seats, ids)[k..])
  }

  lemma ClearDoes(u: State, t: TxId, p: Phase, other: Id)
    requires t in u.txs && u.txs[t].phase == p && p.Clearing? && p.todo != [] && p.todo[0].id == other && other in u.seats && !Locked(u, t, other)
    ensures Enabled(u, ClearNext(t))
    ensures Do(u, ClearNext(t)) == At(u, t, Write(u.txs[t], other, Freed(u.seats[other]),
      Entry(t, p.seat.event, other, p.todo[0].seat.guest, p.todo[0].seat.invitation, Unassigned), p.(todo := p.todo[1..])))
  {
    hide Locked, Write;
  }

  lemma ClearOne(s: State, st: Store, u: State, id: Id, guest: Option<Id>, invitation: Option<Id>, note: Option<string>, ids: seq<Id>, k: nat)
    requires Shows(s, st) && Only(s, u, st.nextTx) && id in st.seats && Distinct(ids) && k < |ids|
    requires forall other | other in ids :: other in st.seats && st.seats[other].event == st.seats[id].event
    requires u.txs[st.nextTx].phase == ClearingAt(st, id, guest, invitation, note, ids, k)
    requires Did(st, ReleasedAll(st, ids[..k]), u.txs[st.nextTx])
    ensures Enabled(u, ClearNext(st.nextTx))
    ensures var v := Do(u, ClearNext(st.nextTx));
      && Only(s, v, st.nextTx) && v.txs[st.nextTx].phase == ClearingAt(st, id, guest, invitation, note, ids, k + 1)
      && Did(st, ReleasedAll(st, ids[..k + 1]), v.txs[st.nextTx])
  {
    var t, other := st.nextTx, ids[k];
    var row := st.seats[other];
    ReleasedOneMore(st, ids, k);
    TodoAt(st, id, guest, invitation, note, ids, k);
    OnlySeats(s, st, u);
    assert other in ids;
    hide *;
    NobodyElseLocks(s, st, u, other);
    var next := ClearingAt(st, id, guest, invitation, note, ids, k + 1);
    var e := Entry(t, row.event, other, row.guest, row.invitation, Unassigned);
    ClearDoes(u, t, u.txs[t].phase, other);
    DidWrite(st, ReleasedAll(st, ids[..k]), u.txs[t], other, Freed(row), e, next);
    OnlyStays(s, u, t, Write(u.txs[t], other, Freed(row), e, next));
  }

  lemma OnlySeats(s: State, st: Store, u: State)
    requires Shows(s, st) && Only(s, u, st.nextTx)
    ensures st.nextTx in u.txs && u.seats == st.seats
  {
  }

  lemma OnlyStays(s: State, u: State, t: TxId, tx: Tx)
    requires Only(s, u, t)
    ensures Only(s, At(u, t, tx), t) && At(u, t, tx).txs[t] == tx
  {
    assert u.txs[t := tx] == s.txs[t := tx];
  }

  lemma TodoAt(st: Store, id: Id, guest: Option<Id>, invitation: Option<Id>, note: Option<string>, ids: seq<Id>, k: nat)
    requires id in st.seats && k < |ids| && forall other | other in ids :: other in st.seats
    requires st.seats[ids[k]].event == st.seats[id].event
    ensures var p := ClearingAt(st, id, guest, invitation, note, ids, k);
      && p.Clearing? && p.todo != [] && p.todo[0] == Row(ids[k], st.seats[ids[k]]) && p.seat.event == st.seats[ids[k]].event
      && p.(todo := p.todo[1..]) == ClearingAt(st, id, guest, invitation, note, ids, k + 1)
  {
    assert RowsOf(st.seats, ids)[k..][1..] == RowsOf(st.seats, ids)[k + 1..];
  }

  lemma {:induction false} ClearRest(s: State, st: Store, u: State, id: Id, guest: Option<Id>, invitation: Option<Id>, note: Option<string>,
                                     ids: seq<Id>, k: nat)
    returns (acts: seq<Action>)
    requires Shows(s, st) && Only(s, u, st.nextTx) && id in st.seats && Distinct(ids) && k <= |ids|
    requires forall other | other in ids :: other in st.seats && st.seats[other].event == st.seats[id].event
    requires u.txs[st.nextTx].phase == ClearingAt(st, id, guest, invitation, note, ids, k)
    requires Did(st, ReleasedAll(st, ids[..k]), u.txs[st.nextTx])
    ensures Allowed(u, acts) && Only(s, After(u, acts), st.nextTx)
    ensures After(u, acts).txs[st.nextTx].phase == ClearingAt(st, id, guest, invitation, note, ids, |ids|)
    ensures Did(st, ReleasedAll(st, ids), After(u, acts).txs[st.nextTx])
    decreases |ids| - k
  {
    hide Only, Did, ClearingAt, Shows, Enabled, Do, ReleasedAll;
    if k == |ids| {
      acts := [];
      assert ids[..k] == ids;
    } else {
      ClearOne(s, st, u, id, guest, invitation, note, ids, k);
      var rest := ClearRest(s, st, Do(u, ClearNext(st.nextTx)), id, guest, invitation, note, ids, k + 1);
      acts := [ClearNext(st.nextTx)] + rest;
      assert acts[1..] == rest;
    }
  }

  lemma StartAssign(s: State, st: Store, id: Id, guest: Option<Id>, invitation: Option<Id>, note: Option<string>) returns (acts: seq<Action>)
    requires Shows(s, st) && Ordered(st) && id in st.seats && (guest.Some? || invitation.Some?) && !(guest.Some? && invitation.Some?)
    ensures Allowed(s, acts) && Only(s, After(s, acts), st.nextTx)
    ensures var ids := Conflicting(st, id, guest, invitation); var tx := After(s, acts).txs[st.nextTx];
      && Distinct(ids) && (forall other | other in ids :: other in st.seats && st.seats[other].event == st.seats[id].event)
      && tx == Tx(ClearingAt(st, id, guest, invitation, note, ids, 0), map[], [], [])
  {
    hide Locked;
    var t, ids := st.nextTx, Conflicting(st, id, guest, invitation);
    acts := [ReadSeat(t, id, guest, invitation, note), ReadConflicts(t, ids)];
    var s1 := At(s, t, Tx(Found(id, st.seats[id], guest, invitation, note), map[], [], []));
    forall other
      ensures other in ids <==> Conflicts(s1, PhaseOf(s1, t), other)
    {
      assert other in st.seats ==> other in st.order;
    }
    assert RowsOf(st.seats, ids)[0..] == RowsOf(st.seats, ids);
    var s2 := At(s1, t, Tx(ClearingAt(st, id, guest, invitation, note, ids, 0), map[], [], []));
    ChainRuns([s, s1, s2], acts);
  }

  /** The committed rows, log and outbox are those of the store. */
  ghost predicate EndsLike(s: State, st: Store) {
    s.seats == st.seats && s.log == st.log && s.outbox == st.outbox
  }

  /** Of the transactions only `t` has changed: it has ended. */
  ghost predicate Ends(s: State, u: State, t: TxId) {
    u.txs == s.txs[t := Tx(Done, map[], [], [])]
  }

  lemma EndsAlike(s: State, u: State, v: State, t: TxId)
    requires Only(s, u, t) && Ends(u, v, t)
    ensures Ends(s, v, t)
  {
    assert s.txs[t := u.txs[t]][t := Tx(Done, map[], [], [])] == s.txs[t := Tx(Done, map[], [], [])];
  }

  lemma CommitAlone(s: State, st: Store, u: State, now: Store)
    requires Shows(s, st) && Only(s, u, st.nextTx) && u.txs[st.nextTx].phase.Ready? && Did(st, now, u.txs[st.nextTx]) && Unique(now.seats)
    ensures Enabled(u, Commit(st.nextTx)) && EndsLike(Do(u, Commit(st.nextTx)), now) && Ends(u, Do(u, Commit(st.nextTx)), st.nextTx)
  {
    hide Locked;
  }

  /** The last write of a transaction, and its commit. */
  lemma WriteAndCommit(s: State, st: Store, u: State, now: Store, a: Action, id: Id, row: Seat, e: Entry) returns (acts: seq<Action>)
    requires Shows(s, st) && Only(s, u, st.nextTx) && id in st.seats && Did(st, now, u.txs[st.nextTx])
    requires Enabled(u, a) && Do(u, a) == At(u, st.nextTx, Write(u.txs[st.nextTx], id, row, e, Ready))
    requires Unique(SeatStore.Written(now, id, row, e).seats)
    ensures Allowed(u, acts) && EndsLike(After(u, acts), SeatStore.Written(now, id, row, e)) && Ends(s, After(u, acts), st.nextTx)
  {
    hide *;
    var t := st.nextTx;
    OnlySeats(s, st, u);
    var tx := Write(u.txs[t], id, row, e, Ready);
    DidWrite(st, now, u.txs[t], id, row, e, Ready);
    OnlyStays(s, u, t, tx);
    acts := [a, Commit(t)];
    CommitAlone(s, st, At(u, t, tx), SeatStore.Written(now, id, row, e));
    TwoSteps(u, a, At(u, t, tx), Commit(t));
    EndsAlike(s, At(u, t, tx), Do(At(u, t, tx), Commit(t)), t);
  }

  lemma TwoSteps(s: State, a: Action, u: State, b: Action)
    requires Enabled(s, a) && Do(s, a) == u && Enabled(u, b)
    ensures Allowed(s, [a, b]) && After(s, [a, b]) == Do(u, b)
  {
    ChainRuns([s, u, Do(u, b)], [a, b]);
  }

  /** The first step of a transaction, a read that starts it. */
  lemma Starts(s: State, st: Store, a: Action, phase: Phase)
    requires Shows(s, st) && Enabled(s, a) && Do(s, a) == At(s, st.nextTx, Tx(phase, map[], [], []))
    ensures Allowed(s, [a]) && After(s, [a]) == Do(s, a) && Only(s, Do(s, a), st.nextTx)
    ensures Do(s, a).txs[st.nextTx] == Tx(phase, map[], [], []) && Did(st, st, Do(s, a).txs[st.nextTx])
  {
    ChainRuns([s, Do(s, a)], [a]);
  }

  lemma ClaimAndCommit(s: State, st: Store, u: State, now: Store, id: Id, guest: Option<Id>, invitation: Option<Id>, note: Option<string>)
    returns (acts: seq<Action>)
    requires Shows(s, st) && Only(s, u, st.nextTx) && id in st.seats && (guest.Some? || invitation.Some?)
    requires u.txs[st.nextTx].phase == Clearing(id, st.seats[id], guest, invitation, note, []) && Did(st, now, u.txs[st.nextTx])
    requires AssignableTo(st.seats[id], guest, invitation)
    requires Unique(SeatStore.Written(now, id, Held(st.seats[id], guest, invitation, note), SeatStore.Claim(st, id, guest, invitation)).seats)
    ensures Allowed(u, acts)
    ensures var row := Held(st.seats[id], guest, invitation, note);
      EndsLike(After(u, acts), SeatStore.Written(now, id, row, SeatStore.Claim(st, id, guest, invitation)))
  {
    var t := st.nextTx;
    var row, e := Held(st.seats[id], guest, invitation, note), SeatStore.Claim(st, id, guest, invitation);
    NobodyElseLocks(s, st, u, id);
    OnlySeats(s, st, u);
    ClaimDoes(u, t, id, guest, invitation, note);
    acts := WriteAndCommit(s, st, u, now, SeatProtocol.Claim(t), id, row, e);
  }

  lemma ClaimDoes(u: State, t: TxId, id: Id, guest: Option<Id>, invitation: Option<Id>, note: Option<string>)
    requires t in u.txs && id in u.seats && u.txs[t].phase == Clearing(id, u.seats[id], guest, invitation, note, []) && !Locked(u, t, id)
    requires guest.Some? || invitation.Some? ==> AssignableTo(u.seats[id], guest, invitation)
    ensures Enabled(u, SeatProtocol.Claim(t))
    ensures guest.Some? || invitation.Some? ==>
      Do(u, SeatProtocol.Claim(t)) == At(u, t, Write(u.txs[t], id, Held(u.seats[id], guest, invitation, note),
                                                     Entry(t, u.seats[id].event, id, guest, invitation, Assigned), Ready))
    ensures guest.None? && invitation.None? ==>
      Do(u, SeatProtocol.Claim(t)) == At(u, t, Write(u.txs[t], id, Freed(u.seats[id]).(note := note),
                                                     Entry(t, u.seats[id].event, id, u.seats[id].guest, u.seats[id].invitation, Unassigned), Ready))
  {
    hide Locked, Write, AssignableTo;
  }

  /**
   Run alone, an assignment takes the protocol from the rows, log and outbox of the store to exactly those that the
   operation's function gives.
   */
  lemma AssignSeatAlone(s: State, st: Store, id: Id, guest: Option<Id>, invitation: Option<Id>, note: Option<string>) returns (acts: seq<Action>)
    requires Shows(s, st) && Sound(st) && (guest.Some? || invitation.Some?) && AssignSeat(st, id, guest, invitation, note).result.Ok?
    ensures var after := AssignSeat(st, id, guest, invitation, note).store;
      Allowed(s, acts) && EndsLike(After(s, acts), after)
  {
    AssignedStore(st, id, guest, invitation, note);
    var ids := Conflicting(st, id, guest, invitation);
    hide *;
    var first := StartAssign(s, st, id, guest, invitation, note);
    var s1 := After(s, first);
    StartedDid(st, s1.txs[st.nextTx], ids);
    var clearing := ClearRest(s, st, s1, id, guest, invitation, note, ids, 0);
    var s2 := After(s1, clearing);
    AllCleared(st, id, guest, invitation, note, ids);
    var last := ClaimAndCommit(s, st, s2, ReleasedAll(st, ids), id, guest, invitation, note);
    Continue(s1, clearing, last);
    Continue(s, first, clearing + last);
    acts := first + (clearing + last);
    var row := Held(st.seats[id], guest, invitation, note);
    SameBut(After(s, acts), SeatStore.Written(ReleasedAll(st, ids), id, row, SeatStore.Claim(st, id, guest, invitation)),
            AssignSeat(st, id, guest, invitation, note).store);
  }

  /**
   Run alone to its claim, an assignment of a holder can claim the seat exactly when the operation's function succeeds;
   where it cannot, aborting it leaves rows, log and outbox as the function does.
   */
  lemma AssignSeatClaimsIff(s: State, st: Store, id: Id, guest: Option<Id>, invitation: Option<Id>, note: Option<string>)
    returns (acts: seq<Action>)
    requires Shows(s, st) && Sound(st) && id in st.seats && (guest.Some? || invitation.Some?) && !(guest.Some? && invitation.Some?)
    ensures Allowed(s, acts)
    ensures var u, t, o := After(s, acts), st.nextTx, AssignSeat(st, id, guest, invitation, note);
      && PhaseOf(u, t) == Clearing(id, st.seats[id], guest, invitation, note, [])
      && (Enabled(u, SeatProtocol.Claim(t)) <==> o.result.Ok?)
      && (o.result.Err? ==> o.result == Err(SeatUnavailable) && Enabled(u, Abort(t)) && EndsLike(Do(u, Abort(t)), o.store))
  {
    IsOrdered(st);
    FailsWhen(st, id, guest, invitation, note);
    var ids := Conflicting(st, id, guest, invitation);
    hide *;
    var first := StartAssign(s, st, id, guest, invitation, note);
    var s1 := After(s, first);
    StartedDid(st, s1.txs[st.nextTx], ids);
    var clearing := ClearRest(s, st, s1, id, guest, invitation, note, ids, 0);
    var u := After(s1, clearing);
    AllCleared(st, id, guest, invitation, note, ids);
    Continue(s, first, clearing);
    acts := first + clearing;
    ClaimsWhen(s, st, u, id, guest, invitation, note);
  }

  lemma FailsWhen(st: Store, id: Id, guest: Option<Id>, invitation: Option<Id>, note: Option<string>)
    requires Sound(st) && id in st.seats && (guest.Some? || invitation.Some?) && !(guest.Some? && invitation.Some?)
    ensures var o := AssignSeat(st, id, guest, invitation, note);
      && (o.result.Ok? <==> AssignableTo(st.seats[id], guest, invitation))
      && (o.result.Err? ==> o.result == Err(SeatUnavailable) && o.store == st)
  {
    hide Sound, ClashesAt, AssignableTo, ReleasedAll, SeatStore.Written;
    AssignSeatIsSound(st, id, guest, invitation, note);
  }

  lemma ClaimsWhen(s: State, st: Store, u: State, id: Id, guest: Option<Id>, invitation: Option<Id>, note: Option<string>)
    requires Shows(s, st) && Only(s, u, st.nextTx) && id in st.seats && (guest.Some? || invitation.Some?)
    requires u.txs[st.nextTx].phase == Clearing(id, st.seats[id], guest, invitation, note, [])
    ensures Enabled(u, SeatProtocol.Claim(st.nextTx)) <==> AssignableTo(st.seats[id], guest, invitation)
    ensures PhaseOf(u, st.nextTx) == Clearing(id, st.seats[id], guest, invitation, note, [])
    ensures Enabled(u, Abort(st.nextTx)) && EndsLike(Do(u, Abort(st.nextTx)), st)
  {
    hide AssignableTo;
    NobodyElseLocks(s, st, u, id);
    hide Locked;
  }

  lemma SameBut(s: State, now: Store, after: Store)
    requires EndsLike(s, now) && after.(nextTx := now.nextTx) == now
    ensures EndsLike(s, after)
  {
  }

  lemma AssignedStore(st: Store, id: Id, guest: Option<Id>, invitation: Option<Id>, note: Option<string>)
    requires Sound(st) && (guest.Some? || invitation.Some?) && AssignSeat(st, id, guest, invitation, note).result.Ok?
    ensures Ordered(st) && id in st.seats && !(guest.Some? && invitation.Some?) && AssignableTo(st.seats[id], guest, invitation)
    ensures var ids := Conflicting(st, id, guest, invitation);
      && (forall other | other in ids :: other in st.seats)
      && var row := Held(st.seats[id], guest, invitation, note);
      var end := SeatStore.Written(ReleasedAll(st, ids), id, row, SeatStore.Claim(st, id, guest, invitation));
      Unique(end.seats) && AssignSeat(st, id, guest, invitation, note).store.(nextTx := end.nextTx) == end
  {
    hide OneEventPerSeat, Replays, Paired, ClashesAt, ReleasedAll, Where, HeldIsAssigned;
    AssignSeatHolds(st, id, guest, invitation, note);
  }

  lemma AllCleared(st: Store, id: Id, guest: Option<Id>, invitation: Option<Id>, note: Option<string>, ids: seq<Id>)
    requires id in st.seats && forall other | other in ids :: other in st.seats
    ensures ClearingAt(st, id, guest, invitation, note, ids, |ids|) == Clearing(id, st.seats[id], guest, invitation, note, [])
  {
  }

  lemma StartedDid(st: Store, tx: Tx, ids: seq<Id>)
    requires tx.writes == map[] && tx.entries == [] && tx.facts == []
    ensures ids[..0] == [] && Did(st, ReleasedAll(st, []), tx)
  {
  }

  // ---------------------------------------------------------------- the other operations

  /** So does an assignment to nobody. */
  lemma AssignNobodyAlone(s: State, st: Store, id: Id, note: Option<string>) returns (acts: seq<Action>)
    requires Shows(s, st) && Sound(st) && id in st.seats && !st.seats[id].Free()
    ensures Allowed(s, acts) && EndsLike(After(s, acts), AssignSeat(st, id, None, None, note).store)
  {
    NobodyStore(st, id, note);
    var t := st.nextTx;
    var read := ReadsNobody(s, st, id, note);
    hide *;
    var u := After(s, read);
    var row, e := Freed(st.seats[id]).(note := note), Release(st, id);
    NobodyElseLocks(s, st, u, id);
    OnlySeats(s, st, u);
    ClaimDoes(u, t, id, None, None, note);
    ReleaseIs(st, id);
    var last := WriteAndCommit(s, st, u, st, SeatProtocol.Claim(t), id, row, e);
    Continue(s, read, last);
    acts := read + last;
    SameBut(After(s, acts), SeatStore.Written(st, id, row, e), AssignSeat(st, id, None, None, note).store);
  }

  lemma ReadsNobody(s: State, st: Store, id: Id, note: Option<string>) returns (acts: seq<Action>)
    requires Shows(s, st) && id in st.seats && !st.seats[id].Free()
    ensures Allowed(s, acts) && Only(s, After(s, acts), st.nextTx)
    ensures After(s, acts).txs[st.nextTx] == Tx(Clearing(id, st.seats[id], None, None, note, []), map[], [], [])
    ensures Did(st, st, After(s, acts).txs[st.nextTx])
  {
    var t := st.nextTx;
    acts := [ReadSeat(t, id, None, None, note), ReadConflicts(t, [])];
    var s1 := At(s, t, Tx(Found(id, st.seats[id], None, None, note), map[], [], []));
    assert RowsOf(s1.seats, []) == [];
    var s2 := At(s1, t, Tx(Clearing(id, st.seats[id], None, None, note, []), map[], [], []));
    assert Enabled(s1, acts[1]) && Do(s1, acts[1]) == s2;
    ChainRuns([s, s1, s2], acts);
  }

  lemma NobodyStore(st: Store, id: Id, note: Option<string>)
    requires Sound(st) && id in st.seats && !st.seats[id].Free()
    ensures var end := SeatStore.Written(st, id, Freed(st.seats[id]).(note := note), Release(st, id));
      Unique(end.seats) && AssignSeat(st, id, None, None, note).store.(nextTx := end.nextTx) == end
  {
    hide OneEventPerSeat, Replays, Paired, HeldIsAssigned;
    AssignSeatIsSound(st, id, None, None, note);
  }

  lemma ReleaseIs(st: Store, id: Id)
    requires id in st.seats
    ensures Release(st, id) == Entry(st.nextTx, st.seats[id].event, id, st.seats[id].guest, st.seats[id].invitation, Unassigned)
  {
  }

  /** And an unassignment. */
  lemma UnassignSeatAlone(s: State, st: Store, id: Id) returns (acts: seq<Action>)
    requires Shows(s, st) && Sound(st) && id in st.seats && !st.seats[id].Free()
    ensures Allowed(s, acts) && EndsLike(After(s, acts), UnassignSeat(st, id)) && Ends(s, After(s, acts), st.nextTx)
  {
    UnassignedStore(st, id);
    var t := st.nextTx;
    var phase := Unassigning(id, st.seats[id]);
    ReadHeldDoes(s, st, id);
    hide *;
    Starts(s, st, ReadHeld(t, id), phase);
    var u := Do(s, ReadHeld(t, id));
    NobodyElseLocks(s, st, u, id);
    OnlySeats(s, st, u);
    UnassignDoes(u, t, id);
    ReleaseIs(st, id);
    var last := WriteAndCommit(s, st, u, st, SeatProtocol.Unassign(t), id, Freed(st.seats[id]), Release(st, id));
    Continue(s, [ReadHeld(t, id)], last);
    acts := [ReadHeld(t, id)] + last;
    SameBut(After(s, acts), SeatStore.Written(st, id, Freed(st.seats[id]), Release(st, id)), UnassignSeat(st, id));
  }

  lemma ReadHeldDoes(s: State, st: Store, id: Id)
    requires Shows(s, st) && id in st.seats && !st.seats[id].Free()
    ensures Enabled(s, ReadHeld(st.nextTx, id))
    ensures Do(s, ReadHeld(st.nextTx, id)) == At(s, st.nextTx, Tx(Unassigning(id, st.seats[id]), map[], [], []))
  {
  }

  lemma UnassignDoes(u: State, t: TxId, id: Id)
    requires t in u.txs && id in u.seats && u.txs[t].phase == Unassigning(id, u.seats[id]) && !Locked(u, t, id)
    ensures Enabled(u, SeatProtocol.Unassign(t))
    ensures Do(u, SeatProtocol.Unassign(t))
         == At(u, t, Write(u.txs[t], id, Freed(u.seats[id]),
                           Entry(t, u.seats[id].event, id, u.seats[id].guest, u.seats[id].invitation, Unassigned), Ready))
  {
    hide Locked, Write;
  }

  lemma UnassignedStore(st: Store, id: Id)
    requires Sound(st) && id in st.seats && !st.seats[id].Free()
    ensures var end := SeatStore.Written(st, id, Freed(st.seats[id]), Release(st, id));
      Unique(end.seats) && UnassignSeat(st, id).(nextTx := end.nextTx) == end
  {
    hide OneEventPerSeat, Replays, Paired, HeldIsAssigned;
    UnassignSeatIsSound(st, id);
  }

  /** And an assignment to a guest that takes a seat. */
  lemma AssignSeatToGuestAlone(s: State, st: Store, event: Id, guest: Id, invitation: Option<Id>, seatId: Option<Id>, note: Option<string>)
    returns (acts: seq<Action>)
    requires Shows(s, st) && Sound(st) && Existing(st, event, guest, invitation).None?
    requires AssignSeatToGuest(st, event, guest, invitation, seatId, note).result.Ok?
    ensures Allowed(s, acts) && EndsLike(After(s, acts), AssignSeatToGuest(st, event, guest, invitation, seatId, note).store)
  {
    var id := TakenStore(st, event, guest, invitation, seatId, note);
    var t := st.nextTx;
    var choose := ChooseSeat(t, id, event, guest, invitation, note);
    NobodyHasOne(st, event, guest, invitation);
    ChooseDoes(s, st, id, event, guest, invitation, note);
    hide *;
    Starts(s, st, choose, Chosen(id, st.seats[id], event, guest, invitation, note));
    var u := Do(s, choose);
    NobodyElseLocks(s, st, u, id);
    OnlySeats(s, st, u);
    ClaimForGuestDoes(u, t, id, event, guest, invitation, note);
    ClaimIs(st, id, Some(guest), invitation);
    var row, e := TakenRow(st.seats[id], guest, invitation, note), SeatStore.Claim(st, id, Some(guest), invitation);
    var last := WriteAndCommit(s, st, u, st, ClaimForGuest(t), id, row, e);
    Continue(s, [choose], last);
    acts := [choose] + last;
    SameBut(After(s, acts), SeatStore.Written(st, id, row, e), AssignSeatToGuest(st, event, guest, invitation, seatId, note).store);
  }

  function TakenRow(s: Seat, guest: Id, invitation: Option<Id>, note: Option<string>): Seat {
    Held(s, Some(guest), invitation, if note.Some? then note else s.note)
  }

  lemma TakenStore(st: Store, event: Id, guest: Id, invitation: Option<Id>, seatId: Option<Id>, note: Option<string>) returns (id: Id)
    requires Sound(st) && Existing(st, event, guest, invitation).None?
    requires AssignSeatToGuest(st, event, guest, invitation, seatId, note).result.Ok?
    ensures id in st.seats && st.seats[id].event == event && AssignableToGuest(st.seats[id], event, invitation, ReservedFor(st.seats[id], invitation))
    ensures var end := SeatStore.Written(st, id, TakenRow(st.seats[id], guest, invitation, note), SeatStore.Claim(st, id, Some(guest), invitation));
      Unique(end.seats) && AssignSeatToGuest(st, event, guest, invitation, seatId, note).store.(nextTx := end.nextTx) == end
  {
    hide OneEventPerSeat, Replays, Paired, HeldIsAssigned, ClashesAt, Existing, FirstAvailable;
    AssignSeatToGuestIsSound(st, event, guest, invitation, seatId, note);
    id := AssignSeatToGuest(st, event, guest, invitation, seatId, note).result.value.id;
  }

  lemma NobodyHasOne(st: Store, event: Id, guest: Id, invitation: Option<Id>)
    requires Ordered(st) && Existing(st, event, guest, invitation).None?
    ensures forall other | other in st.seats && st.seats[other].event == event && st.seats[other].guest == Some(guest) ::
      invitation.Some? && st.seats[other].invitation != invitation
  {
    forall other | other in st.seats && st.seats[other].event == event && st.seats[other].guest == Some(guest)
      ensures invitation.Some? && st.seats[other].invitation != invitation
    {
      assert other in st.order;
    }
  }

  lemma ChooseDoes(s: State, st: Store, id: Id, event: Id, guest: Id, invitation: Option<Id>, note: Option<string>)
    requires Shows(s, st) && id in st.seats && st.seats[id].event == event
    requires forall other | other in st.seats && st.seats[other].event == event && st.seats[other].guest == Some(guest) ::
      invitation.Some? && st.seats[other].invitation != invitation
    ensures var a := ChooseSeat(st.nextTx, id, event, guest, invitation, note);
      Enabled(s, a) && Do(s, a) == At(s, st.nextTx, Tx(Chosen(id, st.seats[id], event, guest, invitation, note), map[], [], []))
  {
  }

  lemma ClaimForGuestDoes(u: State, t: TxId, id: Id, event: Id, guest: Id, invitation: Option<Id>, note: Option<string>)
    requires t in u.txs && id in u.seats && u.txs[t].phase == Chosen(id, u.seats[id], event, guest, invitation, note) && !Locked(u, t, id)
    requires u.seats[id].event == event && AssignableToGuest(u.seats[id], event, invitation, ReservedFor(u.seats[id], invitation))
    ensures Enabled(u, ClaimForGuest(t))
    ensures Do(u, ClaimForGuest(t)) == At(u, t, Write(u.txs[t], id, TakenRow(u.seats[id], guest, invitation, note),
                                                      Entry(t, u.seats[id].event, id, Some(guest), invitation, Assigned), Ready))
  {
    hide Locked, Write, AssignableToGuest;
  }

  lemma ClaimIs(st: Store, id: Id, guest: Option<Id>, invitation: Option<Id>)
    requires id in st.seats
    ensures SeatStore.Claim(st, id, guest, invitation) == Entry(st.nextTx, st.seats[id].event, id, guest, invitation, Assigned)
  {
  }

  // ---------------------------------------------------------------- a sweep that nothing interrupts

  /** The store numbers every transaction after those of the protocol. */
  ghost predicate Quiet(s: State, st: Store) {
    Shows(s, st) && forall t | t in s.txs :: t < st.nextTx
  }

  lemma QuietAgain(s: State, st: Store, u: State, after: Store)
    requires Quiet(s, st) && EndsLike(u, after) && Ends(s, u, st.nextTx) && after.nextTx == st.nextTx + 1
    ensures Quiet(u, after)
  {
  }

  lemma UnassignCounts(st: Store, id: Id)
    requires id in st.seats && !st.seats[id].Free()
    ensures UnassignSeat(st, id).nextTx == st.nextTx + 1
  {
  }

  /** Unassigning seat after seat, with nothing in between, ends like the store's function. */
  lemma {:induction false} UnassignAllAlone(s: State, st: Store, ids: seq<Id>) returns (acts: seq<Action>)
    requires Quiet(s, st) && Sound(st) && forall id | id in ids :: id in st.seats && !st.seats[id].Free()
    requires Distinct(ids)
    ensures Allowed(s, acts) && Quiet(After(s, acts), UnassignAll(st, ids))
  {
    if ids == [] {
      acts := [];
    } else {
      var init, last := ids[..|ids| - 1], ids[|ids| - 1];
      assert last !in init;
      UnassignAllIsSound(st, init);
      var before := UnassignAllAlone(s, st, init);
      var u, middle := After(s, before), UnassignAll(st, init);
      assert UnassignAll(st, ids) == UnassignSeat(middle, last) && Shows(u, middle);
      hide *;
      var rest := UnassignSeatAlone(u, middle, last);
      UnassignCounts(middle, last);
      QuietAgain(u, middle, After(u, rest), UnassignSeat(middle, last));
      Continue(s, before, rest);
      acts := before + rest;
    }
  }

  /** A sweep over a guest's seats that nothing interrupts ends like the store's function. */
  lemma UnassignGuestAlone(s: State, st: Store, guest: Id) returns (acts: seq<Action>)
    requires Quiet(s, st) && Sound(st)
    ensures Allowed(s, acts) && EndsLike(After(s, acts), UnassignSeatsByGuestId(st, guest))
  {
    var ids := SeatsOfGuest(st, guest);
    SeatsOfGuestAre(st, guest);
    hide SeatsOfGuest, Sound, UnassignAll, Allowed, After;
    acts := UnassignAllAlone(s, st, ids);
  }

  lemma SeatsOfGuestAre(st: Store, guest: Id)
    requires Sound(st)
    ensures var ids := SeatsOfGuest(st, guest); Distinct(ids) && forall id | id in ids :: id in st.seats && !st.seats[id].Free()
  {
  }
}
