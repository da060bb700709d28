/**
 The layout operations between the steps of open assignment transactions, over the same seat rows. Every such run is a
 run of the assignment protocol, so whatever holds of all its interleavings holds with the layout operations among them.
 */
module SeatingInterleaving {
  import opened Sequences
  import opened SeatRows
  import opened SeatStore
  import opened SeatProtocol
  import opened SeatingSystem
  import I = SeatInterleaving
  import L = LayoutRows
  import P = SeatProperties
  import Runs = LayoutRuns

  /** The rows of the layout, and the assignments with their open transactions. */
  datatype Mixed = Mixed(layout: L.Layout, nextId: L.Id, state: State)

  datatype Step = Transact(action: Action) | Relayout(request: Runs.LayoutRequest)

  /** The steps of a transaction, which leave it to the layout to create and to delete seats. */
  predicate OfTransaction(a: Action) {
    !a.Create? && !a.Delete? && !a.DeleteEvents?
  }

  ghost function KeptSeats(m: Mixed, q: Runs.LayoutRequest): seq<L.Seat> {
    Runs.Kept(m.layout, m.nextId, q).seats
  }

  ghost function SeatsAfterwards(m: Mixed, q: Runs.LayoutRequest): seq<L.Seat> {
    Runs.Perform(m.layout, m.nextId, q).0.seats
  }

  /** A layout operation waits for the transactions that have written a row it deletes. */
  ghost predicate CanTake(m: Mixed, step: Step) {
    match step
    case Transact(a) => OfTransaction(a) && Enabled(m.state, a)
    case Relayout(q) => Unlocked(m.state, Gone(m.layout.seats, KeptSeats(m, q)))
  }

  ghost predicate Unlocked(s: State, ids: set<Id>) {
    forall id | id in ids :: !AnyLock(s, id)
  }

  function Keys(rows: seq<L.Seat>): set<Id> {
    set s | s in rows :: Key(s)
  }

  ghost function LogAfterwards(log: seq<Entry>, q: Runs.LayoutRequest): seq<Entry> {
    if q.DeleteEvent? then Without(log, {q.event}) else log
  }

  /** Committed rows show in the layout; a layout operation's rows show to the assignments and leave transactions open. */
  ghost function Take(m: Mixed, step: Step): Mixed
    requires CanTake(m, step)
  {
    match step
    case Transact(a) =>
      var s := Do(m.state, a);
      m.(layout := m.layout.(seats := Overlay(m.layout.seats, s.seats)), state := s)
    case Relayout(q) =>
      var (layout, nextId) := Runs.Perform(m.layout, m.nextId, q);
      Mixed(layout, nextId, m.state.(seats := AsSeats(layout.seats), log := LogAfterwards(m.state.log, q),
                                     used := m.state.used + Keys(layout.seats)))
  }

  ghost predicate Runnable(m: Mixed, steps: seq<Step>)
    decreases |steps|
  {
    |steps| == 0 || (CanTake(m, steps[0]) && Runnable(Take(m, steps[0]), steps[1..]))
  }

  ghost function TakeAll(m: Mixed, steps: seq<Step>): Mixed
    requires Runnable(m, steps)
    decreases |steps|
  {
    if |steps| == 0 then m else TakeAll(Take(m, steps[0]), steps[1..])
  }

  function Start(): Mixed {
    Mixed(L.Layout([], [], []), 0, Initial())
  }

  /** Every seat id that was ever given out is of a row number below `next`. */
  ghost predicate UsedBelow(used: set<Id>, next: L.Id) {
    forall id | id in used :: Numbered(id, next)
  }

  /** No constraint of the layout is broken, and the assignments see its seats. */
  ghost predicate Agrees(m: Mixed) {
    && L.Valid(m.layout, m.nextId) && AsSeats(m.layout.seats) == m.state.seats && UsedBelow(m.state.used, m.nextId)
    && Inv(m.state)
  }

  // ---------------------------------------------------------------- steps of transactions

  /** The same seats of the same events. */
  ghost predicate SameEvents(before: Seats, after: Seats) {
    after.Keys == before.Keys && forall id | id in after :: after[id].event == before[id].event
  }

  lemma StepSameEvents(s: State, a: Action)
    requires Inv(s) && Enabled(s, a) && OfTransaction(a)
    ensures SameEvents(s.seats, Do(s, a).seats) && Do(s, a).used == s.used
  {
    hide Paired, Unique, OneEventPerSeat, Fair, Tells, PhaseOk, FactsOf, Replays, HeldIsAssigned;
    if a.Commit? {
      assert TxOk(s, a.t);
    }
  }

  lemma ShowsOverlay(l: L.Layout, next: L.Id, seats: Seats)
    requires L.Valid(l, next) && SameEvents(AsSeats(l.seats), seats)
    ensures L.Valid(l.(seats := Overlay(l.seats, seats)), next) && AsSeats(Overlay(l.seats, seats)) == seats
  {
    hide L.Valid, Overlay, AsSeats;
    ValidIds(l, next);
    OverlayShows(l.seats, seats);
    OverlayIsValid(l, next, seats);
  }

  lemma TransactIs(m: Mixed, a: Action)
    requires CanTake(m, Transact(a))
    ensures Enabled(m.state, a) && OfTransaction(a)
    ensures Take(m, Transact(a)) == Mixed(m.layout.(seats := Overlay(m.layout.seats, Do(m.state, a).seats)), m.nextId, Do(m.state, a))
  {
    hide Enabled, Do, Overlay;
  }

  lemma TransactAgrees(m: Mixed, a: Action)
    requires Agrees(m) && CanTake(m, Transact(a))
    ensures Agrees(Take(m, Transact(a)))
  {
    AgreesIs(m);
    hide *;
    TransactIs(m, a);
    StepSameEvents(m.state, a);
    I.StepKeeps(m.state, a);
    ShowsOverlay(m.layout, m.nextId, Do(m.state, a).seats);
    AllAgree(Take(m, Transact(a)));
  }

  lemma AgreesIs(m: Mixed)
    requires Agrees(m)
    ensures L.Valid(m.layout, m.nextId) && AsSeats(m.layout.seats) == m.state.seats && UsedBelow(m.state.used, m.nextId) && Inv(m.state)
  {
    hide L.Valid, AsSeats, UsedBelow, Inv;
  }

  lemma AllAgree(m: Mixed)
    requires L.Valid(m.layout, m.nextId) && AsSeats(m.layout.seats) == m.state.seats && UsedBelow(m.state.used, m.nextId) && Inv(m.state)
    ensures Agrees(m)
  {
    hide L.Valid, AsSeats, UsedBelow, Inv;
  }

  // ---------------------------------------------------------------- layout operations

  /** What a layout operation is to the protocol. */
  ghost function Actions(m: Mixed, q: Runs.LayoutRequest): seq<Action> {
    Deletions(m, q) + MapSeq(Extra(KeptSeats(m, q), SeatsAfterwards(m, q)), Creating)
  }

  ghost function Deletions(m: Mixed, q: Runs.LayoutRequest): seq<Action> {
    [Action.Delete(Gone(m.layout.seats, KeptSeats(m, q)))] + if q.DeleteEvent? then [Action.DeleteEvents({q.event})] else []
  }

  /** The rows after the first |kept| ones. */
  function Extra(kept: seq<L.Seat>, rows: seq<L.Seat>): seq<L.Seat> {
    if |kept| <= |rows| then rows[|kept|..] else []
  }

  function Creating(s: L.Seat): Action {
    Action.Create(Key(s), s.event, StatusOf(s.status))
  }

  lemma DeletesKept(rows: seq<L.Seat>, kept: seq<L.Seat>)
    requires IdsDiffer(rows) && kept == Filter(rows, (s: L.Seat) => s in kept)
    ensures AsSeats(rows) - Gone(rows, kept) == AsSeats(kept) && IdsDiffer(kept)
  {
    hide AsSeats, Gone, Where, Key;
    var st := Store(AsSeats(rows), MapSeq(rows, Key), [], [], 0);
    KeepsKept(st, rows, kept);
    var gone := Gone(rows, kept);
    assert P.Perform(st, P.Delete(gone)).seats == AsSeats(rows) - gone;
  }

  lemma OneAction(s: State, a: Action, after: State)
    requires Enabled(s, a) && Do(s, a) == after
    ensures Allowed(s, [a]) && After(s, [a]) == after
  {
    hide Enabled, Do;
    assert [a][1..] == [];
  }

  lemma Both(s: State, first: seq<Action>, middle: State, rest: seq<Action>, after: State)
    requires Allowed(s, first) && After(s, first) == middle && Allowed(middle, rest) && After(middle, rest) == after
    ensures Allowed(s, first + rest) && After(s, first + rest) == after
  {
    hide *;
    Continue(s, first, rest);
  }

  lemma DeleteIsStep(s: State, ids: set<Id>)
    requires Unlocked(s, ids)
    ensures Enabled(s, Action.Delete(ids)) && Do(s, Action.Delete(ids)) == s.(seats := s.seats - ids)
  {
  }

  lemma DeleteLogIsStep(s: State, rows: seq<L.Seat>, event: Id)
    requires s.seats == AsSeats(rows) && IdsDiffer(rows) && forall r | r in rows :: r.event != event
    ensures Enabled(s, Action.DeleteEvents({event}))
    ensures Do(s, Action.DeleteEvents({event})) == s.(log := Without(s.log, {event}))
  {
    hide Key, AnyLock;
    forall id | id in s.seats
      ensures s.seats[id].event != event
    {
      AsSeatsHas(rows, id);
      var k :| 0 <= k < |rows| && Key(rows[k]) == id;
      AsSeatsAt(rows, k);
    }
    hide AsSeats;
    var after := Do(s, Action.DeleteEvents({event}));
    assert after.seats == s.seats;
  }

  lemma DeletionsRun(m: Mixed, q: Runs.LayoutRequest)
    requires Agrees(m) && CanTake(m, Relayout(q))
    ensures Allowed(m.state, Deletions(m, q))
    ensures After(m.state, Deletions(m, q)) == m.state.(seats := AsSeats(KeptSeats(m, q)), log := LogAfterwards(m.state.log, q))
    ensures IdsDiffer(KeptSeats(m, q))
  {
    var rows, kept := m.layout.seats, KeptSeats(m, q);
    AgreesIs(m);
    KeptSeatsAre(m, q);
    RelayoutWaits(m, q);
    hide *;
    ValidIds(m.layout, m.nextId);
    DeletesKept(rows, kept);
    var delete := Action.Delete(Gone(rows, kept));
    var middle := m.state.(seats := AsSeats(kept));
    DeleteIsStep(m.state, Gone(rows, kept));
    OneAction(m.state, delete, middle);
    DeletionsAre(m, q);
    LogIs(m.state.log, q);
    if q.DeleteEvent? {
      DeleteLogIsStep(middle, kept, q.event);
      OneAction(middle, Action.DeleteEvents({q.event}), middle.(log := Without(m.state.log, {q.event})));
      Both(m.state, [delete], middle, [Action.DeleteEvents({q.event})], middle.(log := Without(m.state.log, {q.event})));
    }
  }

  lemma LogIs(log: seq<Entry>, q: Runs.LayoutRequest)
    ensures LogAfterwards(log, q) == if q.DeleteEvent? then Without(log, {q.event}) else log
  {
    hide Without;
  }

  lemma DeletionsAre(m: Mixed, q: Runs.LayoutRequest)
    ensures var delete := Action.Delete(Gone(m.layout.seats, KeptSeats(m, q)));
      Deletions(m, q) == if q.DeleteEvent? then [delete] + [Action.DeleteEvents({q.event})] else [delete]
  {
    hide KeptSeats, Gone;
  }

  lemma KeptSeatsAre(m: Mixed, q: Runs.LayoutRequest)
    requires Agrees(m)
    ensures var kept := KeptSeats(m, q); kept == Filter(m.layout.seats, (s: L.Seat) => s in kept)
    ensures q.DeleteEvent? ==> forall s | s in KeptSeats(m, q) :: s.event != q.event
  {
    AgreesIs(m);
    KeptIsFiltered(m.layout, m.nextId, q);
  }

  lemma RelayoutWaits(m: Mixed, q: Runs.LayoutRequest)
    requires CanTake(m, Relayout(q))
    ensures Unlocked(m.state, Gone(m.layout.seats, KeptSeats(m, q)))
  {
    hide Gone, KeptSeats, Unlocked;
  }

  lemma CreateIsStep(s: State, rows: seq<L.Seat>, r: L.Seat)
    requires s.seats == AsSeats(rows) && r.Blank() && Key(r) !in s.used
    ensures Enabled(s, Creating(r))
    ensures Do(s, Creating(r)) == s.(seats := AsSeats(rows + [r]), used := s.used + {Key(r)})
  {
    AsSeatsOneMore(rows, r);
    BlankSeat(r);
    hide AsSeats, AsSeat, Key, StatusOf;
  }

  ghost predicate Unused(s: State, rows: seq<L.Seat>) {
    IdsDiffer(rows) && forall r | r in rows :: r.Blank() && Key(r) !in s.used
  }

  lemma UnusedRest(s: State, rows: seq<L.Seat>, later: State)
    requires rows != [] && Unused(s, rows) && later.used == s.used + {Key(rows[0])}
    ensures rows[0].Blank() && Key(rows[0]) !in s.used && Unused(later, rows[1..])
  {
    hide Key;
    assert rows[0] in rows;
    forall r | r in rows[1..]
      ensures r.Blank() && Key(r) !in later.used
    {
      var k :| 1 <= k < |rows| && rows[k] == r;
      KeysDiffer(rows[0].id, rows[k].id);
      KeyIs(rows[0]);
      KeyIs(r);
    }
  }

  lemma KeyIs(r: L.Seat)
    ensures Key(r) == Decimal.Print(r.id)
  {
  }

  lemma KeysFrom(first: L.Seat, rest: seq<L.Seat>, rows: seq<L.Seat>)
    requires rows == [first] + rest
    ensures Keys(rows) == {Key(first)} + Keys(rest)
  {
    hide Key;
    assert first == rows[0];
    assert forall r | r in rest :: r in rows;
  }

  lemma {:induction false} CreationsRun(s: State, rows: seq<L.Seat>, added: seq<L.Seat>)
    requires s.seats == AsSeats(rows) && Unused(s, added)
    ensures Allowed(s, MapSeq(added, Creating))
    ensures After(s, MapSeq(added, Creating)) == s.(seats := AsSeats(rows + added), used := s.used + Keys(added))
    decreases |added|
  {
    hide *;
    if added == [] {
      NothingCreated(s, rows);
    } else {
      var r, rest := added[0], added[1..];
      var middle := s.(seats := AsSeats(rows + [r]), used := s.used + {Key(r)});
      UnusedRest(s, added, middle);
      CreateIsStep(s, rows, r);
      CreationsRun(middle, rows + [r], rest);
      JoinCreations(s, rows, r, rest, middle);
      assert [r] + rest == added;
    }
  }

  lemma NothingCreated(s: State, rows: seq<L.Seat>)
    requires s.seats == AsSeats(rows)
    ensures Allowed(s, MapSeq([], Creating))
    ensures After(s, MapSeq([], Creating)) == s.(seats := AsSeats(rows + []), used := s.used + Keys([]))
  {
    hide AsSeats;
    assert rows + [] == rows;
  }

  lemma JoinCreations(s: State, rows: seq<L.Seat>, r: L.Seat, rest: seq<L.Seat>, middle: State)
    requires middle == s.(seats := AsSeats(rows + [r]), used := s.used + {Key(r)})
    requires Enabled(s, Creating(r)) && Do(s, Creating(r)) == middle && Allowed(middle, MapSeq(rest, Creating))
    requires After(middle, MapSeq(rest, Creating)) == middle.(seats := AsSeats(rows + [r] + rest), used := middle.used + Keys(rest))
    ensures var added := [r] + rest;
      && Allowed(s, MapSeq(added, Creating))
      && After(s, MapSeq(added, Creating)) == s.(seats := AsSeats(rows + added), used := s.used + Keys(added))
  {
    hide *;
    var added := [r] + rest;
    var after := s.(seats := AsSeats(rows + added), used := s.used + Keys(added));
    OneAction(s, Creating(r), middle);
    KeysFrom(r, rest, added);
    assert rows + [r] + rest == rows + added;
    assert middle.used + Keys(rest) == after.used;
    MapFrom(r, rest);
    Both(s, [Creating(r)], middle, MapSeq(rest, Creating), after);
  }

  lemma MapFrom(first: L.Seat, rest: seq<L.Seat>)
    ensures MapSeq([first] + rest, Creating) == [Creating(first)] + MapSeq(rest, Creating)
  {
    hide Creating;
  }

  lemma ExtraSeats(m: Mixed, q: Runs.LayoutRequest)
    requires Agrees(m)
    ensures var kept, seats := KeptSeats(m, q), SeatsAfterwards(m, q);
      && kept + Extra(kept, seats) == seats && Unused(m.state, Extra(kept, seats)) && Keys(kept) <= m.state.used
      && UsedBelow(m.state.used + Keys(seats), Runs.Perform(m.layout, m.nextId, q).1)
      && L.Valid(Runs.Perform(m.layout, m.nextId, q).0, Runs.Perform(m.layout, m.nextId, q).1)
  {
    AgreesIs(m);
    KeptSeatsAre(m, q);
    SeatsGrow(m, q);
    hide *;
    var (layout, next) := Runs.Perform(m.layout, m.nextId, q);
    var kept, seats := KeptSeats(m, q), SeatsAfterwards(m, q);
    ExtraIs(kept, seats);
    ValidIds(layout, next);
    NewSeatsUnused(m.state, m.nextId, kept, seats);
    UsedStaysBelow(m.state.used, m.nextId, seats, next);
    KeptWereUsed(m, kept);
  }

  lemma SeatsGrow(m: Mixed, q: Runs.LayoutRequest)
    requires L.Valid(m.layout, m.nextId)
    ensures var (layout, next) := Runs.Perform(m.layout, m.nextId, q); var kept, seats := KeptSeats(m, q), SeatsAfterwards(m, q);
      && L.Valid(layout, next) && layout.seats == seats && m.nextId <= next && kept <= seats
      && forall r | r in seats[|kept|..] :: r.Blank() && r.id >= m.nextId
  {
    Runs.PerformGrows(m.layout, m.nextId, q);
    Runs.PerformKeepsValid(m.layout, m.nextId, q);
    hide Runs.Perform, Runs.Kept, L.Valid;
  }

  lemma ExtraIs(kept: seq<L.Seat>, rows: seq<L.Seat>)
    requires kept <= rows
    ensures Extra(kept, rows) == rows[|kept|..] && kept + Extra(kept, rows) == rows
  {
  }

  lemma NewSeatsUnused(s: State, next: L.Id, kept: seq<L.Seat>, seats: seq<L.Seat>)
    requires UsedBelow(s.used, next) && kept <= seats && IdsDiffer(seats) && forall r | r in seats[|kept|..] :: r.Blank() && r.id >= next
    ensures Unused(s, seats[|kept|..])
  {
    forall r | r in seats[|kept|..]
      ensures Key(r) !in s.used
    {
      if Key(r) in s.used {
        var n: nat :| n < next && Key(r) == Decimal.Print(n);
        KeysDiffer(n, r.id);
      }
    }
  }

  lemma UsedStaysBelow(used: set<Id>, next: L.Id, seats: seq<L.Seat>, last: L.Id)
    requires UsedBelow(used, next) && next <= last && forall r | r in seats :: r.id < last
    ensures UsedBelow(used + Keys(seats), last)
  {
    forall id | id in used + Keys(seats)
      ensures Numbered(id, last)
    {
      if id in used {
        assert Numbered(id, next);
      } else {
        var r :| r in seats && Key(r) == id;
        assert id == Decimal.Print(r.id);
      }
    }
  }

  lemma KeptWereUsed(m: Mixed, kept: seq<L.Seat>)
    requires AsSeats(m.layout.seats) == m.state.seats && Inv(m.state)
    requires kept == Filter(m.layout.seats, (s: L.Seat) => s in kept)
    ensures Keys(kept) <= m.state.used
  {
    UsedSeats(m.state);
    hide Inv, AsSeats, Key;
    forall r | r in kept
      ensures Key(r) in m.state.used
    {
      assert r in m.layout.seats;
      var k :| 0 <= k < |m.layout.seats| && m.layout.seats[k] == r;
      AsSeatsHas(m.layout.seats, Key(r));
    }
  }

  lemma UsedSeats(s: State)
    requires Inv(s)
    ensures s.seats.Keys <= s.used
  {
  }

  lemma RelayoutIs(m: Mixed, q: Runs.LayoutRequest)
    requires CanTake(m, Relayout(q))
    ensures var after := Take(m, Relayout(q)); var seats := SeatsAfterwards(m, q);
      && after.layout == Runs.Perform(m.layout, m.nextId, q).0 && after.nextId == Runs.Perform(m.layout, m.nextId, q).1
      && after.layout.seats == seats
      && after.state == m.state.(seats := AsSeats(seats), log := LogAfterwards(m.state.log, q), used := m.state.used + Keys(seats))
  {
    hide Runs.Perform, AsSeats, Keys, LogAfterwards, Unlocked, Gone, KeptSeats;
  }

  lemma KeysOfBoth(kept: seq<L.Seat>, added: seq<L.Seat>)
    ensures Keys(kept + added) == Keys(kept) + Keys(added)
  {
    hide Key;
    assert forall r :: r in kept + added <==> r in kept || r in added;
  }

  /**
   To the open transactions, a layout operation is a deletion of seats that none of them has written, and creations of
   seats with unused ids that nobody holds.
   */
  lemma LayoutIsSteps(m: Mixed, q: Runs.LayoutRequest)
    requires Agrees(m) && CanTake(m, Relayout(q))
    ensures Allowed(m.state, Actions(m, q)) && After(m.state, Actions(m, q)) == Take(m, Relayout(q)).state
    ensures Agrees(Take(m, Relayout(q)))
  {
    hide *;
    var kept, seats := KeptSeats(m, q), SeatsAfterwards(m, q);
    var added := Extra(kept, seats);
    var middle := m.state.(seats := AsSeats(kept), log := LogAfterwards(m.state.log, q));
    DeletionsRun(m, q);
    ExtraSeats(m, q);
    StillUnused(m.state, middle, added);
    CreationsRun(middle, kept, added);
    KeysOfBoth(kept, added);
    RelayoutIs(m, q);
    var after := Take(m, Relayout(q));
    assert middle.used + Keys(added) == m.state.used + Keys(seats);
    Both(m.state, Deletions(m, q), middle, MapSeq(added, Creating), after.state);
    ActionsAre(m, q);
    AgreesIs(m);
    I.RunKeeps(m.state, Actions(m, q));
    AllAgree(after);
  }

  lemma StillUnused(s: State, later: State, rows: seq<L.Seat>)
    requires Unused(s, rows) && later.used == s.used
    ensures Unused(later, rows)
  {
  }

  lemma ActionsAre(m: Mixed, q: Runs.LayoutRequest)
    ensures Actions(m, q) == Deletions(m, q) + MapSeq(Extra(KeptSeats(m, q), SeatsAfterwards(m, q)), Creating)
  {
    hide Deletions, KeptSeats, SeatsAfterwards, Extra;
  }

  // ---------------------------------------------------------------- every run

  lemma StepIsActions(m: Mixed, step: Step) returns (acts: seq<Action>)
    requires Agrees(m) && CanTake(m, step)
    ensures Allowed(m.state, acts) && After(m.state, acts) == Take(m, step).state && Agrees(Take(m, step))
  {
    hide *;
    match step
    case Transact(a) =>
      TransactIs(m, a);
      TransactAgrees(m, a);
      acts := [a];
      OneAction(m.state, a, Take(m, step).state);
    case Relayout(q) =>
      LayoutIsSteps(m, q);
      acts := Actions(m, q);
  }

  /** Every run of transaction steps and layout operations is a run of the protocol, and the two keep showing the same seats. */
  lemma {:induction false} RunIsActions(m: Mixed, steps: seq<Step>) returns (acts: seq<Action>)
    requires Agrees(m) && Runnable(m, steps)
    ensures Allowed(m.state, acts) && After(m.state, acts) == TakeAll(m, steps).state && Agrees(TakeAll(m, steps))
    decreases |steps|
  {
    hide Agrees, CanTake, Take, Enabled, Do;
    if |steps| == 0 {
      acts := [];
    } else {
      var first := StepIsActions(m, steps[0]);
      var rest := RunIsActions(Take(m, steps[0]), steps[1..]);
      acts := first + rest;
      Both(m.state, first, Take(m, steps[0]).state, rest, TakeAll(m, steps).state);
    }
  }

  lemma StartAgrees()
    ensures Agrees(Start())
  {
    I.InitialHolds();
  }

  /**
   In every state of every run in which layout operations happen between the steps of open assignment transactions, the
   layout breaks no constraint, the assignments see its seats, replaying the log gives each seat's holder, no two seats
   of an event share a guest or an invitation, held seats are assigned, and each log entry has its fact.
   */
  lemma EveryMixedRun(steps: seq<Step>) returns (acts: seq<Action>)
    requires Runnable(Start(), steps)
    ensures Allowed(Initial(), acts)
    ensures var m := TakeAll(Start(), steps);
      && After(Initial(), acts) == m.state && L.Valid(m.layout, m.nextId) && AsSeats(m.layout.seats) == m.state.seats
      && Replays(m.state.seats, m.state.log) && Unique(m.state.seats) && HeldIsAssigned(m.state.seats)
      && Fair(m.state.log) && Paired(m.state.log, m.state.outbox)
  {
    StartIs();
    hide *;
    StartAgrees();
    acts := RunIsActions(Start(), steps);
    AgreesIs(TakeAll(Start(), steps));
    I.EveryInterleaving(acts);
  }

  lemma StartIs()
    ensures Start().state == Initial()
  {
  }
}
