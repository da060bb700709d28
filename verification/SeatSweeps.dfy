/**
 unassignSeatsByGuestId among other transactions: the list of the guest's seats is read once, then each seat on it is
 unassigned in a transaction of its own, whoever has it by then.
 */
module SeatSweeps {
  import opened Results
  import opened Sequences
  import opened SeatRows
  import opened SeatProtocol
  import opened SeatInterleaving
  import opened SeatReleases

  /** What becomes of one listed seat: it is missing or free when it is read, or read, freed and committed. */
  datatype Visit = Skips(at: nat) | Frees(t: TxId, read: nat, write: nat, commit: nat)
  {
    function End(): nat { if Skips? then at else commit }
  }

  ghost predicate Visits(states: seq<State>, acts: seq<Action>, id: Id, start: nat, v: Visit)
    requires |states| == |acts| + 1
  {
    match v
    case Skips(at) => start <= at <= |acts| && (id in states[at].seats ==> states[at].seats[id].Free())
    case Frees(t, read, write, commit) =>
      && start <= read < write < commit < |acts|
      && acts[read] == ReadHeld(t, id) && acts[write] == Unassign(t) && acts[commit] == Commit(t)
  }

  /** A visit starts where the one before it ended, the first one at the list. */
  function StartOf(i: nat, visits: seq<Visit>, k: nat): nat
    requires k <= |visits|
  {
    if k == 0 then i else visits[k - 1].End()
  }

  /** At step `i` the seats on the list are exactly the guest's, and the visits follow one another; an error may end them early. */
  ghost predicate Sweeps(states: seq<State>, acts: seq<Action>, guest: Id, i: nat, ids: seq<Id>, visits: seq<Visit>)
    requires |states| == |acts| + 1
  {
    && i <= |acts| && Distinct(ids) && |visits| <= |ids|
    && (forall id :: id in ids <==> id in states[i].seats && states[i].seats[id].guest == Some(guest))
    && forall k | 0 <= k < |visits| :: Visits(states, acts, ids[k], StartOf(i, visits, k), visits[k])
  }

  lemma VisitAt(states: seq<State>, acts: seq<Action>, guest: Id, i: nat, ids: seq<Id>, visits: seq<Visit>, k: nat)
    requires |states| == |acts| + 1 && Sweeps(states, acts, guest, i, ids, visits) && k < |visits|
    ensures k < |ids| && Visits(states, acts, ids[k], StartOf(i, visits, k), visits[k])
    ensures StartOf(i, visits, k) == if k == 0 then i else visits[k - 1].End()
  {
    hide Visits;
  }

  lemma {:induction false} VisitsAreLater(states: seq<State>, acts: seq<Action>, guest: Id, i: nat, ids: seq<Id>, visits: seq<Visit>, k: nat)
    requires |states| == |acts| + 1 && Sweeps(states, acts, guest, i, ids, visits) && k < |visits|
    ensures k < |ids| && i <= visits[k].End() && Visits(states, acts, ids[k], i, visits[k])
  {
    hide *;
    VisitAt(states, acts, guest, i, ids, visits, k);
    if k > 0 {
      VisitsAreLater(states, acts, guest, i, ids, visits, k - 1);
    }
    VisitIsLater(states, acts, ids[k], i, StartOf(i, visits, k), visits[k]);
  }

  lemma VisitIsLater(states: seq<State>, acts: seq<Action>, id: Id, i: nat, start: nat, v: Visit)
    requires |states| == |acts| + 1 && i <= start && Visits(states, acts, id, start, v)
    ensures i <= v.End() && Visits(states, acts, id, i, v)
  {
  }

  // ---------------------------------------------------------------- one visit

  /** The transaction still remembers the row it read, or has gone past its write. */
  predicate Waits(s: State, t: TxId, id: Id, read: Seat) {
    t in s.txs && (s.txs[t].phase == Unassigning(id, read) || s.txs[t].phase.Ready? || s.txs[t].phase.Done?)
  }

  lemma WaitsStep(s: State, a: Action, t: TxId, id: Id, read: Seat)
    requires Enabled(s, a) && Waits(s, t, id, read)
    ensures Waits(Do(s, a), t, id, read)
  {
    hide Locked, FactOf, AssignableTo, Unique, AssignableToGuest, Conflicts;
  }

  lemma {:induction false} WaitsUntil(states: seq<State>, acts: seq<Action>, t: TxId, id: Id, r: nat, w: nat)
    requires Chain(states, acts) && r < w <= |acts| && acts[r] == ReadHeld(t, id)
    ensures id in states[r].seats && Waits(states[w], t, id, states[r].seats[id])
    decreases w
  {
    assert Enabled(states[r], acts[r]) && Do(states[r], acts[r]) == states[r + 1];
    if w > r + 1 {
      WaitsUntil(states, acts, t, id, r, w - 1);
      assert Enabled(states[w - 1], acts[w - 1]) && Do(states[w - 1], acts[w - 1]) == states[w];
      hide Enabled, Do;
      WaitsStep(states[w - 1], acts[w - 1], t, id, states[r].seats[id]);
    }
  }

  /** The release of a visit frees the listed seat and is logged from the row that the visit read. */
  lemma VisitReleases(states: seq<State>, acts: seq<Action>, t: TxId, id: Id, r: nat, w: nat)
    requires Run(states, acts) && r < w < |acts| && acts[r] == ReadHeld(t, id) && acts[w] == Unassign(t)
    ensures id in states[r].seats && Releases(states[w], acts[w]) && ReadRow(states[w], acts[w]).id == id
    ensures ReadRow(states[w], acts[w]).seat == states[r].seats[id] && ReleaseEntry(states[w], acts[w]).seat == id
  {
    WaitsUntil(states, acts, t, id, r, w);
    assert Enabled(states[w], acts[w]);
  }

  lemma CommittedIsFree(s: State, t: TxId, e: Entry)
    requires Inv(s) && Enabled(s, Commit(t)) && e in s.txs[t].entries && e.change == Unassigned
    ensures e.seat in Do(s, Commit(t)).seats && Do(s, Commit(t)).seats[e.seat].Free()
  {
    hide Base, Unique, WorkOk, PhaseOk;
    EntryTellsWrite(s, t, e);
  }

  predicate InRange(states: seq<State>, v: Visit) {
    v.Frees? && v.read < v.write < v.commit && v.commit + 1 < |states|
  }

  /** What one visit does to its seat and what it logs, at place `n` of the log. */
  ghost predicate FreedAndLogged(states: seq<State>, id: Id, v: Visit, n: nat)
    requires InRange(states, v)
  {
    var log := states[v.commit + 1].log;
    && id in states[v.read].seats && id in states[v.write].seats && id in states[v.commit + 1].seats && states[v.commit + 1].seats[id].Free()
    && n < |log| && log[n].seat == id && log[n].change == Unassigned && log[n].tx == v.t
    && log[n].guest == states[v.read].seats[id].guest && log[n].invitation == states[v.read].seats[id].invitation
  }

  /** The row that was freed had the guest, and the log names the guest, who is the one it had put there. */
  ghost predicate FreesGuest(states: seq<State>, id: Id, v: Visit, n: nat, guest: Id)
    requires InRange(states, v) && FreedAndLogged(states, id, v, n)
  {
    var log := states[v.commit + 1].log;
    states[v.write].seats[id].guest == Some(guest) && log[n].guest == Some(guest) && Names(Latest(log[..n], id), log[n])
  }

  /** The row that was read had the guest, and the row that was freed had the same holder. */
  ghost predicate ReadsGuest(states: seq<State>, id: Id, v: Visit, guest: Id)
    requires InRange(states, v) && id in states[v.read].seats && id in states[v.write].seats
  {
    states[v.read].seats[id].guest == Some(guest) && SameHolder(states[v.read].seats[id], states[v.write].seats[id])
  }

  lemma VisitFrees(states: seq<State>, acts: seq<Action>, id: Id, start: nat, v: Visit) returns (n: nat)
    requires Run(states, acts) && v.Frees? && Visits(states, acts, id, start, v)
    ensures InRange(states, v) && FreedAndLogged(states, id, v, n)
    ensures var log := states[v.commit + 1].log;
      Names(Latest(log[..n], id), log[n]) <==> SameHolder(states[v.read].seats[id], states[v.write].seats[id])
  {
    VisitReleases(states, acts, v.t, id, v.read, v.write);
    n := CommittedRelease(states, acts, v.write, v.commit);
    AwaitsUntil(states, acts, v.write, v.commit);
    RunInv(states, acts, v.commit);
    assert Enabled(states[v.commit], acts[v.commit]) && Do(states[v.commit], acts[v.commit]) == states[v.commit + 1];
    var e := ReleaseEntry(states[v.write], acts[v.write]);
    var row := states[v.write].seats[id];
    hide Enabled, Do, Inv, Releases, Latest, ReadRow, Names;
    CommitsEntries(states[v.commit], v.t);
    StillAwaits(states[v.commit], v.t, e, row);
    CommittedIsFree(states[v.commit], v.t, e);
  }

  /**
   A visit frees the listed guest, and logs it so, exactly when the row it reads still has the guest and the seat keeps
   that holder up to the write.
   */
  lemma VisitFreesGuestIff(acts: seq<Action>, guest: Id, i: nat, ids: seq<Id>, visits: seq<Visit>, k: nat) returns (n: nat)
    requires Allowed(Initial(), acts) && Sweeps(Trace(Initial(), acts), acts, guest, i, ids, visits)
    requires k < |visits| && visits[k].Frees?
    ensures var states, id, v := Trace(Initial(), acts), ids[k], visits[k];
      && InRange(states, v) && FreedAndLogged(states, id, v, n)
      && (FreesGuest(states, id, v, n, guest) <==> ReadsGuest(states, id, v, guest))
  {
    var states := Trace(Initial(), acts);
    VisitsAreLater(states, acts, guest, i, ids, visits, k);
    hide Sweeps, Names, Latest, Trace;
    n := VisitFrees(states, acts, ids[k], i, visits[k]);
  }

  // ---------------------------------------------------------------- sweeps that nothing disturbs

  /** No step from `i` on, before step `k`, touches the row. */
  ghost predicate Undisturbed(states: seq<State>, acts: seq<Action>, id: Id, i: nat, k: nat)
    requires k <= |acts| == |states| - 1
  {
    forall j | i <= j < k :: !Touches(states[j], acts[j], id)
  }

  lemma {:induction false} RowStays(states: seq<State>, acts: seq<Action>, id: Id, i: nat, k: nat)
    requires Chain(states, acts) && i <= k <= |acts| && Undisturbed(states, acts, id, i, k) && id in states[i].seats
    ensures id in states[k].seats && states[k].seats[id] == states[i].seats[id]
    decreases k
  {
    hide Enabled, Do, Touches;
    if i < k {
      RowStays(states, acts, id, i, k - 1);
      assert Enabled(states[k - 1], acts[k - 1]) && Do(states[k - 1], acts[k - 1]) == states[k];
      UntouchedStep(states[k - 1], acts[k - 1], id);
    }
  }

  /** The visit comes to the listed seat before anything else touches it. */
  ghost predicate InTime(states: seq<State>, acts: seq<Action>, id: Id, i: nat, v: Visit)
    requires |states| == |acts| + 1
  {
    var end := if v.Skips? then v.at else v.write;
    end <= |acts| && Undisturbed(states, acts, id, i, end)
  }

  /**
   A sweep that comes to each of its seats before anything else touches it frees exactly the guest: every listed seat is
   freed, from the guest who was listed, and its log entry names that guest.
   */
  lemma UndisturbedSweepFreesGuest(acts: seq<Action>, guest: Id, i: nat, ids: seq<Id>, visits: seq<Visit>, k: nat) returns (n: nat)
    requires Allowed(Initial(), acts) && Sweeps(Trace(Initial(), acts), acts, guest, i, ids, visits)
    requires k < |visits| && InTime(Trace(Initial(), acts), acts, ids[k], i, visits[k])
    ensures var states, id, v := Trace(Initial(), acts), ids[k], visits[k];
      InRange(states, v) && FreedAndLogged(states, id, v, n) && FreesGuest(states, id, v, n, guest)
  {
    var states, id, v := Trace(Initial(), acts), ids[k], visits[k];
    VisitsAreLater(states, acts, guest, i, ids, visits, k);
    assert id in ids;
    if v.Skips? {
      RowStays(states, acts, id, i, v.at);
      assert false;
    } else {
      hide Names, Latest, Trace;
      RowStays(states, acts, id, i, v.write);
      UndisturbedBefore(states, acts, id, i, v.read, v.write);
      RowStays(states, acts, id, i, v.read);
      n := VisitFreesGuestIff(acts, guest, i, ids, visits, k);
    }
  }

  lemma UndisturbedBefore(states: seq<State>, acts: seq<Action>, id: Id, i: nat, j: nat, k: nat)
    requires j <= k <= |acts| == |states| - 1 && Undisturbed(states, acts, id, i, k)
    ensures Undisturbed(states, acts, id, i, j)
  {
  }

  // ---------------------------------------------------------------- a sweep that frees somebody else

  lemma {:induction false} TraceAt(s: State, first: seq<Action>, rest: seq<Action>)
    requires Allowed(s, first + rest) && Allowed(s, first)
    ensures Trace(s, first + rest)[|first|] == After(s, first)
    decreases |first|
  {
    hide Enabled, Do;
    if first == [] {
    } else {
      assert (first + rest)[1..] == first[1..] + rest && (first + rest)[0] == first[0];
      TraceAt(Do(s, first[0]), first[1..], rest);
    }
  }

  /** A state in which the list would name just this seat, and nobody else is at work. */
  ghost predicate OnlySeat(s: State, id: Id, guest: Id, another: Id) {
    && HeldBy(s, id, guest) && Unique(s.seats) && !AnyLock(s, id) && 2 !in s.txs && 3 !in s.txs && 4 !in s.txs
    && (forall x :: x == id <==> x in s.seats && s.seats[x].guest == Some(guest))
    && forall x | x in s.seats && s.seats[x].event == s.seats[id].event :: s.seats[x].guest != Some(another)
  }

  lemma OpenedIsOnly(id: Id, other: Id, event: Id, first: Id, second: Id)
    requires id != other && first != second
    ensures OnlySeat(Seated(Opened(id, other, event), 1, id, first), id, first, second)
  {
  }

  lemma PassedIs(s: State, id: Id, first: Id, second: Id)
    requires OnlySeat(s, id, first, second)
    ensures var u := Seated(Logged(s, 3, id, first), 4, id, second);
      && HeldBy(u, id, second) && !AnyLock(u, id) && 2 !in u.txs && Unique(u.seats)
  {
  }

  lemma VisitRuns(s: State, id: Id, guest: Id) returns (acts: seq<Action>)
    requires HeldBy(s, id, guest) && Unique(s.seats) && !AnyLock(s, id) && 2 !in s.txs
    ensures acts == [ReadHeld(2, id), Unassign(2), Commit(2)] && Allowed(s, acts)
  {
    var u := At(s, 2, Tx(Unassigning(id, s.seats[id]), map[], [], []));
    ChainRuns([s, u], [ReadHeld(2, id)]);
    var rest := UnassignRuns(u, 2, id, s.seats[id]);
    hide Allowed, After, Enabled, Do;
    Continue(s, [ReadHeld(2, id)], rest);
    acts := [ReadHeld(2, id)] + rest;
  }

  lemma SweepsOnce(states: seq<State>, acts: seq<Action>, guest: Id, another: Id, i: nat, id: Id, r: nat)
    requires |states| == |acts| + 1 && i <= r && r + 3 == |acts| && OnlySeat(states[i], id, guest, another)
    requires acts[r] == ReadHeld(2, id) && acts[r + 1] == Unassign(2) && acts[r + 2] == Commit(2)
    ensures Sweeps(states, acts, guest, i, [id], [Frees(2, r, r + 1, r + 2)])
    ensures Visits(states, acts, id, i, Frees(2, r, r + 1, r + 2))
  {
    hide HeldBy, Unique, AnyLock;
    var v := Frees(2, r, r + 1, r + 2);
    assert Visits(states, acts, id, i, v);
    assert StartOf(i, [v], 0) == i;
  }

  lemma FreesWhomItReads(states: seq<State>, acts: seq<Action>, id: Id, start: nat, v: Visit, guest: Id) returns (n: nat)
    requires Run(states, acts) && v.Frees? && Visits(states, acts, id, start, v) && v.write == v.read + 1 && HeldBy(states[v.read], id, guest)
    ensures InRange(states, v) && FreedAndLogged(states, id, v, n) && FreesGuest(states, id, v, n, guest)
  {
    assert Enabled(states[v.read], acts[v.read]) && Do(states[v.read], acts[v.read]) == states[v.write];
    assert states[v.write].seats == states[v.read].seats;
    n := VisitFrees(states, acts, id, start, v);
  }

  /** The seat passes to another guest after the list was read; then the sweep comes to it and frees that guest. */
  lemma StaleSweepFreesAnother(id: Id, other: Id, event: Id, first: Id, second: Id)
    returns (acts: seq<Action>, i: nat, v: Visit, n: nat)
    requires id != other && first != second
    ensures Allowed(Initial(), acts)
    ensures var states := Trace(Initial(), acts);
      && Sweeps(states, acts, first, i, [id], [v])
      && InRange(states, v) && FreedAndLogged(states, id, v, n) && FreesGuest(states, id, v, n, second)
  {
    var listed := Seated(Opened(id, other, event), 1, id, first);
    hide *;
    var opening := Opens(id, other, event, first);
    OpenedIsOnly(id, other, event, first, second);
    var passing := PassesOver(listed, id, first, second);
    PassedIs(listed, id, first, second);
    var before := opening + passing;
    Continue(Initial(), opening, passing);
    var ending := VisitRuns(After(Initial(), before), id, second);
    Continue(Initial(), before, ending);
    acts := before + ending;
    assert acts == opening + (passing + ending);
    TraceAt(Initial(), opening, passing + ending);
    TraceAt(Initial(), before, ending);
    var states, r := Trace(Initial(), acts), |before|;
    i, v := |opening|, Frees(2, r, r + 1, r + 2);
    TraceIsRun(acts);
    SweepsOnce(states, acts, first, second, i, id, r);
    n := FreesWhomItReads(states, acts, id, i, v, second);
  }

  lemma PassesOver(s: State, id: Id, first: Id, second: Id) returns (acts: seq<Action>)
    requires OnlySeat(s, id, first, second)
    ensures Allowed(s, acts) && After(s, acts) == Seated(Logged(s, 3, id, first), 4, id, second)
  {
    hide Allowed, After, Unique, AnyLock;
    acts := Passes(s, id, 3, 4, first, second);
  }

  lemma TraceIsRun(acts: seq<Action>)
    requires Allowed(Initial(), acts)
    ensures Run(Trace(Initial(), acts), acts) && |Trace(Initial(), acts)| == |acts| + 1
  {
  }
}
