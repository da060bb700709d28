/**
 The layout operations and the assignment operations over the same seat rows. To the assignments a layout operation is
 nothing but deletions of seats and creations of seats without a holder.
 */
module SeatingSystem {
  import opened Results
  import opened Sequences
  import opened Decimal
  import opened SeatRows
  import opened SeatStore
  import L = LayoutRows
  import R = Restoring
  import Runs = LayoutRuns
  import P = SeatProperties

  /** The rows of the layout, whose seats carry their holders, with the assignment log and the outbox. */
  datatype System = System(layout: L.Layout, nextId: L.Id, log: seq<Entry>, outbox: seq<Fact>, nextTx: TxId)

  function StatusOf(s: string): SeatStatus {
    if s == "RESERVED" then RESERVED else if s == "ASSIGNED" then ASSIGNED else if s == "BLOCKED" then BLOCKED else AVAILABLE
  }

  function StatusName(s: SeatStatus): (name: string)
    ensures name in L.STATUSES && StatusOf(name) == s
  {
    match s
    case AVAILABLE => "AVAILABLE"
    case RESERVED => "RESERVED"
    case ASSIGNED => "ASSIGNED"
    case BLOCKED => "BLOCKED"
  }

  function Key(s: L.Seat): Id { Print(s.id) }

  /** A seat row as the assignments see it. */
  function AsSeat(s: L.Seat): Seat {
    Seat(s.event, s.guest, s.invitation, StatusOf(s.status), s.note)
  }

  function AsSeats(rows: seq<L.Seat>): Seats {
    if rows == [] then map[] else AsSeats(rows[..|rows| - 1])[Key(rows[|rows| - 1]) := AsSeat(rows[|rows| - 1])]
  }

  function StoreOf(sys: System): Store {
    Store(AsSeats(sys.layout.seats), MapSeq(sys.layout.seats, Key), sys.log, sys.outbox, sys.nextTx)
  }

  ghost predicate IdsDiffer(rows: seq<L.Seat>) {
    forall i, j | 0 <= i < j < |rows| :: rows[i].id != rows[j].id
  }

  lemma KeysDiffer(a: nat, b: nat)
    ensures Print(a) == Print(b) <==> a == b
  {
    ParsePrint(a);
    ParsePrint(b);
  }

  lemma {:induction false} AsSeatsHas(rows: seq<L.Seat>, id: Id)
    ensures id in AsSeats(rows) <==> exists k :: 0 <= k < |rows| && Key(rows[k]) == id
  {
    if rows != [] {
      AsSeatsHas(rows[..|rows| - 1], id);
    }
  }

  lemma {:induction false} AsSeatsAt(rows: seq<L.Seat>, k: nat)
    requires IdsDiffer(rows) && k < |rows|
    ensures Key(rows[k]) in AsSeats(rows) && AsSeats(rows)[Key(rows[k])] == AsSeat(rows[k])
  {
    hide AsSeat;
    var last := |rows| - 1;
    if k < last {
      AsSeatsAt(rows[..last], k);
      KeysDiffer(rows[k].id, rows[last].id);
    }
  }

  /** Two views are one when every row looks alike in both. */
  lemma SameSeats(rows: seq<L.Seat>, seats: Seats)
    requires IdsDiffer(rows)
    requires forall id :: id in seats <==> exists k :: 0 <= k < |rows| && Key(rows[k]) == id
    requires forall k | 0 <= k < |rows| :: Key(rows[k]) in seats && seats[Key(rows[k])] == AsSeat(rows[k])
    ensures AsSeats(rows) == seats
  {
    hide AsSeats, AsSeat, Key;
    forall id
      ensures id in AsSeats(rows) <==> id in seats
      ensures id in seats ==> AsSeats(rows)[id] == seats[id]
    {
      AsSeatsHas(rows, id);
      if id in seats {
        var k :| 0 <= k < |rows| && Key(rows[k]) == id;
        AsSeatsAt(rows, k);
      }
    }
  }

  // ---------------------------------------------------------------- deleting rows

  lemma {:induction false} WhereIsFilter(rows: seq<L.Seat>, seats: Seats, keepRow: L.Seat -> bool, keep: (Id, Seat) -> bool)
    requires forall s | s in rows :: Key(s) in seats && keepRow(s) == keep(Key(s), seats[Key(s)])
    ensures Where(seats, MapSeq(rows, Key), keep) == MapSeq(Filter(rows, keepRow), Key)
  {
    if rows == [] {
    } else {
      var init, last := rows[..|rows| - 1], rows[|rows| - 1];
      assert init + [last] == rows;
      assert last in rows && forall s | s in init :: s in rows;
      hide *;
      WhereIsFilter(init, seats, keepRow, keep);
      WhereStep(init, last, seats, keepRow, keep);
    }
  }

  lemma WhereStep(init: seq<L.Seat>, last: L.Seat, seats: Seats, keepRow: L.Seat -> bool, keep: (Id, Seat) -> bool)
    requires Key(last) in seats && keepRow(last) == keep(Key(last), seats[Key(last)])
    requires Where(seats, MapSeq(init, Key), keep) == MapSeq(Filter(init, keepRow), Key)
    ensures Where(seats, MapSeq(init + [last], Key), keep) == MapSeq(Filter(init + [last], keepRow), Key)
  {
    hide *;
    KeysOneMore(init, last);
    WhereOneMore(seats, MapSeq(init, Key), Key(last), keep);
    FilterOneMore(init, last, keepRow);
    KeysOneMore(Filter(init, keepRow), last);
  }

  lemma KeysOneMore(rows: seq<L.Seat>, s: L.Seat)
    ensures MapSeq(rows + [s], Key) == MapSeq(rows, Key) + [Key(s)]
  {
  }

  lemma WhereOneMore(seats: Seats, order: seq<Id>, id: Id, keep: (Id, Seat) -> bool)
    requires id in seats
    ensures Where(seats, order + [id], keep) == if keep(id, seats[id]) then Where(seats, order, keep) + [id] else Where(seats, order, keep)
  {
    assert (order + [id])[..|order|] == order;
    assert Where(seats, order, keep) + [] == Where(seats, order, keep);
  }

  /** Keeping seats by a condition is keeping the rows that satisfy it. */
  lemma KeepsRows(st: Store, rows: seq<L.Seat>, keepRow: L.Seat -> bool, keep: (Id, Seat) -> bool)
    requires IdsDiffer(rows) && st.seats == AsSeats(rows) && st.order == MapSeq(rows, Key)
    requires forall s | s in rows :: keepRow(s) == keep(Key(s), AsSeat(s))
    ensures var kept := Filter(rows, keepRow);
      IdsDiffer(kept) && P.Keeping(st, keep) == st.(seats := AsSeats(kept), order := MapSeq(kept, Key))
  {
    hide AsSeat, AsSeats, Where, Key;
    var kept := Filter(rows, keepRow);
    var at := FilterIsSubsequence(rows, keepRow);
    forall s | s in rows
      ensures Key(s) in st.seats && st.seats[Key(s)] == AsSeat(s)
    {
      var k :| 0 <= k < |rows| && rows[k] == s;
      AsSeatsAt(rows, k);
    }
    WhereIsFilter(rows, st.seats, keepRow, keep);
    var seats := P.Keeping(st, keep).seats;
    forall id
      ensures id in seats <==> exists k :: 0 <= k < |kept| && Key(kept[k]) == id
    {
      KeptHas(st, rows, keepRow, keep, id);
    }
    SameSeats(kept, seats);
  }

  lemma KeptHas(st: Store, rows: seq<L.Seat>, keepRow: L.Seat -> bool, keep: (Id, Seat) -> bool, id: Id)
    requires IdsDiffer(rows) && st.seats == AsSeats(rows)
    requires forall s | s in rows :: Key(s) in st.seats && st.seats[Key(s)] == AsSeat(s) && keepRow(s) == keep(Key(s), AsSeat(s))
    ensures var kept := Filter(rows, keepRow); id in P.Keeping(st, keep).seats <==> exists k :: 0 <= k < |kept| && Key(kept[k]) == id
  {
    var kept := Filter(rows, keepRow);
    KeepingHas(st, keep, id);
    hide *;
    if id in st.seats && keep(id, st.seats[id]) {
      var m := KeptAt(st, rows, keepRow, keep, id);
    }
    forall m | 0 <= m < |kept| && Key(kept[m]) == id
      ensures id in st.seats && keep(id, st.seats[id])
    {
      KeptRow(rows, keepRow, m);
    }
  }

  lemma KeptAt(st: Store, rows: seq<L.Seat>, keepRow: L.Seat -> bool, keep: (Id, Seat) -> bool, id: Id) returns (m: nat)
    requires st.seats == AsSeats(rows) && id in st.seats && keep(id, st.seats[id])
    requires forall s | s in rows :: Key(s) in st.seats && st.seats[Key(s)] == AsSeat(s) && keepRow(s) == keep(Key(s), AsSeat(s))
    ensures var kept := Filter(rows, keepRow); m < |kept| && Key(kept[m]) == id
  {
    AsSeatsHas(rows, id);
    hide *;
    var kept := Filter(rows, keepRow);
    var k :| 0 <= k < |rows| && Key(rows[k]) == id;
    var s := rows[k];
    assert s in rows && keepRow(s);
    assert s in kept;
    m :| 0 <= m < |kept| && kept[m] == s;
  }

  lemma KeptRow(rows: seq<L.Seat>, keepRow: L.Seat -> bool, m: nat)
    requires m < |Filter(rows, keepRow)|
    ensures Filter(rows, keepRow)[m] in rows && keepRow(Filter(rows, keepRow)[m])
  {
    assert Filter(rows, keepRow)[m] in Filter(rows, keepRow);
  }

  lemma KeepingHas(st: Store, keep: (Id, Seat) -> bool, id: Id)
    ensures id in P.Keeping(st, keep).seats <==> id in st.seats && keep(id, st.seats[id])
  {
    hide Where;
  }

  lemma KeepsAll(st: Store, rows: seq<L.Seat>, keep: (Id, Seat) -> bool)
    requires IdsDiffer(rows) && st.seats == AsSeats(rows) && st.order == MapSeq(rows, Key)
    requires forall s | s in rows :: keep(Key(s), AsSeat(s))
    ensures P.Keeping(st, keep) == st
  {
    hide AsSeats, AsSeat, Key;
    KeepsRows(st, rows, (s: L.Seat) => true, keep);
    FilterAll(rows, (s: L.Seat) => true);
  }

  /** The ids of the rows that are not among the kept ones. */
  function Gone(rows: seq<L.Seat>, kept: seq<L.Seat>): set<Id> {
    set s | s in rows && s !in kept :: Key(s)
  }

  lemma GoneIff(rows: seq<L.Seat>, kept: seq<L.Seat>, s: L.Seat)
    requires IdsDiffer(rows) && s in rows
    ensures s in kept <==> Key(s) !in Gone(rows, kept)
  {
    if Key(s) in Gone(rows, kept) {
      var u :| u in rows && u !in kept && Key(u) == Key(s);
      KeysDiffer(u.id, s.id);
    }
  }

  // ---------------------------------------------------------------- creating rows

  function Creation(s: L.Seat): P.Request {
    P.Create(Key(s), s.event, StatusOf(s.status))
  }

  /** No entry of the log is about a seat with such an id. */
  ghost predicate Unlogged(log: seq<Entry>, rows: seq<L.Seat>) {
    forall e, s | e in log && s in rows :: e.seat != Key(s)
  }

  lemma CreatesOne(st: Store, rows: seq<L.Seat>, s: L.Seat)
    requires IdsDiffer(rows + [s]) && s.Blank() && Unlogged(st.log, [s])
    requires st.seats == AsSeats(rows) && st.order == MapSeq(rows, Key)
    ensures P.Possible(st, Creation(s))
    ensures P.Perform(st, Creation(s)) == st.(seats := AsSeats(rows + [s]), order := MapSeq(rows + [s], Key))
  {
    hide *;
    NewKey(rows, s);
    assert s in [s];
    NotLogged(st.log, s);
    CreateIs(st, s);
    KeysOneMore(rows, s);
    AsSeatsOneMore(rows, s);
    BlankSeat(s);
  }

  lemma NewKey(rows: seq<L.Seat>, s: L.Seat)
    requires IdsDiffer(rows + [s])
    ensures Key(s) !in AsSeats(rows)
  {
    AsSeatsHas(rows, Key(s));
    hide AsSeats;
    forall k | 0 <= k < |rows|
      ensures Key(rows[k]) != Key(s)
    {
      assert (rows + [s])[k] == rows[k] && (rows + [s])[|rows|] == s;
      KeysDiffer(rows[k].id, s.id);
    }
  }

  lemma NotLogged(log: seq<Entry>, s: L.Seat)
    requires Unlogged(log, [s])
    ensures forall e | e in log :: e.seat != Key(s)
  {
    assert s in [s];
  }

  lemma CreateIs(st: Store, s: L.Seat)
    requires Key(s) !in st.seats && forall e | e in st.log :: e.seat != Key(s)
    ensures P.Possible(st, Creation(s))
    ensures P.Perform(st, Creation(s))
         == st.(seats := st.seats[Key(s) := Seat(s.event, None, None, StatusOf(s.status), None)], order := st.order + [Key(s)])
  {
    hide Key, StatusOf;
  }

  lemma AsSeatsOneMore(rows: seq<L.Seat>, s: L.Seat)
    ensures AsSeats(rows + [s]) == AsSeats(rows)[Key(s) := AsSeat(s)]
  {
    hide Key, AsSeat;
    assert (rows + [s])[..|rows|] == rows;
  }

  lemma BlankSeat(s: L.Seat)
    requires s.Blank()
    ensures AsSeat(s) == Seat(s.event, None, None, StatusOf(s.status), None)
  {
  }

  lemma {:induction false} CreatesRun(st: Store, rows: seq<L.Seat>, added: seq<L.Seat>)
    requires IdsDiffer(rows + added) && (forall s | s in added :: s.Blank()) && Unlogged(st.log, added)
    requires st.seats == AsSeats(rows) && st.order == MapSeq(rows, Key)
    ensures P.PossibleRun(st, MapSeq(added, Creation))
    ensures P.Performed(st, MapSeq(added, Creation)) == st.(seats := AsSeats(rows + added), order := MapSeq(rows + added, Key))
    decreases |added|
  {
    hide P.Possible, P.Perform, AsSeats, Creation, Key;
    var qs := MapSeq(added, Creation);
    if added == [] {
      assert rows + added == rows && qs == [];
    } else {
      var s := added[0];
      assert (rows + added)[..|rows| + 1] == rows + [s] && (rows + [s]) + added[1..] == rows + added;
      CreatesOne(st, rows, s);
      CreatesRun(st.(seats := AsSeats(rows + [s]), order := MapSeq(rows + [s], Key)), rows + [s], added[1..]);
      assert qs[0] == Creation(s) && qs[1..] == MapSeq(added[1..], Creation);
    }
  }

  // ---------------------------------------------------------------- one system

  /** The id belongs to a row number below `next`. */
  ghost predicate Numbered(id: Id, next: L.Id) {
    exists n: nat :: n < next && id == Print(n)
  }

  ghost predicate LogBelow(log: seq<Entry>, next: L.Id) {
    forall e | e in log :: Numbered(e.seat, next)
  }

  /** The rows break no constraint of any table, and what the assignments keep holds of their view of the seats. */
  ghost predicate Sound(sys: System) {
    L.Valid(sys.layout, sys.nextId) && P.Sound(StoreOf(sys)) && LogBelow(sys.log, sys.nextId)
  }

  /** Deleting the seats of an event deletes the log entries of the event, too. */
  ghost function PerformLayout(sys: System, q: Runs.LayoutRequest): System {
    var (layout, nextId) := Runs.Perform(sys.layout, sys.nextId, q);
    System(layout, nextId, if q.DeleteEvent? then Without(sys.log, {q.event}) else sys.log, sys.outbox, sys.nextTx)
  }

  /** What a layout request is to the assignments. */
  ghost function SeatRequests(sys: System, q: Runs.LayoutRequest): seq<P.Request> {
    var kept, seats := Runs.Kept(sys.layout, sys.nextId, q).seats, Runs.Perform(sys.layout, sys.nextId, q).0.seats;
    [P.Delete(Gone(sys.layout.seats, kept))] + (if q.DeleteEvent? then [P.DeleteEvents({q.event})] else [])
    + if |kept| <= |seats| then MapSeq(seats[|kept|..], Creation) else []
  }

  lemma ValidIds(l: L.Layout, next: L.Id)
    requires L.Valid(l, next)
    ensures IdsDiffer(l.seats) && forall s | s in l.seats :: s.id < next
  {
  }

  lemma KeptIsFiltered(l: L.Layout, next: L.Id, q: Runs.LayoutRequest)
    requires L.Valid(l, next)
    ensures var kept := Runs.Kept(l, next, q).seats; kept == Filter(l.seats, (s: L.Seat) => s in kept)
    ensures q.DeleteEvent? ==> forall s | s in Runs.Kept(l, next, q).seats :: s.event != q.event
  {
    hide L.Valid, R.Restored;
    var kept := Runs.Kept(l, next, q).seats;
    if kept == l.seats {
      FilterAll(l.seats, (s: L.Seat) => s in kept);
    } else {
      var w := L.Wiped(l, q.event);
      var p := (s: L.Seat) => s.event != q.event && s.sectionId in L.SectionIds(w.sections)
                              && (s.tableId.Some? ==> s.tableId.value in L.TableIds(w.tables));
      assert kept == Filter(l.seats, p);
      FilterSame(l.seats, p, (s: L.Seat) => s in kept);
    }
  }

  lemma {:induction false} FilterSame<T>(s: seq<T>, p: T -> bool, r: T -> bool)
    requires forall x | x in s :: p(x) == r(x)
    ensures Filter(s, p) == Filter(s, r)
  {
    if s != [] {
      FilterSame(s[..|s| - 1], p, r);
      assert s[|s| - 1] in s;
    }
  }

  lemma DeletesGone(sys: System, q: Runs.LayoutRequest)
    requires Sound(sys)
    ensures var kept := Runs.Kept(sys.layout, sys.nextId, q).seats; var gone := Gone(sys.layout.seats, kept);
      && P.Possible(StoreOf(sys), P.Delete(gone)) && IdsDiffer(kept)
      && P.Perform(StoreOf(sys), P.Delete(gone)) == Store(AsSeats(kept), MapSeq(kept, Key), sys.log, sys.outbox, sys.nextTx)
  {
    var rows, kept := sys.layout.seats, Runs.Kept(sys.layout, sys.nextId, q).seats;
    ValidIds(sys.layout, sys.nextId);
    KeptIsFiltered(sys.layout, sys.nextId, q);
    hide *;
    KeepsKept(StoreOf(sys), rows, kept);
    StoreOfIs(sys);
  }

  lemma KeepsKept(st: Store, rows: seq<L.Seat>, kept: seq<L.Seat>)
    requires IdsDiffer(rows) && kept == Filter(rows, (s: L.Seat) => s in kept)
    requires st.seats == AsSeats(rows) && st.order == MapSeq(rows, Key)
    ensures var gone := Gone(rows, kept);
      && P.Possible(st, P.Delete(gone)) && IdsDiffer(kept)
      && P.Perform(st, P.Delete(gone)) == st.(seats := AsSeats(kept), order := MapSeq(kept, Key))
  {
    var gone := Gone(rows, kept);
    forall s | s in rows
      ensures s in kept <==> Key(s) !in gone
    {
      GoneIff(rows, kept, s);
    }
    hide *;
    KeepsRows(st, rows, (s: L.Seat) => s in kept, (id: Id, s: Seat) => id !in gone);
    DeleteIs(st, gone, st.(seats := AsSeats(kept), order := MapSeq(kept, Key)));
  }

  lemma KeptOfOthers(sys: System, q: Runs.LayoutRequest)
    requires Sound(sys) && q.DeleteEvent?
    ensures forall s | s in Runs.Kept(sys.layout, sys.nextId, q).seats :: s.event !in {q.event}
  {
    KeptIsFiltered(sys.layout, sys.nextId, q);
  }

  /** First the deletions: they leave the rows that the layout operation keeps. */
  lemma DeletesRun(sys: System, q: Runs.LayoutRequest)
    requires Sound(sys)
    ensures var kept := Runs.Kept(sys.layout, sys.nextId, q).seats;
      var qs := [P.Delete(Gone(sys.layout.seats, kept))] + if q.DeleteEvent? then [P.DeleteEvents({q.event})] else [];
      && P.PossibleRun(StoreOf(sys), qs)
      && P.Performed(StoreOf(sys), qs) == Store(AsSeats(kept), MapSeq(kept, Key), PerformLayout(sys, q).log, sys.outbox, sys.nextTx)
  {
    hide *;
    var kept := Runs.Kept(sys.layout, sys.nextId, q).seats;
    var delete := P.Delete(Gone(sys.layout.seats, kept));
    var middle := Store(AsSeats(kept), MapSeq(kept, Key), sys.log, sys.outbox, sys.nextTx);
    DeletesGone(sys, q);
    LogOfPerformed(sys, q);
    if q.DeleteEvent? {
      KeptOfOthers(sys, q);
      DeleteEventsIs(middle, kept, {q.event});
      RunsTwo(StoreOf(sys), delete, middle, P.DeleteEvents({q.event}), middle.(log := Without(sys.log, {q.event})));
    } else {
      RunsOne(StoreOf(sys), delete, middle);
      assert [delete] + [] == [delete];
    }
  }

  lemma StoreOfIs(sys: System)
    ensures StoreOf(sys) == Store(AsSeats(sys.layout.seats), MapSeq(sys.layout.seats, Key), sys.log, sys.outbox, sys.nextTx)
  {
  }

  lemma LogOfPerformed(sys: System, q: Runs.LayoutRequest)
    ensures PerformLayout(sys, q).log == if q.DeleteEvent? then Without(sys.log, {q.event}) else sys.log
  {
    hide Runs.Perform;
  }

  lemma DeleteIs(st: Store, gone: set<Id>, after: Store)
    requires P.Keeping(st, (id: Id, s: Seat) => id !in gone) == after
    ensures P.Possible(st, P.Delete(gone)) && P.Perform(st, P.Delete(gone)) == after
  {
    hide P.Keeping;
  }

  lemma DeleteEventsIs(st: Store, rows: seq<L.Seat>, events: set<Id>)
    requires IdsDiffer(rows) && st.seats == AsSeats(rows) && st.order == MapSeq(rows, Key) && forall s | s in rows :: s.event !in events
    ensures P.Possible(st, P.DeleteEvents(events)) && P.Perform(st, P.DeleteEvents(events)) == st.(log := Without(st.log, events))
  {
    hide P.Keeping, AsSeats, Key;
    KeepsAll(st, rows, (id: Id, s: Seat) => s.event !in events);
  }

  lemma RunsOne(st: Store, q: P.Request, after: Store)
    requires P.Possible(st, q) && P.Perform(st, q) == after
    ensures P.PossibleRun(st, [q]) && P.Performed(st, [q]) == after
  {
    hide P.Perform, P.Possible;
    assert [q][1..] == [];
  }

  lemma RunsTwo(st: Store, q: P.Request, middle: Store, r: P.Request, after: Store)
    requires P.Possible(st, q) && P.Perform(st, q) == middle && P.Possible(middle, r) && P.Perform(middle, r) == after
    ensures P.PossibleRun(st, [q] + [r]) && P.Performed(st, [q] + [r]) == after
  {
    hide P.Perform, P.Possible;
    RunsOne(st, q, middle);
    RunsOne(middle, r, after);
    P.ContinueRun(st, [q], [r]);
  }

  lemma NewSeatsUnlogged(log: seq<Entry>, added: seq<L.Seat>, next: L.Id)
    requires LogBelow(log, next) && forall s | s in added :: s.id >= next
    ensures Unlogged(log, added)
  {
    forall e, s | e in log && s in added
      ensures e.seat != Key(s)
    {
      var n: nat :| n < next && e.seat == Print(n);
      KeysDiffer(n, s.id);
    }
  }

  lemma LogShrinks(sys: System, q: Runs.LayoutRequest, next: L.Id)
    requires LogBelow(sys.log, sys.nextId) && sys.nextId <= next
    ensures LogBelow(PerformLayout(sys, q).log, next)
  {
    hide Runs.Perform;
    LogOfPerformed(sys, q);
    forall e | e in PerformLayout(sys, q).log
      ensures Numbered(e.seat, next)
    {
      assert e in sys.log;
    }
  }

  /**
   To the assignments, every layout operation is a deletion of seats followed by creations of seats that were never used
   and that nobody holds.
   */
  lemma LayoutIsDeletesAndCreates(sys: System, q: Runs.LayoutRequest)
    requires Sound(sys)
    ensures P.PossibleRun(StoreOf(sys), SeatRequests(sys, q))
    ensures P.Performed(StoreOf(sys), SeatRequests(sys, q)) == StoreOf(PerformLayout(sys, q))
  {
    hide *;
    var kept, seats := Runs.Kept(sys.layout, sys.nextId, q).seats, Runs.Perform(sys.layout, sys.nextId, q).0.seats;
    SeatsAfter(sys, q);
    DeletesRun(sys, q);
    var middle := Store(AsSeats(kept), MapSeq(kept, Key), PerformLayout(sys, q).log, sys.outbox, sys.nextTx);
    CreatesNew(sys, q, middle, kept, seats);
    var qs := [P.Delete(Gone(sys.layout.seats, kept))] + if q.DeleteEvent? then [P.DeleteEvents({q.event})] else [];
    EndsAt(StoreOf(sys), qs, middle, MapSeq(seats[|kept|..], Creation), middle.(seats := AsSeats(seats), order := MapSeq(seats, Key)));
    SeatRequestsAre(sys, q, kept, seats);
    StoreOfIs(PerformLayout(sys, q));
  }

  lemma SeatsAfter(sys: System, q: Runs.LayoutRequest)
    requires Sound(sys)
    ensures var kept, seats := Runs.Kept(sys.layout, sys.nextId, q).seats, Runs.Perform(sys.layout, sys.nextId, q).0.seats;
      && PerformLayout(sys, q).layout.seats == seats && PerformLayout(sys, q).outbox == sys.outbox && PerformLayout(sys, q).nextTx == sys.nextTx
      && kept <= seats && IdsDiffer(seats) && LogBelow(sys.log, sys.nextId)
      && forall s | s in seats[|kept|..] :: s.Blank() && s.id >= sys.nextId
  {
    PerformedIs(sys, q);
    GrowsByBlank(sys, q);
    var (layout, next) := Runs.Perform(sys.layout, sys.nextId, q);
    hide Runs.Perform, Runs.Kept, L.Valid, P.Sound, IdsDiffer, PerformLayout;
    ValidIds(layout, next);
  }

  lemma CreatesNew(sys: System, q: Runs.LayoutRequest, middle: Store, kept: seq<L.Seat>, seats: seq<L.Seat>)
    requires middle == Store(AsSeats(kept), MapSeq(kept, Key), PerformLayout(sys, q).log, sys.outbox, sys.nextTx)
    requires kept <= seats && IdsDiffer(seats) && LogBelow(sys.log, sys.nextId)
    requires forall s | s in seats[|kept|..] :: s.Blank() && s.id >= sys.nextId
    ensures P.PossibleRun(middle, MapSeq(seats[|kept|..], Creation))
    ensures P.Performed(middle, MapSeq(seats[|kept|..], Creation)) == middle.(seats := AsSeats(seats), order := MapSeq(seats, Key))
  {
    hide *;
    var added := seats[|kept|..];
    assert kept + added == seats;
    LogShrinks(sys, q, sys.nextId);
    NewSeatsUnlogged(PerformLayout(sys, q).log, added, sys.nextId);
    CreatesRun(middle, kept, added);
  }

  lemma EndsAt(st: Store, first: seq<P.Request>, middle: Store, rest: seq<P.Request>, after: Store)
    requires P.PossibleRun(st, first) && P.Performed(st, first) == middle && P.PossibleRun(middle, rest) && P.Performed(middle, rest) == after
    ensures P.PossibleRun(st, first + rest) && P.Performed(st, first + rest) == after
  {
    hide *;
    P.ContinueRun(st, first, rest);
  }

  lemma SeatRequestsAre(sys: System, q: Runs.LayoutRequest, kept: seq<L.Seat>, seats: seq<L.Seat>)
    requires kept == Runs.Kept(sys.layout, sys.nextId, q).seats && seats == Runs.Perform(sys.layout, sys.nextId, q).0.seats && |kept| <= |seats|
    ensures SeatRequests(sys, q)
         == [P.Delete(Gone(sys.layout.seats, kept))] + (if q.DeleteEvent? then [P.DeleteEvents({q.event})] else [])
            + MapSeq(seats[|kept|..], Creation)
  {
    hide Runs.Perform, Runs.Kept;
  }

  lemma PerformedIs(sys: System, q: Runs.LayoutRequest)
    requires Sound(sys)
    ensures var (layout, next) := Runs.Perform(sys.layout, sys.nextId, q); var after := PerformLayout(sys, q);
      && after.layout == layout && after.nextId == next && after.outbox == sys.outbox && after.nextTx == sys.nextTx
      && L.Valid(layout, next)
  {
    hide Runs.Perform, L.Valid;
    Runs.PerformKeepsValid(sys.layout, sys.nextId, q);
  }

  lemma GrowsByBlank(sys: System, q: Runs.LayoutRequest)
    requires Sound(sys)
    ensures var (layout, next) := Runs.Perform(sys.layout, sys.nextId, q); var kept := Runs.Kept(sys.layout, sys.nextId, q).seats;
      && sys.nextId <= next && kept <= layout.seats
      && forall s | s in layout.seats[|kept|..] :: s.Blank() && s.id >= sys.nextId
  {
    hide Runs.Perform, Runs.Kept, L.Valid;
    Runs.PerformGrows(sys.layout, sys.nextId, q);
  }

  lemma LayoutKeepsSound(sys: System, q: Runs.LayoutRequest)
    requires Sound(sys)
    ensures Sound(PerformLayout(sys, q))
  {
    SoundIs(sys);
    PerformedIs(sys, q);
    GrowsByBlank(sys, q);
    hide *;
    LayoutIsDeletesAndCreates(sys, q);
    P.RunsAreSound(StoreOf(sys), SeatRequests(sys, q));
    LogShrinks(sys, q, PerformLayout(sys, q).nextId);
    BothSound(PerformLayout(sys, q));
  }

  lemma SoundIs(sys: System)
    requires Sound(sys)
    ensures L.Valid(sys.layout, sys.nextId) && P.Sound(StoreOf(sys)) && LogBelow(sys.log, sys.nextId)
  {
    hide L.Valid, P.Sound, LogBelow;
  }

  lemma BothSound(sys: System)
    requires L.Valid(sys.layout, sys.nextId) && P.Sound(StoreOf(sys)) && LogBelow(sys.log, sys.nextId)
    ensures Sound(sys)
  {
    hide L.Valid, P.Sound, LogBelow;
  }

  // ---------------------------------------------------------------- assignments over the layout's rows

  predicate Assigns(q: P.Request) {
    q.Assign? || q.AssignGuest? || q.Unassign? || q.UnassignGuest?
  }

  /** The same seats of the same events, and no log entry about any other seat is new. */
  ghost predicate SameRows(before: Store, after: Store) {
    && after.order == before.order && after.seats.Keys == before.seats.Keys
    && (forall id | id in before.seats :: after.seats[id].event == before.seats[id].event)
    && (forall e | e in after.log :: e in before.log || e.seat in before.seats)
  }

  lemma WrittenSameRows(before: Store, st: Store, id: Id, row: Seat, e: Entry)
    requires SameRows(before, st) && id in before.seats && row.event == st.seats[id].event && e.seat == id
    ensures SameRows(before, Written(st, id, row, e))
  {
    hide FactOf;
  }

  lemma {:induction false} ReleasedSameRows(st: Store, ids: seq<Id>)
    requires forall id | id in ids :: id in st.seats
    ensures SameRows(st, ReleasedAll(st, ids))
  {
    hide SameRows, Written;
    if ids == [] {
      RowsAreSame(st, st);
    } else {
      var init, last := ids[..|ids| - 1], ids[|ids| - 1];
      ReleasedSameRows(st, init);
      var before := ReleasedAll(st, init);
      WrittenSameRows(st, before, last, Freed(before.seats[last]), Release(before, last));
    }
  }

  lemma RowsAreSame(st: Store, after: Store)
    requires after.order == st.order && after.seats == st.seats && after.log == st.log
    ensures SameRows(st, after)
  {
  }

  lemma CommittedSameRows(before: Store, st: Store)
    requires SameRows(before, st)
    ensures SameRows(before, Committed(st))
  {
  }

  lemma {:induction false} UnassignedSameRows(st: Store, ids: seq<Id>)
    ensures SameRows(st, UnassignAll(st, ids))
  {
    hide SameRows, Written;
    if ids == [] {
      RowsAreSame(st, st);
    } else {
      var before, last := UnassignAll(st, ids[..|ids| - 1]), ids[|ids| - 1];
      UnassignedSameRows(st, ids[..|ids| - 1]);
      UnassignSameRows(st, before, last);
    }
  }

  lemma UnassignSameRows(st: Store, before: Store, id: Id)
    requires SameRows(st, before)
    ensures SameRows(st, UnassignSeat(before, id))
  {
    if id in before.seats && !before.seats[id].Free() {
      WrittenSameRows(st, before, id, Freed(before.seats[id]), Release(before, id));
      CommittedSameRows(st, Released(before, id));
    }
  }

  lemma ReleaseSameRows(st: Store, id: Id, note: Option<string>)
    requires id in st.seats
    ensures SameRows(st, Committed(Written(st, id, Freed(st.seats[id]).(note := note), Release(st, id))))
  {
    RowsAreSame(st, st);
    hide SameRows, Written;
    WrittenSameRows(st, st, id, Freed(st.seats[id]).(note := note), Release(st, id));
    CommittedSameRows(st, Written(st, id, Freed(st.seats[id]).(note := note), Release(st, id)));
  }

  lemma HoldSameRows(st: Store, id: Id, guest: Option<Id>, invitation: Option<Id>, note: Option<string>, conflicts: seq<Id>)
    requires id in st.seats && forall other | other in conflicts :: other in st.seats
    ensures var row := Held(st.seats[id], guest, invitation, note);
      SameRows(st, Committed(Written(ReleasedAll(st, conflicts), id, row, Claim(st, id, guest, invitation))))
  {
    hide SameRows, Written;
    var cleared := ReleasedAll(st, conflicts);
    var row, e := Held(st.seats[id], guest, invitation, note), Claim(st, id, guest, invitation);
    ReleasedSameRows(st, conflicts);
    WrittenSameRows(st, cleared, id, row, e);
    CommittedSameRows(st, Written(cleared, id, row, e));
  }

  /** An assignment changes nothing, frees the seat, or clears the holder's other seats and gives it this one. */
  lemma AssignStore(st: Store, id: Id, guest: Option<Id>, invitation: Option<Id>, note: Option<string>)
    requires id in st.seats
    ensures var conflicts := Conflicting(st, id, guest, invitation); var after := AssignSeat(st, id, guest, invitation, note).store;
      && (forall other | other in conflicts :: other in st.seats)
      && (after == st || after == Committed(Written(st, id, Freed(st.seats[id]).(note := note), Release(st, id)))
          || after == Committed(Written(ReleasedAll(st, conflicts), id, Held(st.seats[id], guest, invitation, note),
                                        Claim(st, id, guest, invitation))))
  {
    hide Written, Conflicting, ClashesAt, AssignableTo, Committed, ReleasedAll, Release, Claim, Freed, Held;
    ConflictsAreSeats(st, id, guest, invitation);
  }

  lemma NoSeatNoChange(st: Store, id: Id, guest: Option<Id>, invitation: Option<Id>, note: Option<string>)
    requires id !in st.seats
    ensures AssignSeat(st, id, guest, invitation, note).store == st
  {
  }

  lemma AssignSameRows(st: Store, id: Id, guest: Option<Id>, invitation: Option<Id>, note: Option<string>)
    ensures SameRows(st, AssignSeat(st, id, guest, invitation, note).store)
  {
    hide *;
    RowsAreSame(st, st);
    if id in st.seats {
      AssignStore(st, id, guest, invitation, note);
      ReleaseSameRows(st, id, note);
      HoldSameRows(st, id, guest, invitation, note, Conflicting(st, id, guest, invitation));
    } else {
      NoSeatNoChange(st, id, guest, invitation, note);
    }
  }

  lemma ConflictsAreSeats(st: Store, id: Id, guest: Option<Id>, invitation: Option<Id>)
    requires id in st.seats
    ensures forall other | other in Conflicting(st, id, guest, invitation) :: other in st.seats
  {
  }

  lemma AssignGuestSameRows(st: Store, event: Id, guest: Id, invitation: Option<Id>, seatId: Option<Id>, note: Option<string>)
    ensures SameRows(st, AssignSeatToGuest(st, event, guest, invitation, seatId, note).store)
  {
    var o := AssignSeatToGuest(st, event, guest, invitation, seatId, note);
    RowsAreSame(st, st);
    if o.store != st {
      var id := o.result.value.id;
      var row, e := o.result.value.seat, Claim(st, id, Some(guest), invitation);
      hide SameRows, Where, ClashesAt;
      WrittenSameRows(st, st, id, row, e);
      CommittedSameRows(st, Written(st, id, row, e));
    }
  }

  lemma AssigningSameRows(st: Store, q: P.Request)
    requires Assigns(q)
    ensures P.Possible(st, q) && SameRows(st, P.Perform(st, q))
  {
    hide SameRows, AssignSeat, AssignSeatToGuest, UnassignSeat, UnassignAll;
    RowsAreSame(st, st);
    match q
    case Assign(id, guest, invitation, note) => AssignSameRows(st, id, guest, invitation, note);
    case AssignGuest(event, guest, invitation, seatId, note) => AssignGuestSameRows(st, event, guest, invitation, seatId, note);
    case Unassign(id) => UnassignSameRows(st, st, id);
    case UnassignGuest(guest) => UnassignedSameRows(st, SeatsOfGuest(st, guest));
  }

  /** The row with what the assignments write: holder, status and note. */
  function Overlaid(s: L.Seat, t: Seat): L.Seat {
    s.(guest := t.guest, invitation := t.invitation, status := StatusName(t.status), note := t.note)
  }

  function Overlay(rows: seq<L.Seat>, seats: Seats): (after: seq<L.Seat>)
    ensures |after| == |rows|
    ensures forall k | 0 <= k < |rows| :: after[k] == if Key(rows[k]) in seats then Overlaid(rows[k], seats[Key(rows[k])]) else rows[k]
  {
    MapSeq(rows, (s: L.Seat) => if Key(s) in seats then Overlaid(s, seats[Key(s)]) else s)
  }

  ghost function PerformAssignment(sys: System, q: P.Request): System
    requires Assigns(q)
  {
    var st := P.Perform(StoreOf(sys), q);
    System(sys.layout.(seats := Overlay(sys.layout.seats, st.seats)), sys.nextId, st.log, st.outbox, st.nextTx)
  }

  lemma OverlayShows(rows: seq<L.Seat>, seats: Seats)
    requires IdsDiffer(rows) && seats.Keys == AsSeats(rows).Keys
    requires forall id | id in seats :: seats[id].event == AsSeats(rows)[id].event
    ensures IdsDiffer(Overlay(rows, seats)) && AsSeats(Overlay(rows, seats)) == seats
    ensures MapSeq(Overlay(rows, seats), Key) == MapSeq(rows, Key)
  {
    hide AsSeats;
    var after := Overlay(rows, seats);
    forall k | 0 <= k < |rows|
      ensures Key(after[k]) == Key(rows[k]) && Key(after[k]) in seats && seats[Key(after[k])] == AsSeat(after[k])
    {
      AsSeatsAt(rows, k);
    }
    forall id
      ensures id in seats <==> exists k :: 0 <= k < |after| && Key(after[k]) == id
    {
      AsSeatsHas(rows, id);
      if k :| 0 <= k < |rows| && Key(rows[k]) == id {
        assert Key(after[k]) == id;
      }
    }
    SameSeats(after, seats);
  }

  /** On the layout's rows an assignment does what it does on its own view of the seats. */
  lemma AssignmentIsItself(sys: System, q: P.Request)
    requires L.Valid(sys.layout, sys.nextId) && Assigns(q)
    ensures StoreOf(PerformAssignment(sys, q)) == P.Perform(StoreOf(sys), q)
  {
    var st := P.Perform(StoreOf(sys), q);
    hide P.Perform, Overlay, AsSeats, L.Valid;
    ValidIds(sys.layout, sys.nextId);
    AssigningSameRows(StoreOf(sys), q);
    OverlayShows(sys.layout.seats, st.seats);
  }

  /** The seats differ in nothing that a constraint mentions. */
  ghost predicate SamePlaces(rows: seq<L.Seat>, after: seq<L.Seat>) {
    && |after| == |rows|
    && forall k | 0 <= k < |rows| ::
      && after[k].id == rows[k].id && after[k].sectionId == rows[k].sectionId && after[k].tableId == rows[k].tableId
      && after[k].seatType == rows[k].seatType && after[k].status in L.STATUSES && after[k].shape == rows[k].shape && rows[k] in rows
  }

  lemma SamePlacesAreValid(l: L.Layout, next: L.Id, after: seq<L.Seat>)
    requires L.Valid(l, next) && SamePlaces(l.seats, after)
    ensures L.Valid(l.(seats := after), next)
  {
    var u := l.(seats := after);
    assert L.Named(u);
    assert L.Linked(u);
    assert L.Typed(u);
    assert L.Identified(u, next);
  }

  lemma OverlayIsValid(l: L.Layout, next: L.Id, seats: Seats)
    requires L.Valid(l, next)
    ensures L.Valid(l.(seats := Overlay(l.seats, seats)), next)
  {
    OverlayStays(l, next, seats);
    hide *;
    SamePlacesAreValid(l, next, Overlay(l.seats, seats));
  }

  lemma OverlayStays(l: L.Layout, next: L.Id, seats: Seats)
    requires L.Valid(l, next)
    ensures SamePlaces(l.seats, Overlay(l.seats, seats))
  {
    hide L.Named, L.Linked, L.Identified, Overlaid, StatusName;
    var after := Overlay(l.seats, seats);
    forall k | 0 <= k < |after|
      ensures var s, t := l.seats[k], after[k];
        && t.id == s.id && t.sectionId == s.sectionId && t.tableId == s.tableId && t.seatType == s.seatType && t.status in L.STATUSES
        && t.shape == s.shape
        && s in l.seats
    {
      if Key(l.seats[k]) in seats {
        OverlaidIs(l.seats[k], seats[Key(l.seats[k])]);
      }
    }
  }

  lemma OverlaidIs(s: L.Seat, t: Seat)
    ensures var o := Overlaid(s, t);
      o.id == s.id && o.sectionId == s.sectionId && o.tableId == s.tableId && o.seatType == s.seatType && o.status in L.STATUSES
      && o.shape == s.shape
  {
  }

  lemma AssignmentKeepsSound(sys: System, q: P.Request)
    requires Sound(sys) && Assigns(q)
    ensures Sound(PerformAssignment(sys, q))
  {
    SoundIs(sys);
    hide *;
    AssignmentIsItself(sys, q);
    AssigningSameRows(StoreOf(sys), q);
    P.PerformIsSound(StoreOf(sys), q);
    AssignmentIs(sys, q);
    OverlayIsValid(sys.layout, sys.nextId, P.Perform(StoreOf(sys), q).seats);
    LogStaysBelow(sys, q);
    BothSound(PerformAssignment(sys, q));
  }

  lemma AssignmentIs(sys: System, q: P.Request)
    requires Assigns(q)
    ensures PerformAssignment(sys, q).layout == sys.layout.(seats := Overlay(sys.layout.seats, P.Perform(StoreOf(sys), q).seats))
    ensures PerformAssignment(sys, q).nextId == sys.nextId && PerformAssignment(sys, q).log == P.Perform(StoreOf(sys), q).log
  {
    hide P.Perform, Overlay;
  }

  lemma LogStaysBelow(sys: System, q: P.Request)
    requires Sound(sys) && Assigns(q)
    ensures LogBelow(P.Perform(StoreOf(sys), q).log, sys.nextId)
  {
    hide P.Perform, AsSeats, P.Sound;
    AssigningSameRows(StoreOf(sys), q);
    ValidIds(sys.layout, sys.nextId);
    hide L.Valid;
    forall e | e in P.Perform(StoreOf(sys), q).log
      ensures Numbered(e.seat, sys.nextId)
    {
      if e !in sys.log {
        AsSeatsHas(sys.layout.seats, e.seat);
        var k :| 0 <= k < |sys.layout.seats| && Key(sys.layout.seats[k]) == e.seat;
        assert sys.layout.seats[k] in sys.layout.seats;
      }
    }
  }

  // ---------------------------------------------------------------- every run

  datatype Request = ToLayout(layout: Runs.LayoutRequest) | ToSeats(seats: P.Request)

  ghost predicate AllPossible(rs: seq<Request>) {
    forall k | 0 <= k < |rs| && rs[k].ToSeats? :: Assigns(rs[k].seats)
  }

  ghost function Performed(sys: System, rs: seq<Request>): System
    requires AllPossible(rs)
    decreases |rs|
  {
    if |rs| == 0 then sys
    else
      var after := match rs[0] case ToLayout(q) => PerformLayout(sys, q) case ToSeats(q) => PerformAssignment(sys, q);
      Performed(after, rs[1..])
  }

  /**
   In every state of every run of layout operations and assignments over the same rows: no row dangles, names and ids
   are unique, no two seats of an event share a guest or an invitation, held seats are assigned, replaying the log gives
   each seat's holder, and each log entry has its fact.
   */
  lemma {:induction false} RunsAreSound(sys: System, rs: seq<Request>)
    requires Sound(sys) && AllPossible(rs)
    ensures Sound(Performed(sys, rs))
    decreases |rs|
  {
    hide Sound, PerformLayout, PerformAssignment;
    if |rs| > 0 {
      var after := match rs[0] case ToLayout(q) => PerformLayout(sys, q) case ToSeats(q) => PerformAssignment(sys, q);
      match rs[0] {
        case ToLayout(q) => LayoutKeepsSound(sys, q);
        case ToSeats(q) => AssignmentKeepsSound(sys, q);
      }
      RunsAreSound(after, rs[1..]);
    }
  }

  /** Nothing stored yet. */
  function Empty(): System {
    System(L.Layout([], [], []), 0, [], [], 0)
  }

  lemma EmptyIsSound()
    ensures Sound(Empty())
  {
  }

  /** In particular, over every run that starts with nothing stored. */
  lemma RunsFromEmptyAreSound(rs: seq<Request>)
    requires AllPossible(rs)
    ensures Sound(Performed(Empty(), rs))
  {
    hide *;
    EmptyIsSound();
    RunsAreSound(Empty(), rs);
  }
}
