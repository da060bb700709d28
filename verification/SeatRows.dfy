/** Seat rows, the assignment log and the analytics outbox, and what ties the three together. */
module SeatRows {
  import opened Results

  type Id = string
  type TxId = nat

  datatype SeatStatus = AVAILABLE | RESERVED | ASSIGNED | BLOCKED

  datatype Seat = Seat(event: Id, guest: Option<Id>, invitation: Option<Id>, status: SeatStatus, note: Option<string>)
  {
    predicate Free() { guest.None? && invitation.None? }
  }

  type Seats = map<Id, Seat>

  datatype Change = Assigned | Unassigned

  datatype Entry = Entry(tx: TxId, event: Id, seat: Id, guest: Option<Id>, invitation: Option<Id>, change: Change)
  {
    function Subject(): Option<Id> { if guest.Some? then guest else invitation }
  }

  datatype Fact = Fact(tx: TxId, event: Id, seat: Id, subject: Id, change: Change)

  function Freed(s: Seat): Seat {
    s.(guest := None, invitation := None, status := AVAILABLE, note := None)
  }

  function Held(s: Seat, guest: Option<Id>, invitation: Option<Id>, note: Option<string>): Seat {
    s.(guest := guest, invitation := invitation, status := ASSIGNED, note := note)
  }

  /** What an assignment requires of its seat: available and free, or held by exactly this holder already. */
  predicate AssignableTo(s: Seat, guest: Option<Id>, invitation: Option<Id>) {
    (s.status.AVAILABLE? && s.Free()) || (s.guest == guest && s.invitation == invitation)
  }

  /** The seat, as it was read, is reserved for the invitation. */
  predicate ReservedFor(s: Seat, invitation: Option<Id>) {
    invitation.Some? && s.invitation == invitation && s.guest.None?
  }

  /** What an assignment to a guest requires of its seat, given whether it was read as reserved for the invitation. */
  predicate AssignableToGuest(s: Seat, event: Id, invitation: Option<Id>, reserved: bool) {
    && s.event == event
    && if reserved then s.invitation == invitation && s.guest.None? else s.status.AVAILABLE? && s.Free()
  }

  /** Two seats of one event that share a guest or an invitation. */
  predicate Clash(s: Seat, t: Seat) {
    && s.event == t.event
    && ((s.guest.Some? && s.guest == t.guest) || (s.invitation.Some? && s.invitation == t.invitation))
  }

  predicate ClashesAt(seats: Seats, id: Id)
    requires id in seats
  {
    exists other | other in seats :: other != id && Clash(seats[other], seats[id])
  }

  /** The two unique constraints of the seat table. */
  predicate Unique(seats: Seats) {
    forall a, b | a in seats && b in seats && a != b :: !Clash(seats[a], seats[b])
  }

  predicate HeldIsAssigned(seats: Seats) {
    forall id | id in seats && !seats[id].Free() :: seats[id].status == ASSIGNED
  }

  predicate AssignedIsHeld(seats: Seats) {
    forall id | id in seats && seats[id].status == ASSIGNED :: !seats[id].Free()
  }

  /** A holder that becomes another one without the seat being free in between. */
  predicate Swaps(before: Seat, after: Seat) {
    || (before.guest.Some? && after.guest.Some? && before.guest != after.guest)
    || (before.invitation.Some? && after.invitation.Some? && before.invitation != after.invitation)
  }

  // ---------------------------------------------------------------- replaying the log

  function Latest(log: seq<Entry>, seat: Id): (e: Option<Entry>)
    ensures e.Some? ==> e.value in log && e.value.seat == seat
    ensures e.None? ==> forall x | x in log :: x.seat != seat
  {
    if log == [] then None
    else if log[|log| - 1].seat == seat then Some(log[|log| - 1])
    else Latest(log[..|log| - 1], seat)
  }

  lemma {:induction false} LatestOfBoth(log: seq<Entry>, more: seq<Entry>, seat: Id)
    ensures Latest(log + more, seat) == if Latest(more, seat).Some? then Latest(more, seat) else Latest(log, seat)
  {
    if more == [] {
      assert log + more == log;
    } else {
      assert (log + more)[..|log + more| - 1] == log + more[..|more| - 1];
      LatestOfBoth(log, more[..|more| - 1], seat);
    }
  }

  /** The log without the entries of some events. */
  function Without(log: seq<Entry>, events: set<Id>): (kept: seq<Entry>)
    ensures forall e | e in kept :: e in log && e.event !in events
    ensures forall e | e in log && e.event !in events :: e in kept
  {
    if log == [] then []
    else
      var last := log[|log| - 1];
      Without(log[..|log| - 1], events) + if last.event in events then [] else [last]
  }

  lemma {:induction false} LatestOfWithout(log: seq<Entry>, events: set<Id>, seat: Id)
    requires forall e | e in log && e.seat == seat :: e.event !in events
    ensures Latest(Without(log, events), seat) == Latest(log, seat)
  {
    if log != [] {
      var init, last := log[..|log| - 1], log[|log| - 1];
      LatestOfWithout(init, events, seat);
      LatestOfBoth(Without(init, events), if last.event in events then [] else [last], seat);
      assert Latest([last], seat) == if last.seat == seat then Some(last) else None;
    }
  }

  /** The latest entry of a seat tells its holder: an assignment to exactly that holder, or nothing but a release. */
  predicate Tells(last: Option<Entry>, s: Seat) {
    if s.Free() then last.None? || (last.value.change == Unassigned && last.value.event == s.event)
    else
      && last.Some? && last.value.change == Assigned && last.value.event == s.event
      && last.value.guest == s.guest && last.value.invitation == s.invitation
  }

  predicate Replays(seats: Seats, log: seq<Entry>) {
    forall id | id in seats :: Tells(Latest(log, id), seats[id])
  }

  /** All entries of one seat name the same event, which is the seat's while it exists. */
  ghost predicate OneEventPerSeat(seats: Seats, log: seq<Entry>) {
    && (forall e, f | e in log && f in log && e.seat == f.seat :: e.event == f.event)
    && (forall e | e in log && e.seat in seats :: e.event == seats[e.seat].event)
  }

  // ---------------------------------------------------------------- one outbox fact per log entry

  function FactOf(e: Entry): Option<Fact> {
    match e.Subject()
    case None => None
    case Some(subject) => Some(Fact(e.tx, e.event, e.seat, subject, e.change))
  }

  function FactsOf(entries: seq<Entry>): seq<Fact> {
    if entries == [] then []
    else
      var init, last := FactsOf(entries[..|entries| - 1]), FactOf(entries[|entries| - 1]);
      init + if last.Some? then [last.value] else []
  }

  /** Every entry has its fact, and a transaction writes at most one entry and one fact for a seat. */
  ghost predicate Paired(log: seq<Entry>, outbox: seq<Fact>) {
    && (forall e | e in log :: FactOf(e).Some? && FactOf(e).value in outbox)
    && OncePerSeat(log) && (forall i, j | 0 <= i < j < |outbox| :: outbox[i].tx != outbox[j].tx || outbox[i].seat != outbox[j].seat)
  }

  ghost predicate OncePerSeat(log: seq<Entry>) {
    forall i, j | 0 <= i < j < |log| :: log[i].tx != log[j].tx || log[i].seat != log[j].seat
  }

  /** Exactly one fact of the outbox comes from the same transaction for the same seat, and it states the same change. */
  lemma ExactlyOneFact(log: seq<Entry>, outbox: seq<Fact>, e: Entry) returns (i: nat)
    requires Paired(log, outbox) && e in log
    ensures i < |outbox| && outbox[i].tx == e.tx && outbox[i].seat == e.seat
    ensures outbox[i].change == e.change && outbox[i].event == e.event && e.Subject() == Some(outbox[i].subject)
    ensures forall j | 0 <= j < |outbox| && outbox[j].tx == e.tx && outbox[j].seat == e.seat :: j == i
  {
    i :| 0 <= i < |outbox| && outbox[i] == FactOf(e).value;
  }

  lemma PairedAppend(log: seq<Entry>, outbox: seq<Fact>, e: Entry)
    requires Paired(log, outbox) && FactOf(e).Some?
    requires forall f | f in outbox && f.tx == e.tx :: f.seat != e.seat
    ensures Paired(log + [e], outbox + [FactOf(e).value])
  {
    var f := FactOf(e).value;
    forall x | x in log
      ensures x.tx != e.tx || x.seat != e.seat
    {
      assert FactOf(x).value in outbox;
    }
    assert f in outbox + [f];
  }

  lemma {:induction false} OncePerSeatWithout(log: seq<Entry>, events: set<Id>)
    requires OncePerSeat(log)
    ensures OncePerSeat(Without(log, events))
  {
    if log != [] {
      OncePerSeatWithout(log[..|log| - 1], events);
    }
  }

  lemma PairedWithout(log: seq<Entry>, outbox: seq<Fact>, events: set<Id>)
    requires Paired(log, outbox)
    ensures Paired(Without(log, events), outbox)
  {
    OncePerSeatWithout(log, events);
  }

  /** A fact of the transaction about a seat that one of its entries is about. */
  ghost predicate Reports(entries: seq<Entry>, tx: TxId, f: Fact) {
    f.tx == tx && exists e :: e in entries && e.seat == f.seat
  }

  lemma ReportsMore(init: seq<Entry>, last: Entry, tx: TxId, f: Fact)
    requires Reports(init, tx, f)
    ensures Reports(init + [last], tx, f)
  {
    var e :| e in init && e.seat == f.seat;
    assert e in init + [last];
  }

  lemma LastReports(init: seq<Entry>, last: Entry, tx: TxId)
    requires FactOf(last).Some? && last.tx == tx
    ensures Reports(init + [last], tx, FactOf(last).value)
  {
    assert last in init + [last];
  }

  lemma {:induction false} FactsReport(entries: seq<Entry>, tx: TxId)
    requires forall e | e in entries :: e.tx == tx && FactOf(e).Some?
    ensures forall f | f in FactsOf(entries) :: Reports(entries, tx, f)
  {
    if entries != [] {
      var init, last := entries[..|entries| - 1], entries[|entries| - 1];
      assert init + [last] == entries && last in entries;
      FactsReport(init, tx);
      FactsOneMore(init, last);
      LastReports(init, last, tx);
      hide Reports, FactsOf, FactOf;
      forall f | f in FactsOf(init)
        ensures Reports(entries, tx, f)
      {
        ReportsMore(init, last, tx, f);
      }
    }
  }

  lemma NotReported(init: seq<Entry>, last: Entry, facts: seq<Fact>)
    requires (forall f | f in facts :: Reports(init, last.tx, f)) && forall e | e in init :: e.tx != last.tx || e.seat != last.seat
    requires forall e | e in init :: e.tx == last.tx
    ensures forall f | f in facts :: f.seat != last.seat
  {
  }

  /** The entries of one transaction, which writes each seat at most once, join the log together with their facts. */
  lemma {:induction false} PairedAppendAll(log: seq<Entry>, outbox: seq<Fact>, entries: seq<Entry>, tx: TxId)
    requires Paired(log, outbox) && OncePerSeat(entries)
    requires forall e | e in entries :: e.tx == tx && FactOf(e).Some?
    requires forall f | f in outbox :: f.tx != tx
    ensures Paired(log + entries, outbox + FactsOf(entries))
  {
    if entries == [] {
      assert log + entries == log && outbox + FactsOf(entries) == outbox;
    } else {
      var init, last := entries[..|entries| - 1], entries[|entries| - 1];
      assert init + [last] == entries && last in entries;
      OncePerSeatBefore(init, last);
      hide *;
      PairedAppendAll(log, outbox, init, tx);
      FactsReport(init, tx);
      NotReported(init, last, FactsOf(init));
      PairedAppend(log + init, outbox + FactsOf(init), last);
      FactsOneMore(init, last);
      assert log + entries == (log + init) + [last];
      assert outbox + FactsOf(entries) == (outbox + FactsOf(init)) + [FactOf(last).value];
    }
  }

  lemma OncePerSeatBefore(init: seq<Entry>, last: Entry)
    requires OncePerSeat(init + [last])
    ensures OncePerSeat(init) && forall e | e in init :: e.tx != last.tx || e.seat != last.seat
  {
    var entries := init + [last];
    assert entries[|init|] == last && forall i | 0 <= i < |init| :: entries[i] == init[i];
  }

  lemma FactsOneMore(init: seq<Entry>, last: Entry)
    requires FactOf(last).Some?
    ensures FactsOf(init + [last]) == FactsOf(init) + [FactOf(last).value]
  {
    assert (init + [last])[..|init|] == init;
  }

  // ---------------------------------------------------------------- races for one seat

  /** A later assignment that keeps whoever an earlier one, not released since, had seated. */
  predicate Keeps(earlier: Entry, later: Entry) {
    && (earlier.guest.Some? ==> later.guest == earlier.guest)
    && (earlier.invitation.Some? ==> later.invitation == earlier.invitation)
  }

  predicate Follows(last: Option<Entry>, e: Entry) {
    last.Some? && last.value.change == Assigned && e.change == Assigned ==> Keeps(last.value, e)
  }

  /** A release names the holder that the assignment before it seated. */
  predicate Names(last: Option<Entry>, e: Entry) {
    e.change == Unassigned ==>
      last.Some? && last.value.change == Assigned && last.value.guest == e.guest && last.value.invitation == e.invitation
  }

  /** Every entry stands in a relation to the latest earlier entry of its seat. */
  predicate Each(log: seq<Entry>, rel: (Option<Entry>, Entry) -> bool) {
    log == [] || (Each(log[..|log| - 1], rel) && rel(Latest(log[..|log| - 1], log[|log| - 1].seat), log[|log| - 1]))
  }

  /** No assignment in the log displaces the one before it. */
  predicate Fair(log: seq<Entry>) {
    Each(log, Follows)
  }

  /** Every release in the log names the holder whom the log had put on the seat. */
  predicate Named(log: seq<Entry>) {
    Each(log, Names)
  }

  /** Of two assignments of one seat to different guests, the seat was released in between: one racer wins. */
  lemma {:induction false} OneWinner(log: seq<Entry>, i: nat, j: nat)
    requires Fair(log) && i < j < |log| && log[i].seat == log[j].seat
    requires log[i].change == Assigned && log[j].change == Assigned && !Keeps(log[i], log[j])
    ensures exists k | i < k < j :: log[k].seat == log[i].seat && log[k].change == Unassigned
    decreases j
  {
    EachAt(log, Follows, j);
    var before := log[..j];
    var last := Latest(before, log[j].seat);
    assert before[i] in before;
    var k := LatestAt(before, log[j].seat, i);
    if log[k].change == Assigned {
      assert i < k;
      OneWinner(log, i, k);
    }
  }

  lemma {:induction false} EachAt(log: seq<Entry>, rel: (Option<Entry>, Entry) -> bool, j: nat)
    requires Each(log, rel) && j < |log|
    ensures Each(log[..j], rel) && rel(Latest(log[..j], log[j].seat), log[j])
  {
    if j < |log| - 1 {
      EachAt(log[..|log| - 1], rel, j);
      assert log[..|log| - 1][..j] == log[..j];
    }
  }

  lemma {:induction false} LatestAt(log: seq<Entry>, seat: Id, i: nat) returns (k: nat)
    requires i < |log| && log[i].seat == seat
    ensures i <= k < |log| && log[k].seat == seat && Latest(log, seat) == Some(log[k])
  {
    if log[|log| - 1].seat == seat {
      k := |log| - 1;
    } else {
      k := LatestAt(log[..|log| - 1], seat, i);
    }
  }

  lemma {:induction false} EachAppend(log: seq<Entry>, entries: seq<Entry>, rel: (Option<Entry>, Entry) -> bool)
    requires Each(log, rel) && (forall i, j | 0 <= i < j < |entries| :: entries[i].seat != entries[j].seat)
    requires forall e | e in entries :: rel(Latest(log, e.seat), e)
    ensures Each(log + entries, rel)
  {
    if entries == [] {
      assert log + entries == log;
    } else {
      var init, last := entries[..|entries| - 1], entries[|entries| - 1];
      OtherSeats(init, last, entries);
      hide *;
      EachAppend(log, init, rel);
      LatestOfBoth(log, init, last.seat);
      EachExtends(log + init, last, rel);
      assert log + entries == (log + init) + [last];
    }
  }

  lemma OtherSeats(init: seq<Entry>, last: Entry, entries: seq<Entry>)
    requires entries == init + [last] && forall i, j | 0 <= i < j < |entries| :: entries[i].seat != entries[j].seat
    ensures Latest(init, last.seat) == None && last in entries && forall e | e in init :: e in entries
    ensures forall i, j | 0 <= i < j < |init| :: init[i].seat != init[j].seat
  {
    assert entries[|init|] == last && forall i | 0 <= i < |init| :: entries[i] == init[i];
  }

  lemma EachExtends(log: seq<Entry>, e: Entry, rel: (Option<Entry>, Entry) -> bool)
    requires Each(log, rel) && rel(Latest(log, e.seat), e)
    ensures Each(log + [e], rel)
  {
    assert (log + [e])[..|log|] == log;
  }

  lemma {:induction false} EachWithout(log: seq<Entry>, events: set<Id>, rel: (Option<Entry>, Entry) -> bool)
    requires Each(log, rel) && forall e, f | e in log && f in log && e.seat == f.seat :: e.event == f.event
    ensures Each(Without(log, events), rel)
  {
    if log != [] {
      var init, last := log[..|log| - 1], log[|log| - 1];
      hide Each;
      assert Each(init, rel) && rel(Latest(init, last.seat), last) by {
        EachAt(log, rel, |log| - 1);
      }
      EachWithout(init, events, rel);
      if last.event !in events {
        LatestOfWithout(init, events, last.seat);
        EachExtends(Without(init, events), last, rel);
        assert Without(log, events) == Without(init, events) + [last];
      } else {
        assert Without(log, events) == Without(init, events);
      }
    }
  }
}
