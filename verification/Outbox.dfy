/** One outbox record: when it may be claimed, and what claiming, publishing and failing write. */
module Outbox {
  import opened Results

  const LEASE := 60_000
  const MAX_ATTEMPTS := 10
  const MAX_DELAY := 300_000
  const BATCH := 50

  type Id = string
  type PublisherId = string

  /** Times are milliseconds. */
  datatype Record = Record(attempts: int, nextAttemptAt: int, lockedAt: Option<int>, lockedBy: Option<PublisherId>,
                           publishedAt: Option<int>, deadLetteredAt: Option<int>)

  function NewRecord(now: int): Record {
    Record(0, now, None, None, None, None)
  }

  predicate Settled(r: Record) {
    r.publishedAt.Some? || r.deadLetteredAt.Some?
  }

  predicate LeaseFree(r: Record, now: int) {
    r.lockedAt.None? || r.lockedAt.value < now - LEASE
  }

  /** What the claiming update requires of the row. */
  predicate Claimable(r: Record, now: int) {
    !Settled(r) && LeaseFree(r, now)
  }

  /** What the query for candidates requires of the row. */
  predicate Ready(r: Record, now: int) {
    Claimable(r, now) && r.nextAttemptAt <= now
  }

  function Claimed(r: Record, now: int, owner: PublisherId): Record {
    r.(lockedAt := Some(now), lockedBy := Some(owner))
  }

  function Published(r: Record, now: int): Record {
    r.(publishedAt := Some(now), lockedAt := None, lockedBy := None)
  }

  function Pow2(n: nat): nat {
    if n == 0 then 1 else 2 * Pow2(n - 1)
  }

  /** The delay before attempt number `attempts` + 1. */
  function Backoff(attempts: nat): (d: int)
    ensures 0 < d <= MAX_DELAY
  {
    Pow2Positive(attempts);
    if Pow2(attempts) * 1000 < MAX_DELAY then Pow2(attempts) * 1000 else MAX_DELAY
  }

  lemma {:induction false} Pow2Positive(n: nat)
    ensures Pow2(n) > 0
  {
    if n > 0 {
      Pow2Positive(n - 1);
    }
  }

  /** A failure counts on from the attempts that were read, which need not be the attempts now stored. */
  function Failed(r: Record, attemptsRead: int, now: int): Record {
    var attempts := attemptsRead + 1;
    var unlocked := r.(attempts := attempts, lockedAt := None, lockedBy := None);
    if attempts >= MAX_ATTEMPTS then unlocked.(deadLetteredAt := Some(now))
    else unlocked.(nextAttemptAt := now + Backoff(if attempts >= 0 then attempts else 0))
  }

  /** One undisturbed turn of a publisher on one candidate. */
  function Turn(r: Record, now: int, owner: PublisherId, delivered: bool): Record {
    if !Claimable(r, now) then r
    else if delivered then Published(Claimed(r, now, owner), now)
    else Failed(Claimed(r, now, owner), r.attempts, now)
  }

  /** An undisturbed turn leaves no lock behind: the record is settled, or it waits for a later attempt. */
  lemma TurnReleases(r: Record, now: int, owner: PublisherId, delivered: bool)
    requires Claimable(r, now) && 0 <= r.attempts < MAX_ATTEMPTS
    ensures var t := Turn(r, now, owner, delivered);
      && t.lockedAt == None && t.lockedBy == None && !Ready(t, now)
      && (delivered <==> t.publishedAt.Some?)
      && (t.deadLetteredAt.Some? <==> !delivered && t.attempts == MAX_ATTEMPTS)
      && (!Settled(t) ==> now < t.nextAttemptAt <= now + MAX_DELAY)
  {
  }

  type Records = map<Id, Record>

  /** The ids of `order` that are ready, in that order. */
  function ReadyIds(records: Records, order: seq<Id>, now: int): (ids: seq<Id>)
    ensures forall id | id in ids :: id in order && id in records && Ready(records[id], now)
    ensures forall id | id in order && id in records && Ready(records[id], now) :: id in ids
    ensures |ids| <= |order|
  {
    if order == [] then []
    else
      (if order[0] in records && Ready(records[order[0]], now) then [order[0]] else []) + ReadyIds(records, order[1..], now)
  }

  function Candidates(records: Records, order: seq<Id>, now: int): seq<Id> {
    var ready := ReadyIds(records, order, now);
    if |ready| <= BATCH then ready else ready[..BATCH]
  }

  /** The records after undisturbed turns on the first candidates of a batch. */
  function Turns(records: Records, ids: seq<Id>, now: int, owner: PublisherId, delivered: Id -> bool): (after: Records)
    ensures after.Keys == records.Keys
  {
    if ids == [] then records
    else
      var last := |ids| - 1;
      var before := Turns(records, ids[..last], now, owner, delivered);
      if ids[last] in before then before[ids[last] := Turn(before[ids[last]], now, owner, delivered(ids[last]))] else before
  }

  lemma NoTurns(records: Records, now: int, owner: PublisherId, delivered: Id -> bool)
    ensures Turns(records, [], now, owner, delivered) == records
  {
  }

  lemma NextTurn(records: Records, ids: seq<Id>, k: nat, now: int, owner: PublisherId, delivered: Id -> bool)
    requires k < |ids|
    ensures var before := Turns(records, ids[..k], now, owner, delivered);
      Turns(records, ids[..k + 1], now, owner, delivered)
      == if ids[k] in before then before[ids[k] := Turn(before[ids[k]], now, owner, delivered(ids[k]))] else before
  {
    hide Turn;
    assert ids[..k + 1][..k] == ids[..k];
  }

  /** analytics-outbox.publisher.ts, one instance running undisturbed with the broker's answers given. */
  class AnalyticsOutboxPublisher {
    const instanceId: PublisherId
    var running: bool
    var records: Records
    var order: seq<Id>

    constructor (instanceId: PublisherId, records: Records, order: seq<Id>)
      ensures this.instanceId == instanceId && this.records == records && this.order == order && !running
    {
      this.instanceId, this.records, this.order, running := instanceId, records, order, false;
    }

    method Publish(id: Id, now: int, delivered: bool)
      requires id in records
      modifies this`records
      ensures records == old(records)[id := if delivered then Published(old(records)[id], now)
                                            else Failed(old(records)[id], old(records)[id].attempts, now)]
    {
      var record := records[id];
      if delivered {
        records := records[id := record.(publishedAt := Some(now), lockedAt := None, lockedBy := None)];
      } else {
        var attempts := record.attempts + 1;
        var updated := record.(attempts := attempts, lockedAt := None, lockedBy := None);
        if attempts >= MAX_ATTEMPTS {
          updated := updated.(deadLetteredAt := Some(now));
        } else {
          updated := updated.(nextAttemptAt := now + Backoff(if attempts >= 0 then attempts else 0));
        }
        records := records[id := updated];
      }
    }

    /** Claim the record if it is still claimable, and publish it if the claim took. */
    method ClaimAndPublish(id: Id, now: int, delivered: bool)
      modifies this`records
      ensures records == if id in old(records) then old(records)[id := Turn(old(records)[id], now, instanceId, delivered)]
                         else old(records)
    {
      if id in records {
        if Claimable(records[id], now) {
          records := records[id := records[id].(lockedAt := Some(now), lockedBy := Some(instanceId))];
          Publish(id, now, delivered);
        }
      }
    }

    method PublishReady(now: int, delivered: Id -> bool)
      modifies this
      ensures order == old(order) && running == old(running)
      ensures records == if old(running) then old(records)
                         else Turns(old(records), Candidates(old(records), order, now), now, instanceId, delivered)
    {
      if running {
        return;
      }
      hide Candidates, Turn, Turns;
      NoTurns(records, now, instanceId, delivered);
      running := true;
      var candidates := Candidates(records, order, now);
      for k := 0 to |candidates|
        invariant running && order == old(order)
        invariant records == Turns(old(records), candidates[..k], now, instanceId, delivered)
      {
        var id := candidates[k];
        NextTurn(old(records), candidates, k, now, instanceId, delivered);
        ClaimAndPublish(id, now, delivered(id));
      }
      assert candidates[..|candidates|] == candidates;
      running := false;
    }
  }

  lemma {:induction false} TurnsFrame(records: Records, ids: seq<Id>, now: int, owner: PublisherId, delivered: Id -> bool, id: Id)
    requires id in records && id !in ids
    ensures Turns(records, ids, now, owner, delivered)[id] == records[id]
  {
    if ids != [] {
      TurnsFrame(records, ids[..|ids| - 1], now, owner, delivered, id);
    }
  }

  /** Every candidate of an undisturbed batch gets exactly one turn; nothing else changes. */
  lemma {:induction false} BatchTurns(records: Records, ids: seq<Id>, now: int, owner: PublisherId, delivered: Id -> bool, id: Id)
    requires id in records && forall i, j | 0 <= i < j < |ids| :: ids[i] != ids[j]
    ensures Turns(records, ids, now, owner, delivered)[id]
         == if id in ids then Turn(records[id], now, owner, delivered(id)) else records[id]
  {
    if id !in ids {
      TurnsFrame(records, ids, now, owner, delivered, id);
    } else if ids[|ids| - 1] == id {
      TurnsFrame(records, ids[..|ids| - 1], now, owner, delivered, id);
    } else {
      BatchTurns(records, ids[..|ids| - 1], now, owner, delivered, id);
    }
  }

  /** The delay starts from one second and doubles with each attempt, up to five minutes. */
  lemma BackoffDoubles(attempts: nat)
    ensures Backoff(0) == 1_000
    ensures Backoff(attempts + 1) == if 2 * Backoff(attempts) <= 300_000 then 2 * Backoff(attempts) else 300_000
  {
    Pow2Positive(attempts);
  }

  /** The record waits for a publisher: it is not settled, its next attempt is due and no lease of the last minute is on it. */
  predicate Due(r: Record, now: int) {
    && r.publishedAt == None && r.deadLetteredAt == None && r.nextAttemptAt <= now
    && (r.lockedAt == None || r.lockedAt.value + 60_000 < now)
  }

  ghost predicate Increasing(at: seq<nat>) {
    forall j, k | 0 <= j < k < |at| :: at[j] < at[k]
  }

  /** The places, one further on, after the first place if it is wanted. */
  function Shifted(at: seq<nat>, first: bool): (after: seq<nat>)
    ensures |after| == |at| + if first then 1 else 0
    ensures forall k | 0 <= k < |after| :: after[k] == if first && k == 0 then 0 else at[if first then k - 1 else k] + 1
  {
    (if first then [0] else []) + seq(|at|, k requires 0 <= k < |at| => at[k] + 1)
  }

  lemma ShiftedIncreases(at: seq<nat>, first: bool)
    requires Increasing(at)
    ensures Increasing(Shifted(at, first))
  {
    var after := Shifted(at, first);
    hide Shifted;
    forall j, k | 0 <= j < k < |after|
      ensures after[j] < after[k]
    {
    }
  }

  lemma ShiftedPlaces(at: seq<nat>, first: bool)
    ensures 0 in Shifted(at, first) <==> first
    ensures forall p: nat :: p + 1 in Shifted(at, first) <==> p in at
  {
    var after := Shifted(at, first);
    hide Shifted;
    forall p: nat
      ensures p + 1 in after <==> p in at
    {
      if p in at {
        var k :| 0 <= k < |at| && at[k] == p;
        assert after[if first then k + 1 else k] == p + 1;
      }
    }
    if first {
      assert after[0] == 0;
    }
  }

  predicate DueAt(records: Records, order: seq<Id>, now: int, p: int) {
    0 <= p < |order| && order[p] in records && Due(records[order[p]], now)
  }

  lemma {:induction false} ReadyPlaces(records: Records, order: seq<Id>, now: int) returns (at: seq<nat>)
    ensures var ids := ReadyIds(records, order, now);
      |at| == |ids| && forall k | 0 <= k < |at| :: at[k] < |order| && order[at[k]] == ids[k]
    ensures Increasing(at) && forall p: nat :: p in at <==> DueAt(records, order, now, p)
  {
    if order == [] {
      at := [];
    } else {
      var rest := ReadyPlaces(records, order[1..], now);
      var first := DueAt(records, order, now, 0);
      ReadyFirst(records, order, now);
      hide Due, Ready, ReadyIds, Increasing;
      at := Shifted(rest, first);
      ShiftedPlaces(rest, first);
      ShiftedIncreases(rest, first);
      forall p: nat
        ensures p in at <==> DueAt(records, order, now, p)
      {
        if p > 0 {
          assert p - 1 in rest <==> DueAt(records, order[1..], now, p - 1);
        }
      }
    }
  }

  lemma ReadyFirst(records: Records, order: seq<Id>, now: int)
    requires order != []
    ensures ReadyIds(records, order, now)
         == (if DueAt(records, order, now, 0) then [order[0]] else []) + ReadyIds(records, order[1..], now)
  {
  }

  /** The first `n` records of the order give the batch: its members in order, which are all of those that are due. */
  ghost predicate Batches(records: Records, order: seq<Id>, now: int, ids: seq<Id>, at: seq<nat>, n: nat) {
    && n <= |order| && |at| == |ids| && (forall k | 0 <= k < |at| :: at[k] < n && order[at[k]] == ids[k])
    && Increasing(at) && forall p: nat | p < n :: p in at <==> DueAt(records, order, now, p)
  }

  /** A batch takes the oldest records that are due, fifty at most: none that is skipped is older than one that is taken. */
  lemma BatchIsOldest(records: Records, order: seq<Id>, now: int) returns (at: seq<nat>, n: nat)
    ensures var ids := Candidates(records, order, now);
      Batches(records, order, now, ids, at, n) && |ids| <= 50 && (n < |order| ==> |ids| == 50)
  {
    at := ReadyPlaces(records, order, now);
    n := |order|;
    if |at| > 50 {
      var all := at;
      n, at := all[49] + 1, all[..50];
      hide DueAt;
      forall p: nat | p < n && p in all
        ensures p in at
      {
        var k :| 0 <= k < |all| && all[k] == p;
        assert k <= 49;
        assert at[k] == p;
      }
    }
  }
}
