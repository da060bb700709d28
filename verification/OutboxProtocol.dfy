/**
 Any number of publishers over one outbox, in any interleaving, with a clock that only moves forward.
 Times that a publisher writes or compares were read from the clock earlier, so they may lag behind it.
 A publisher may stop at any point: it crashed, an update threw, or its batch is done.
 */
module OutboxProtocol {
  import opened Results
  import opened Numbers
  import opened Outbox

  datatype Phase =
    | Idle
    | Scanning(queue: seq<Id>)
    | Holding(id: Id, since: int, rest: seq<Id>)
    | Loaded(id: Id, since: int, rest: seq<Id>, attempts: int)
    | Accepted(id: Id, since: int, rest: seq<Id>, attempts: int)
    | Rejected(id: Id, since: int, rest: seq<Id>, attempts: int)
  {
    predicate Working() { Holding? || Loaded? || Accepted? || Rejected? }
  }

  /** `sent` counts the deliveries that the broker accepted and `failures` the failures recorded. */
  datatype State = State(clock: int, records: Records, phases: map<PublisherId, Phase>, sent: map<Id, nat>, failures: map<Id, nat>)

  datatype Action =
    | Tick(to: int)
    | Enqueue(id: Id)
    | Query(p: PublisherId, ids: seq<Id>, asOf: int)
    | Claim(p: PublisherId, checkedAt: int, stampedAt: int)
    | Load(p: PublisherId)
    | Accept(p: PublisherId)
    | Reject(p: PublisherId)
    | MarkPublished(p: PublisherId, at: int)
    | MarkFails(p: PublisherId)
    | RecordFailure(p: PublisherId, at: int)
    | Stop(p: PublisherId)

  function Initial(clock: int): State {
    State(clock, map[], map[], map[], map[])
  }

  function PhaseOf(s: State, p: PublisherId): Phase {
    if p in s.phases then s.phases[p] else Idle
  }

  function Count(counts: map<Id, nat>, id: Id): nat {
    if id in counts then counts[id] else 0
  }

  predicate Enabled(s: State, a: Action) {
    match a
    case Tick(to) => s.clock <= to
    case Enqueue(id) => id !in s.records
    case Query(p, ids, asOf) =>
      && PhaseOf(s, p).Idle? && asOf <= s.clock && |ids| <= BATCH
      && forall id | id in ids :: id in s.records && Ready(s.records[id], asOf)
    case Claim(p, checkedAt, stampedAt) =>
      && PhaseOf(s, p).Scanning? && PhaseOf(s, p).queue != [] && PhaseOf(s, p).queue[0] in s.records
      && checkedAt <= stampedAt <= s.clock
    case Load(p) => PhaseOf(s, p).Holding? && PhaseOf(s, p).id in s.records
    case Accept(p) => PhaseOf(s, p).Loaded?
    case Reject(p) => PhaseOf(s, p).Loaded?
    case MarkPublished(p, at) => PhaseOf(s, p).Accepted? && PhaseOf(s, p).id in s.records && at <= s.clock
    case MarkFails(p) => PhaseOf(s, p).Accepted?
    case RecordFailure(p, at) => PhaseOf(s, p).Rejected? && PhaseOf(s, p).id in s.records && at <= s.clock
    case Stop(p) => true
  }

  function Do(s: State, a: Action): State
    requires Enabled(s, a)
  {
    match a
    case Tick(to) => s.(clock := to)
    case Enqueue(id) => s.(records := s.records[id := NewRecord(s.clock)])
    case Query(p, ids, asOf) => s.(phases := s.phases[p := Scanning(ids)])
    case Claim(p, checkedAt, stampedAt) =>
      var queue := PhaseOf(s, p).queue;
      var id, rest := queue[0], queue[1..];
      if Claimable(s.records[id], checkedAt) then
        s.(records := s.records[id := Claimed(s.records[id], stampedAt, p)], phases := s.phases[p := Holding(id, stampedAt, rest)])
      else s.(phases := s.phases[p := Scanning(rest)])
    case Load(p) =>
      var h := PhaseOf(s, p);
      s.(phases := s.phases[p := Loaded(h.id, h.since, h.rest, s.records[h.id].attempts)])
    case Accept(p) =>
      var h := PhaseOf(s, p);
      s.(phases := s.phases[p := Accepted(h.id, h.since, h.rest, h.attempts)], sent := s.sent[h.id := Count(s.sent, h.id) + 1])
    case Reject(p) =>
      var h := PhaseOf(s, p);
      s.(phases := s.phases[p := Rejected(h.id, h.since, h.rest, h.attempts)])
    case MarkPublished(p, at) =>
      var h := PhaseOf(s, p);
      s.(records := s.records[h.id := Published(s.records[h.id], at)], phases := s.phases[p := Scanning(h.rest)])
    case MarkFails(p) =>
      var h := PhaseOf(s, p);
      s.(phases := s.phases[p := Rejected(h.id, h.since, h.rest, h.attempts)])
    case RecordFailure(p, at) =>
      var h := PhaseOf(s, p);
      s.(records := s.records[h.id := Failed(s.records[h.id], h.attempts, at)], phases := s.phases[p := Scanning(h.rest)],
         failures := s.failures[h.id := Count(s.failures, h.id) + 1])
    case Stop(p) => s.(phases := s.phases[p := Idle])
  }

  ghost predicate Allowed(s: State, acts: seq<Action>)
    decreases |acts|
  {
    acts == [] || (Enabled(s, acts[0]) && Allowed(Do(s, acts[0]), acts[1..]))
  }

  ghost function After(s: State, acts: seq<Action>): State
    requires Allowed(s, acts)
    decreases |acts|
  {
    if acts == [] then s else After(Do(s, acts[0]), acts[1..])
  }

  lemma {:induction false} Continue(s: State, first: seq<Action>, rest: seq<Action>)
    requires Allowed(s, first) && Allowed(After(s, first), rest)
    ensures Allowed(s, first + rest) && After(s, first + rest) == After(After(s, first), rest)
    decreases |first|
  {
    if first == [] {
      assert first + rest == rest;
    } else {
      Continue(Do(s, first[0]), first[1..], rest);
      assert (first + rest)[1..] == first[1..] + rest;
    }
  }

  // ---------------------------------------------------------------- every run

  lemma SettledStays(s: State, a: Action, id: Id)
    requires Enabled(s, a) && id in s.records
    ensures id in Do(s, a).records
    ensures s.records[id].publishedAt.Some? ==> Do(s, a).records[id].publishedAt.Some?
    ensures s.records[id].deadLetteredAt.Some? ==> Do(s, a).records[id].deadLetteredAt.Some?
  {
  }

  /** Over every run, a publication or dead-letter mark once set stays set. */
  lemma {:induction false} SettledForever(s: State, acts: seq<Action>, id: Id)
    requires Allowed(s, acts) && id in s.records
    ensures id in After(s, acts).records
    ensures s.records[id].publishedAt.Some? ==> After(s, acts).records[id].publishedAt.Some?
    ensures s.records[id].deadLetteredAt.Some? ==> After(s, acts).records[id].deadLetteredAt.Some?
    decreases |acts|
  {
    if acts != [] {
      SettledStays(s, acts[0], id);
      SettledForever(Do(s, acts[0]), acts[1..], id);
    }
  }

  /** A claim attempted at any time after a record was settled does not take. */
  lemma NeverClaimedAgain(s: State, acts: seq<Action>, p: PublisherId, checkedAt: int, stampedAt: int, id: Id)
    requires id in s.records && Settled(s.records[id]) && Allowed(s, acts)
    requires var t := After(s, acts); Enabled(t, Claim(p, checkedAt, stampedAt)) && PhaseOf(t, p).queue[0] == id
    ensures var t := After(s, acts); var u := Do(t, Claim(p, checkedAt, stampedAt));
      u.records == t.records && !PhaseOf(u, p).Working()
  {
    SettledForever(s, acts, id);
  }

  /** Whatever is published, or about to be, was accepted by the broker. */
  ghost predicate SentBefore(s: State) {
    && (forall id | id in s.records && s.records[id].publishedAt.Some? :: Count(s.sent, id) >= 1)
    && (forall p | p in s.phases && s.phases[p].Accepted? :: Count(s.sent, s.phases[p].id) >= 1)
  }

  lemma {:induction false} PublishedWasSent(s: State, acts: seq<Action>)
    requires SentBefore(s) && Allowed(s, acts)
    ensures SentBefore(After(s, acts))
    decreases |acts|
  {
    if acts != [] {
      SentStep(s, acts[0]);
      PublishedWasSent(Do(s, acts[0]), acts[1..]);
    }
  }

  lemma SentStep(s: State, a: Action)
    requires SentBefore(s) && Enabled(s, a)
    ensures SentBefore(Do(s, a))
  {
  }

  /** Every run from the empty outbox publishes only what was sent. */
  lemma RunsPublishOnlySent(clock: int, acts: seq<Action>, id: Id)
    requires Allowed(Initial(clock), acts)
    requires id in After(Initial(clock), acts).records && After(Initial(clock), acts).records[id].publishedAt.Some?
    ensures Count(After(Initial(clock), acts).sent, id) >= 1
  {
    PublishedWasSent(Initial(clock), acts);
  }

  /** A run given by its states: one action between each and the next. */
  ghost predicate Chain(states: seq<State>, acts: seq<Action>) {
    |states| == |acts| + 1
    && forall i | 0 <= i < |acts| :: Enabled(states[i], acts[i]) && Do(states[i], acts[i]) == states[i + 1]
  }

  lemma {:induction false} ChainRuns(states: seq<State>, acts: seq<Action>)
    requires Chain(states, acts)
    ensures Allowed(states[0], acts) && After(states[0], acts) == states[|acts|]
    decreases |acts|
  {
    hide Enabled, Do;
    if acts != [] {
      assert Enabled(states[0], acts[0]) && Do(states[0], acts[0]) == states[1];
      ChainRuns(states[1..], acts[1..]);
    }
  }

  /** The states that a run passes, its first and its last one included. */
  ghost function Trace(s: State, acts: seq<Action>): (states: seq<State>)
    requires Allowed(s, acts)
    ensures Chain(states, acts) && states[0] == s && states[|acts|] == After(s, acts)
    decreases |acts|
  {
    if acts == [] then [s] else
      var rest := Trace(Do(s, acts[0]), acts[1..]);
      TraceStep(s, acts, rest);
      [s] + rest
  }

  lemma TraceStep(s: State, acts: seq<Action>, rest: seq<State>)
    requires acts != [] && Enabled(s, acts[0]) && Chain(rest, acts[1..]) && rest[0] == Do(s, acts[0])
    ensures Chain([s] + rest, acts)
  {
    hide Enabled, Do;
    var states := [s] + rest;
    forall i | 0 <= i < |acts|
      ensures Enabled(states[i], acts[i]) && Do(states[i], acts[i]) == states[i + 1]
    {
      if i > 0 {
        assert acts[i] == acts[1..][i - 1] && states[i] == rest[i - 1] && states[i + 1] == rest[i];
      }
    }
  }

  /** When an unsettled record may next be taken up. */
  function FreeAt(s: State, id: Id): int
    requires id in s.records
  {
    var r := s.records[id];
    Max(s.clock, Max(r.nextAttemptAt, if r.lockedAt.Some? then r.lockedAt.value + LEASE + 1 else s.clock))
  }

  /** An idle publisher can wait for an unsettled record, claim it and load it, disturbing nothing else. */
  lemma TakeUp(s: State, p: PublisherId, id: Id) returns (acts: seq<Action>)
    requires PhaseOf(s, p).Idle? && id in s.records && !Settled(s.records[id])
    ensures Allowed(s, acts)
    ensures var now := FreeAt(s, id);
      After(s, acts) == s.(clock := now, records := s.records[id := Claimed(s.records[id], now, p)],
                           phases := s.phases[p := Loaded(id, now, [], s.records[id].attempts)])
  {
    var now := FreeAt(s, id);
    acts := [Tick(now), Query(p, [id], now), Claim(p, now, now), Load(p)];
    var s1 := s.(clock := now);
    var s2 := s1.(phases := s1.phases[p := Scanning([id])]);
    var s3 := s2.(records := s2.records[id := Claimed(s2.records[id], now, p)], phases := s2.phases[p := Holding(id, now, [])]);
    var s4 := s3.(phases := s3.phases[p := Loaded(id, now, [], s3.records[id].attempts)]);
    assert [id][1..] == [];
    ChainRuns([s, s1, s2, s3, s4], acts);
    assert s4.phases == s.phases[p := s4.phases[p]];
  }

  /**
   No crash strands a record: from any state at all, an idle publisher can go on to publish any record
   that is not settled, and no other record changes. A lock delays this until its lease has run out, no longer.
   */
  lemma NothingIsStranded(s: State, p: PublisherId, id: Id) returns (acts: seq<Action>)
    requires PhaseOf(s, p).Idle? && id in s.records && !Settled(s.records[id])
    ensures Allowed(s, acts) && After(s, acts).clock == FreeAt(s, id)
    ensures After(s, acts).records == s.records[id := Published(s.records[id], FreeAt(s, id))]
  {
    var now := FreeAt(s, id);
    var taken := TakeUp(s, p, id);
    var s1 := After(s, taken);
    var rest := [Accept(p), MarkPublished(p, now)];
    var s2 := Do(s1, rest[0]);
    var s3 := Do(s2, rest[1]);
    ChainRuns([s1, s2, s3], rest);
    Continue(s, taken, rest);
    acts := taken + rest;
  }

  // ---------------------------------------------------------------- while every publish ends within its lease

  /** Publisher `p` owns what it works on, and what it read there still stands. */
  predicate Owns(s: State, p: PublisherId) {
    var h := PhaseOf(s, p);
    h.Working() ==>
      && h.id in s.records && !Settled(s.records[h.id])
      && s.records[h.id].lockedAt == Some(h.since) && s.records[h.id].lockedBy == Some(p)
      && (!h.Holding? ==> h.attempts == s.records[h.id].attempts)
  }

  /** A record counts its failures, is dead-lettered at exactly the tenth, and is never published as well. */
  predicate Consistent(s: State, id: Id) {
    if id !in s.records then Count(s.failures, id) == 0
    else
      var r := s.records[id];
      && r.attempts == Count(s.failures, id) <= MAX_ATTEMPTS
      && (r.deadLetteredAt.Some? <==> r.attempts == MAX_ATTEMPTS)
      && !(r.publishedAt.Some? && r.deadLetteredAt.Some?)
  }

  ghost predicate Exclusive(s: State) {
    (forall p :: Owns(s, p)) && (forall id :: Consistent(s, id))
  }

  /** A claim that takes a record away from a publisher still working on it: only an expired lease allows one. */
  ghost predicate Steals(s: State, a: Action)
    requires Enabled(s, a)
  {
    a.Claim? && exists q :: WorksOn(s, q, PhaseOf(s, a.p).queue[0]) && PhaseOf(s, q).since + LEASE < a.checkedAt
  }

  predicate WorksOn(s: State, p: PublisherId, id: Id) {
    PhaseOf(s, p).Working() && PhaseOf(s, p).id == id
  }

  lemma HolderIsUnique(s: State, p: PublisherId, q: PublisherId, id: Id)
    requires Exclusive(s) && WorksOn(s, p, id) && WorksOn(s, q, id)
    ensures p == q
  {
    assert Owns(s, p) && Owns(s, q);
  }

  lemma OwnsStep(s: State, a: Action, p: PublisherId)
    requires Exclusive(s) && Enabled(s, a) && !Steals(s, a)
    ensures Owns(Do(s, a), p)
  {
    assert Owns(s, p);
    if a.Claim? && PhaseOf(s, p).Working() {
      assert WorksOn(s, p, PhaseOf(s, a.p).queue[0]) ==> PhaseOf(s, p).since + LEASE >= a.checkedAt;
    }
    if a.MarkPublished? || a.RecordFailure? {
      assert Owns(s, a.p);
    }
  }

  lemma ConsistentStep(s: State, a: Action, id: Id)
    requires Exclusive(s) && Enabled(s, a)
    ensures Consistent(Do(s, a), id)
  {
    assert Consistent(s, id);
    if a.MarkPublished? || a.RecordFailure? {
      assert Owns(s, a.p);
    }
  }

  /** The invariant survives a step exactly when the step is not a claim on the expired lease of a working publisher. */
  lemma ExclusiveUnlessStolen(s: State, a: Action)
    requires Exclusive(s) && Enabled(s, a)
    ensures Exclusive(Do(s, a)) <==> !Steals(s, a)
  {
    if Steals(s, a) {
      var q :| WorksOn(s, q, PhaseOf(s, a.p).queue[0]) && PhaseOf(s, q).since + LEASE < a.checkedAt;
      assert Owns(s, q);
      assert !Owns(Do(s, a), q);
    } else {
      forall p
        ensures Owns(Do(s, a), p)
      {
        OwnsStep(s, a, p);
      }
      forall id
        ensures Consistent(Do(s, a), id)
      {
        ConsistentStep(s, a, id);
      }
    }
  }

  /** No publisher has worked on a record for longer than the lease. */
  ghost predicate InTime(s: State) {
    forall p | PhaseOf(s, p).Working() :: s.clock <= PhaseOf(s, p).since + LEASE
  }

  ghost predicate RunsInTime(s: State, acts: seq<Action>)
    requires Allowed(s, acts)
    decreases |acts|
  {
    InTime(s) && (acts == [] || RunsInTime(Do(s, acts[0]), acts[1..]))
  }

  /** While every publish ends within its lease the invariant holds throughout the run. */
  lemma {:induction false} LeaseKeepsExclusive(s: State, acts: seq<Action>)
    requires Exclusive(s) && Allowed(s, acts) && RunsInTime(s, acts)
    ensures Exclusive(After(s, acts))
    decreases |acts|
  {
    hide Exclusive, Do;
    if acts != [] {
      ExclusiveUnlessStolen(s, acts[0]);
      LeaseKeepsExclusive(Do(s, acts[0]), acts[1..]);
    }
  }

  /**
   Over every run from the empty outbox in which publishes end within the lease: one publisher at a time holds a record,
   its attempts are its recorded failures, it is dead-lettered at exactly the tenth and then never published.
   */
  lemma TimelyRuns(clock: int, acts: seq<Action>, id: Id, p: PublisherId, q: PublisherId)
    requires Allowed(Initial(clock), acts) && RunsInTime(Initial(clock), acts) && id in After(Initial(clock), acts).records
    ensures var s := After(Initial(clock), acts); var r := s.records[id];
      && (WorksOn(s, p, id) && WorksOn(s, q, id) ==> p == q)
      && r.attempts == Count(s.failures, id) <= MAX_ATTEMPTS
      && (r.deadLetteredAt.Some? <==> Count(s.failures, id) == MAX_ATTEMPTS)
      && !(r.publishedAt.Some? && r.deadLetteredAt.Some?)
  {
    LeaseKeepsExclusive(Initial(clock), acts);
    var s := After(Initial(clock), acts);
    assert Consistent(s, id);
    if WorksOn(s, p, id) && WorksOn(s, q, id) {
      HolderIsUnique(s, p, q, id);
    }
  }

  // ---------------------------------------------------------------- what a slow publisher can do

  /** Publisher `p` is idle and the record has failed `n` times and is free. */
  predicate FailedTimes(s: State, p: PublisherId, id: Id, n: nat) {
    && PhaseOf(s, p) == Idle && id in s.records
    && s.records[id].(nextAttemptAt := 0) == Record(n, 0, None, None, None, None)
  }

  /** One more failure, the other publishers untouched. */
  lemma FailOnce(s: State, p: PublisherId, id: Id, n: nat) returns (acts: seq<Action>)
    requires FailedTimes(s, p, id, n) && n + 1 < MAX_ATTEMPTS
    ensures Allowed(s, acts) && FailedTimes(After(s, acts), p, id, n + 1)
    ensures forall q | q != p :: PhaseOf(After(s, acts), q) == PhaseOf(s, q)
  {
    var now := FreeAt(s, id);
    var taken := TakeUp(s, p, id);
    hide Backoff, Allowed, After, Do, Enabled, FreeAt;
    var rest := FailNow(After(s, taken), p, id, n, now);
    Continue(s, taken, rest);
    acts := taken + rest;
  }

  /** The publisher has loaded the record and the broker rejects it. */
  lemma FailNow(s: State, p: PublisherId, id: Id, n: nat, now: int) returns (acts: seq<Action>)
    requires PhaseOf(s, p) == Loaded(id, now, [], n) && id in s.records && now == s.clock && n + 1 < MAX_ATTEMPTS
    requires s.records[id].publishedAt.None? && s.records[id].deadLetteredAt.None?
    ensures Allowed(s, acts) && FailedTimes(After(s, acts), p, id, n + 1)
    ensures forall q | q != p :: PhaseOf(After(s, acts), q) == PhaseOf(s, q)
  {
    hide Backoff;
    acts := [Reject(p), RecordFailure(p, now), Stop(p)];
    var s1 := Do(s, acts[0]);
    var s2 := Do(s1, acts[1]);
    var s3 := Do(s2, acts[2]);
    ChainRuns([s, s1, s2, s3], acts);
  }

  lemma {:induction false} FailRepeatedly(clock: int, p: PublisherId, q: PublisherId, id: Id, n: nat) returns (acts: seq<Action>)
    requires p != q && n < MAX_ATTEMPTS
    ensures Allowed(Initial(clock), acts) && FailedTimes(After(Initial(clock), acts), p, id, n)
    ensures PhaseOf(After(Initial(clock), acts), q) == Idle
    decreases n
  {
    hide FailedTimes;
    var start := Initial(clock);
    if n == 0 {
      acts := [Enqueue(id)];
      var s1 := Do(start, acts[0]);
      ChainRuns([start, s1], acts);
      assert FailedTimes(s1, p, id, 0) by { EnqueuedIsFresh(clock, p, id); }
    } else {
      var before := FailRepeatedly(clock, p, q, id, n - 1);
      var last := FailOnce(After(start, before), p, id, n - 1);
      Continue(start, before, last);
      acts := before + last;
    }
  }

  lemma EnqueuedIsFresh(clock: int, p: PublisherId, id: Id)
    ensures FailedTimes(Do(Initial(clock), Enqueue(id)), p, id, 0)
  {
  }

  /**
   The lease bound is needed: a publisher that outlives its lease on the tenth attempt, while a second one publishes,
   leaves the record both published and dead-lettered.
   */
  lemma SlowPublisherSettlesTwice(p: PublisherId, q: PublisherId, id: Id) returns (acts: seq<Action>)
    requires p != q
    ensures Allowed(Initial(0), acts) && id in After(Initial(0), acts).records
    ensures var r := After(Initial(0), acts).records[id]; r.publishedAt.Some? && r.deadLetteredAt.Some?
  {
    var before := FailRepeatedly(0, p, q, id, MAX_ATTEMPTS - 1);
    var s := After(Initial(0), before);
    var last := SettleTwice(s, p, q, id);
    Continue(Initial(0), before, last);
    acts := before + last;
  }

  lemma SettleTwice(s: State, p: PublisherId, q: PublisherId, id: Id) returns (acts: seq<Action>)
    requires p != q && FailedTimes(s, p, id, MAX_ATTEMPTS - 1) && PhaseOf(s, q) == Idle
    ensures Allowed(s, acts) && id in After(s, acts).records
    ensures var r := After(s, acts).records[id]; r.publishedAt.Some? && r.deadLetteredAt.Some?
  {
    hide Backoff;
    var now := Max(s.clock, s.records[id].nextAttemptAt);
    var late := now + LEASE + 1;
    var first := [Tick(now), Query(p, [id], now), Query(q, [id], now), Claim(p, now, now), Load(p)];
    var s1 := Do(s, first[0]);
    var s2 := Do(s1, first[1]);
    var s3 := Do(s2, first[2]);
    var s4 := Do(s3, first[3]);
    var s5 := Do(s4, first[4]);
    ChainRuns([s, s1, s2, s3, s4, s5], first);
    var rest := TakeOver(s5, p, q, id, late);
    Continue(s, first, rest);
    acts := first + rest;
  }

  lemma TakeOver(s: State, p: PublisherId, q: PublisherId, id: Id, late: int) returns (acts: seq<Action>)
    requires p != q && id in s.records && !Settled(s.records[id])
    requires PhaseOf(s, p).Loaded? && PhaseOf(s, p).id == id && PhaseOf(s, p).attempts == MAX_ATTEMPTS - 1
    requires PhaseOf(s, q) == Scanning([id]) && s.clock <= late && LeaseFree(s.records[id], late)
    ensures Allowed(s, acts) && id in After(s, acts).records
    ensures var r := After(s, acts).records[id]; r.publishedAt.Some? && r.deadLetteredAt.Some?
  {
    var first := [Tick(late), Claim(q, late, late), Load(q), Accept(q)];
    var s1 := Do(s, first[0]);
    var s2 := Do(s1, first[1]);
    var s3 := Do(s2, first[2]);
    var s4 := Do(s3, first[3]);
    ChainRuns([s, s1, s2, s3, s4], first);
    var rest := BothFinish(s4, p, q, id, late);
    Continue(s, first, rest);
    acts := first + rest;
  }

  lemma BothFinish(s: State, p: PublisherId, q: PublisherId, id: Id, late: int) returns (acts: seq<Action>)
    requires p != q && id in s.records && late <= s.clock
    requires PhaseOf(s, p).Loaded? && PhaseOf(s, p).id == id && PhaseOf(s, p).attempts == MAX_ATTEMPTS - 1
    requires PhaseOf(s, q).Accepted? && PhaseOf(s, q).id == id
    ensures Allowed(s, acts) && id in After(s, acts).records
    ensures var r := After(s, acts).records[id]; r.publishedAt.Some? && r.deadLetteredAt.Some?
  {
    hide Backoff;
    acts := [MarkPublished(q, late), Reject(p), RecordFailure(p, late)];
    var s1 := Do(s, acts[0]);
    var s2 := Do(s1, acts[1]);
    var s3 := Do(s2, acts[2]);
    ChainRuns([s, s1, s2, s3], acts);
  }

  /**
   The claim does not look at the next attempt time again: a publisher holding an older batch
   takes a record up at once after another one failed on it, inside its backoff delay.
   */
  lemma OlderBatchSkipsBackoff(p: PublisherId, q: PublisherId, id: Id) returns (acts: seq<Action>)
    requires p != q
    ensures Allowed(Initial(0), acts) && id in After(Initial(0), acts).records
    ensures var s := After(Initial(0), acts);
      WorksOn(s, q, id) && Count(s.failures, id) == 1 && s.records[id].nextAttemptAt > s.clock
  {
    hide Backoff;
    var s0 := Initial(0);
    var first := [Enqueue(id), Query(q, [id], 0), Query(p, [id], 0), Claim(p, 0, 0), Load(p)];
    var s1 := Do(s0, first[0]);
    var s2 := Do(s1, first[1]);
    var s3 := Do(s2, first[2]);
    var s4 := Do(s3, first[3]);
    var s5 := Do(s4, first[4]);
    ChainRuns([s0, s1, s2, s3, s4, s5], first);
    var rest := ClaimAtOnce(s5, p, q, id);
    Continue(s0, first, rest);
    acts := first + rest;
  }

  lemma ClaimAtOnce(s: State, p: PublisherId, q: PublisherId, id: Id) returns (acts: seq<Action>)
    requires p != q && id in s.records && !Settled(s.records[id]) && Count(s.failures, id) == 0
    requires PhaseOf(s, p).Loaded? && PhaseOf(s, p).id == id && PhaseOf(s, p).attempts == 0 && PhaseOf(s, q) == Scanning([id])
    ensures Allowed(s, acts) && id in After(s, acts).records
    ensures var t := After(s, acts);
      WorksOn(t, q, id) && Count(t.failures, id) == 1 && t.records[id].nextAttemptAt > t.clock
  {
    hide Backoff;
    var now := s.clock;
    acts := [Reject(p), RecordFailure(p, now), Claim(q, now, now)];
    var s1 := Do(s, acts[0]);
    var s2 := Do(s1, acts[1]);
    var s3 := Do(s2, acts[2]);
    ChainRuns([s, s1, s2, s3], acts);
  }

  // ---------------------------------------------------------------- when the backoff is respected

  /** The ids of its batch that the publisher has not come to yet. */
  function Left(h: Phase): seq<Id> {
    match h
    case Idle => []
    case Scanning(queue) => queue
    case _ => h.rest
  }

  /** The step records a failure of the record that delays its next attempt. */
  predicate Delays(s: State, a: Action, id: Id) {
    a.RecordFailure? && PhaseOf(s, a.p).Rejected? && PhaseOf(s, a.p).id == id && PhaseOf(s, a.p).attempts + 1 < MAX_ATTEMPTS
  }

  /** The next attempt time that the failure writes. */
  function DelayedTo(s: State, a: Action, id: Id): int
    requires Delays(s, a, id)
  {
    var attempts := PhaseOf(s, a.p).attempts + 1;
    a.at + Backoff(if attempts >= 0 then attempts else 0)
  }

  /** Step `f` is the latest one before step `k` that delays the record. */
  ghost predicate LastDelay(states: seq<State>, acts: seq<Action>, f: nat, k: nat, id: Id)
    requires f < k <= |acts| == |states| - 1
  {
    Delays(states[f], acts[f], id) && NoDelay(states, acts, f + 1, k, id)
  }

  ghost predicate NoDelay(states: seq<State>, acts: seq<Action>, q: nat, k: nat, id: Id)
    requires k <= |acts| == |states| - 1
  {
    forall f | q <= f < k :: !Delays(states[f], acts[f], id)
  }

  lemma AttemptStep(s: State, a: Action, id: Id)
    requires Enabled(s, a) && id in s.records
    ensures id in Do(s, a).records && s.clock <= Do(s, a).clock
    ensures Do(s, a).records[id].nextAttemptAt == if Delays(s, a, id) then DelayedTo(s, a, id) else s.records[id].nextAttemptAt
  {
    hide Backoff;
  }

  lemma LeftStep(s: State, a: Action, p: PublisherId, id: Id)
    requires Enabled(s, a) && id in Left(PhaseOf(Do(s, a), p))
    ensures if a.Query? && a.p == p then id in a.ids else id in Left(PhaseOf(s, p))
  {
    hide Backoff;
  }

  /** What is left of a batch came from its query. */
  lemma {:induction false} LeftWasQueried(states: seq<State>, acts: seq<Action>, q: nat, k: nat, p: PublisherId, id: Id)
    requires Chain(states, acts) && q < k <= |acts| && acts[q].Query? && acts[q].p == p && id in Left(PhaseOf(states[k], p))
    requires forall j | q < j < k :: !(acts[j].Query? && acts[j].p == p)
    ensures id in acts[q].ids
    decreases k
  {
    hide Enabled, Do;
    LeftStep(states[k - 1], acts[k - 1], p, id);
    if q < k - 1 {
      LeftWasQueried(states, acts, q, k - 1, p, id);
    }
  }

  /** The next attempt time is the one that the latest delay wrote, or an unchanged one when nothing delayed the record. */
  lemma {:induction false} AttemptIsLastDelay(states: seq<State>, acts: seq<Action>, q: nat, k: nat, id: Id)
    requires Chain(states, acts) && q <= k <= |acts| && id in states[q].records
    ensures id in states[k].records && states[q].clock <= states[k].clock
    ensures NoDelay(states, acts, q, k, id) ==> states[k].records[id].nextAttemptAt == states[q].records[id].nextAttemptAt
    ensures forall f | q <= f < k && LastDelay(states, acts, f, k, id) ::
      states[k].records[id].nextAttemptAt == DelayedTo(states[f], acts[f], id)
    ensures NoDelay(states, acts, q, k, id) || exists f | q <= f < k :: LastDelay(states, acts, f, k, id)
    decreases k
  {
    hide Enabled, Do, Delays, DelayedTo;
    if q < k {
      AttemptIsLastDelay(states, acts, q, k - 1, id);
      AttemptStep(states[k - 1], acts[k - 1], id);
      if Delays(states[k - 1], acts[k - 1], id) {
        assert LastDelay(states, acts, k - 1, k, id);
      } else if !NoDelay(states, acts, q, k - 1, id) {
        var f :| q <= f < k - 1 && LastDelay(states, acts, f, k - 1, id);
        assert LastDelay(states, acts, f, k, id);
      }
      forall f | q <= f < k && LastDelay(states, acts, f, k, id)
        ensures states[k].records[id].nextAttemptAt == DelayedTo(states[f], acts[f], id)
      {
        if f < k - 1 {
          assert LastDelay(states, acts, f, k - 1, id);
        }
      }
    }
  }

  /**
   In any run, a publisher comes to a record inside its backoff delay exactly when, since the publisher queried its
   batch, some publisher recorded a failure of that record whose delay is not over yet.
   */
  lemma BackoffSkippedIff(s: State, acts: seq<Action>, q: nat, k: nat, id: Id)
    requires Allowed(s, acts) && q < k < |acts| && acts[q].Query? && acts[k].Claim? && acts[k].p == acts[q].p
    requires forall j | q < j < k :: !(acts[j].Query? && acts[j].p == acts[q].p)
    requires Next(Trace(s, acts)[k], acts[k].p, id)
    ensures var states := Trace(s, acts);
      && id in states[k].records
      && (states[k].records[id].nextAttemptAt > states[k].clock
          <==> exists f | q < f < k :: LastDelay(states, acts, f, k, id) && DelayedTo(states[f], acts[f], id) > states[k].clock)
  {
    SkippedInChain(Trace(s, acts), acts, q, k, id);
  }

  /** The record comes next in the publisher's batch. */
  predicate Next(s: State, p: PublisherId, id: Id) {
    PhaseOf(s, p).Scanning? && PhaseOf(s, p).queue != [] && PhaseOf(s, p).queue[0] == id
  }

  lemma SkippedInChain(states: seq<State>, acts: seq<Action>, q: nat, k: nat, id: Id)
    requires Chain(states, acts) && q < k < |acts| && acts[q].Query? && acts[k].Claim? && acts[k].p == acts[q].p
    requires forall j | q < j < k :: !(acts[j].Query? && acts[j].p == acts[q].p)
    requires Next(states[k], acts[k].p, id)
    ensures id in states[k].records
    ensures states[k].records[id].nextAttemptAt > states[k].clock
       <==> exists f | q < f < k :: LastDelay(states, acts, f, k, id) && DelayedTo(states[f], acts[f], id) > states[k].clock
  {
    var p := acts[q].p;
    assert Enabled(states[k], acts[k]) && Enabled(states[q], acts[q]);
    assert id in Left(PhaseOf(states[k], p));
    hide Do, Delays, DelayedTo;
    LeftWasQueried(states, acts, q, k, p, id);
    AttemptIsLastDelay(states, acts, q, k, id);
    QueryDelaysNothing(states[q], acts[q], id);
    if f :| q < f < k && LastDelay(states, acts, f, k, id) {
    } else {
      assert NoDelay(states, acts, q, k, id);
    }
  }

  lemma QueryDelaysNothing(s: State, a: Action, id: Id)
    requires a.Query?
    ensures !Delays(s, a, id)
  {
  }

  /** With no failure recorded since its query, a publisher only takes records whose next attempt is due. */
  lemma BackoffIsRespected(s: State, acts: seq<Action>, q: nat, k: nat, id: Id)
    requires Allowed(s, acts) && q < k < |acts| && acts[q].Query? && acts[k].Claim? && acts[k].p == acts[q].p
    requires var states := Trace(s, acts);
      forall j | q < j < k :: !(acts[j].Query? && acts[j].p == acts[q].p) && !Delays(states[j], acts[j], id)
    requires Next(Trace(s, acts)[k], acts[k].p, id)
    ensures var t := Trace(s, acts)[k]; id in t.records && t.records[id].nextAttemptAt <= t.clock
  {
    BackoffSkippedIff(s, acts, q, k, id);
  }
}
