/** handleUserAccessChanged: the access projection keeps, per event and user, the message that occurred last. */
module AccessProjection {
  import opened Results

  type Id = string

  datatype AccessChanged = AccessChanged(eventId: Id, userId: Id, permissions: seq<string>, roles: seq<string>, occurredAt: int) {
    function Key(): (Id, Id) { (eventId, userId) }
    function Row(): AccessRow { AccessRow(permissions, roles, Some(occurredAt)) }
  }

  datatype AccessRow = AccessRow(permissions: seq<string>, roles: seq<string>, occurredAt: Option<int>)

  type Rows = map<(Id, Id), AccessRow>

  /** The stored row is newer than the message. */
  predicate IsStale(rows: Rows, m: AccessChanged) {
    m.Key() in rows && rows[m.Key()].occurredAt.Some? && m.occurredAt < rows[m.Key()].occurredAt.value
  }

  function Applied(rows: Rows, m: AccessChanged): Rows {
    if IsStale(rows, m) then rows else rows[m.Key() := m.Row()]
  }

  function Delivered(rows: Rows, ms: seq<AccessChanged>): Rows {
    if ms == [] then rows else Applied(Delivered(rows, ms[..|ms| - 1]), ms[|ms| - 1])
  }

  class EventRoleHandler {
    var rows: Rows

    constructor ()
      ensures rows == map[]
    {
      rows := map[];
    }

    method HandleUserAccessChanged(payload: AccessChanged)
      modifies this
      ensures rows == Applied(old(rows), payload)
    {
      var key := (payload.eventId, payload.userId);
      if key in rows {
        var existing := rows[key];
        if existing.occurredAt.Some? && payload.occurredAt < existing.occurredAt.value {
          return;
        }
      }
      rows := rows[key := AccessRow(payload.permissions, payload.roles, Some(payload.occurredAt))];
    }
  }

  /** `ms[i]` occurred last among the messages for `key`; of several at that time it was delivered last. */
  ghost predicate IsLatest(ms: seq<AccessChanged>, key: (Id, Id), i: int) {
    && 0 <= i < |ms| && ms[i].Key() == key
    && forall j | 0 <= j < |ms| && ms[j].Key() == key ::
      ms[j].occurredAt < ms[i].occurredAt || (ms[j].occurredAt == ms[i].occurredAt && j <= i)
  }

  lemma {:induction false} HasLatest(ms: seq<AccessChanged>, key: (Id, Id)) returns (i: int)
    requires exists j :: 0 <= j < |ms| && ms[j].Key() == key
    ensures IsLatest(ms, key, i)
  {
    var last := |ms| - 1;
    var front := ms[..last];
    if exists j :: 0 <= j < last && ms[j].Key() == key {
      var j :| 0 <= j < last && ms[j].Key() == key;
      assert front[j].Key() == key;
      i := HasLatest(front, key);
      assert forall k | 0 <= k < last && ms[k].Key() == key :: front[k].Key() == key;
      if ms[last].Key() == key && ms[last].occurredAt >= ms[i].occurredAt {
        i := last;
      }
    } else {
      i := last;
    }
  }

  /** The row after any deliveries: the latest message for the key, unless the first row was newer. */
  lemma {:induction false} LatestRowStays(rows: Rows, ms: seq<AccessChanged>, key: (Id, Id), i: int)
    requires IsLatest(ms, key, i)
    ensures key in Delivered(rows, ms)
    ensures Delivered(rows, ms)[key] == if IsStale(rows, ms[i]) then rows[key] else ms[i].Row()
  {
    var last := |ms| - 1;
    var front := ms[..last];
    if i == last {
      if exists j :: 0 <= j < last && ms[j].Key() == key {
        var j :| 0 <= j < last && ms[j].Key() == key;
        assert front[j].Key() == key;
        var k := HasLatest(front, key);
        LatestRowStays(rows, front, key, k);
        assert ms[k].Key() == key;
      } else {
        UntouchedRow(rows, front, key);
      }
    } else {
      assert IsLatest(front, key, i) by {
        assert forall j | 0 <= j < |front| :: front[j] == ms[j];
      }
      LatestRowStays(rows, front, key, i);
    }
  }

  lemma {:induction false} UntouchedRow(rows: Rows, ms: seq<AccessChanged>, key: (Id, Id))
    requires forall j | 0 <= j < |ms| :: ms[j].Key() != key
    ensures key in Delivered(rows, ms) <==> key in rows
    ensures key in rows ==> Delivered(rows, ms)[key] == rows[key]
  {
    if ms != [] {
      UntouchedRow(rows, ms[..|ms| - 1], key);
    }
  }

  /** The same messages, in any order and with any repetitions. */
  ghost predicate SameMessages(ms: seq<AccessChanged>, ns: seq<AccessChanged>) {
    forall m :: m in ms <==> m in ns
  }

  ghost predicate Latest(ms: seq<AccessChanged>, m: AccessChanged) {
    m in ms && forall n | n in ms && n.Key() == m.Key() :: n.occurredAt <= m.occurredAt
  }

  /** No two different messages share a key and the latest time of that key. */
  ghost predicate LatestIsUnique(ms: seq<AccessChanged>) {
    forall m, n | Latest(ms, m) && Latest(ms, n) && m.Key() == n.Key() :: m == n
  }

  ghost predicate Converges(ms: seq<AccessChanged>) {
    forall ns | SameMessages(ms, ns) :: Delivered(map[], ns) == Delivered(map[], ms)
  }

  lemma SameLatest(ms: seq<AccessChanged>, ns: seq<AccessChanged>, key: (Id, Id))
    requires SameMessages(ms, ns) && LatestIsUnique(ms)
    ensures key in Delivered(map[], ms) <==> key in Delivered(map[], ns)
    ensures key in Delivered(map[], ms) ==> Delivered(map[], ms)[key] == Delivered(map[], ns)[key]
  {
    if exists j :: 0 <= j < |ms| && ms[j].Key() == key {
      var j :| 0 <= j < |ms| && ms[j].Key() == key;
      assert ms[j] in ns;
      var j' :| 0 <= j' < |ns| && ns[j'] == ms[j];
      var i := HasLatest(ms, key);
      var k := HasLatest(ns, key);
      LatestRowStays(map[], ms, key, i);
      LatestRowStays(map[], ns, key, k);
      assert Latest(ms, ms[i]);
      assert Latest(ms, ns[k]) by {
        assert ns[k] in ms;
      }
    } else {
      forall j | 0 <= j < |ns|
        ensures ns[j].Key() != key
      {
        assert ns[j] in ms;
      }
      UntouchedRow(map[], ms, key);
      UntouchedRow(map[], ns, key);
    }
  }

  /**
   All orders and repetitions of the same messages leave the same projection exactly when no two
   different messages tie for the latest time of a key.
   */
  lemma ConvergesIffLatestIsUnique(ms: seq<AccessChanged>)
    ensures Converges(ms) <==> LatestIsUnique(ms)
  {
    if LatestIsUnique(ms) {
      forall ns | SameMessages(ms, ns)
        ensures Delivered(map[], ns) == Delivered(map[], ms)
      {
        forall key
          ensures key in Delivered(map[], ms) <==> key in Delivered(map[], ns)
          ensures key in Delivered(map[], ms) ==> Delivered(map[], ms)[key] == Delivered(map[], ns)[key]
        {
          SameLatest(ms, ns, key);
        }
      }
    }
    if Converges(ms) {
      forall m, n | Latest(ms, m) && Latest(ms, n) && m.Key() == n.Key()
        ensures m == n
      {
        LastTieWins(ms, m);
        LastTieWins(ms, n);
      }
    }
  }

  lemma LastTieWins(ms: seq<AccessChanged>, m: AccessChanged)
    requires Latest(ms, m)
    ensures SameMessages(ms, ms + [m])
    ensures m.Key() in Delivered(map[], ms + [m]) && Delivered(map[], ms + [m])[m.Key()] == m.Row()
  {
    var ns := ms + [m];
    assert forall j | 0 <= j < |ms| :: ns[j] in ms;
    assert IsLatest(ns, m.Key(), |ms|);
    LatestRowStays(map[], ns, m.Key(), |ms|);
  }

  /** Two messages of one moment with different roles: the row is that of whichever came last. */
  lemma TiedRolesDiverge(eventId: Id, userId: Id, permissions: seq<string>, roles: seq<string>, others: seq<string>, at: int)
    requires roles != others
    ensures var m, n := AccessChanged(eventId, userId, permissions, roles, at), AccessChanged(eventId, userId, permissions, others, at);
      && SameMessages([m, n], [n, m])
      && (eventId, userId) in Delivered(map[], [m, n]) && (eventId, userId) in Delivered(map[], [n, m])
      && Delivered(map[], [m, n])[(eventId, userId)].roles == others && Delivered(map[], [n, m])[(eventId, userId)].roles == roles
  {
    var m, n := AccessChanged(eventId, userId, permissions, roles, at), AccessChanged(eventId, userId, permissions, others, at);
    LatestRowStays(map[], [m, n], (eventId, userId), 1);
    LatestRowStays(map[], [n, m], (eventId, userId), 1);
  }
}
