/**
 The breadth-first floods of the recognizer share one shape: an array of marks, and a queue array
 that holds every marked index once. Here is what such a flood keeps, and what it has found when the
 queue runs empty.
 */
module FloodQueue {
  import opened Reachability

  ghost function Entries(q: seq<int>): set<int> {
    set x | x in q
  }

  /** Every index joined to `seed`. */
  ghost function Region(g: Graph<int>, n: int, seed: int): set<int> {
    set i | 0 <= i < n && Joined(g, seed, i)
  }

  /** The queue holds the indices marked `id` so far, each once. */
  ghost predicate Queued(queue: seq<int>, labels: seq<int>, before: seq<int>, seen: set<int>, tail: int, id: int) {
    && 0 <= tail <= |queue| == |labels| == |before|
    && |seen| == tail
    && Entries(queue[..tail]) == seen
    && (forall i | i in seen :: 0 <= i < |labels|)
    && (forall i | 0 <= i < |labels| :: labels[i] == if i in seen then id else before[i])
  }

  lemma {:induction false} RoomInQueue(n: nat, s: set<int>)
    requires forall i | i in s :: 0 <= i < n
    ensures |s| <= n
  {
    if n == 0 {
      assert forall i | i in s :: false;
      assert s == {};
    } else {
      RoomInQueue(n - 1, s - {n - 1});
      assert |s - {n - 1}| >= |s| - 1;
    }
  }

  lemma QueueGrows(queue: seq<int>, grown: seq<int>, labels: seq<int>, marked: seq<int>, before: seq<int>,
                   seen: set<int>, tail: int, id: int, next: int)
    requires Queued(queue, labels, before, seen, tail, id)
    requires 0 <= next < |labels| && next !in seen
    requires tail < |queue| && grown == queue[tail := next] && marked == labels[next := id]
    ensures Queued(grown, marked, before, seen + {next}, tail + 1, id)
  {
    assert grown[..tail + 1] == queue[..tail] + [next];
  }

  lemma PopQueue(queue: seq<int>, head: int, tail: int)
    requires 0 <= head < tail <= |queue|
    ensures queue[head] in Entries(queue[..tail])
    ensures Entries(queue[..head + 1]) == Entries(queue[..head]) + {queue[head]}
  {
    assert queue[..tail][head] == queue[head];
    assert queue[..head + 1] == queue[..head] + [queue[head]];
  }

  lemma SamePrefix(q: seq<int>, r: seq<int>, k: int, n: int)
    requires 0 <= k <= n <= |q| == |r| && q[..n] == r[..n]
    ensures q[..k] == r[..k]
  {
    assert q[..k] == q[..n][..k] && r[..k] == r[..n][..k];
  }

  lemma TailBounded(queue: seq<int>, labels: seq<int>, before: seq<int>, seen: set<int>, tail: int, id: int)
    requires Queued(queue, labels, before, seen, tail, id)
    ensures tail <= |labels|
  {
  }

  /** Everything seen is joined to the seed, and the neighbours of everything done are seen. */
  ghost predicate Flooded(g: Graph<int>, seed: int, done: set<int>, seen: set<int>) {
    && seed in seen
    && (forall i | i in seen :: Joined(g, seed, i))
    && (forall i, j | i in done && g.open(j) && g.adjacent(i, j) :: j in seen)
  }

  lemma FloodStep(g: Graph<int>, seed: int, done: set<int>, seen: set<int>, seen': set<int>, current: int)
    requires Flooded(g, seed, done, seen) && current in seen
    requires seen <= seen' && forall j | j in seen' - seen :: g.open(j) && g.adjacent(current, j)
    requires forall j | g.open(j) && g.adjacent(current, j) :: j in seen'
    ensures Flooded(g, seed, done + {current}, seen')
  {
    forall i | i in seen'
      ensures Joined(g, seed, i)
    {
      if i !in seen {
        JoinedStep(g, seed, current, i);
      }
    }
  }

  lemma FloodIsRegion(g: Graph<int>, n: int, seed: int, seen: set<int>)
    requires Flooded(g, seed, seen, seen)
    requires forall i | g.open(i) :: 0 <= i < n
    ensures seen == Region(g, n, seed)
  {
    forall i | i in seen
      ensures i in Region(g, n, seed)
    {
      JoinedOpen(g, seed, i);
    }
    forall i | i in Region(g, n, seed)
      ensures i in seen
    {
      var inside := j => j in seen;
      forall x, y | inside(x) && g.open(x) && g.open(y) && g.adjacent(x, y)
        ensures inside(y)
      {
      }
      JoinedStays(g, inside, seed, i);
    }
  }

  /** The state of a flood that has expanded the first `head` entries of its queue. */
  ghost predicate FloodState(g: Graph<int>, seed: int, queue: seq<int>, marks: seq<int>, before: seq<int>,
                             head: int, tail: int, done: set<int>, seen: set<int>, id: int) {
    && Queued(queue, marks, before, seen, tail, id)
    && 0 <= head <= tail
    && done == Entries(queue[..head])
    && Flooded(g, seed, done, seen)
  }

  lemma FloodStarts(g: Graph<int>, seed: int, queue: seq<int>, marks: seq<int>, before: seq<int>, id: int)
    requires g.open(seed) && 0 <= seed < |before| == |queue|
    requires queue[0] == seed && marks == before[seed := id]
    ensures FloodState(g, seed, queue, marks, before, 0, 1, {}, {seed}, id)
  {
    JoinedSelf(g, seed);
    assert queue[..1] == [seed];
  }

  /** When the queue runs empty, exactly the indices joined to the seed have been marked. */
  lemma FloodEnds(g: Graph<int>, seed: int, queue: seq<int>, marks: seq<int>, before: seq<int>,
                  head: int, done: set<int>, seen: set<int>, id: int)
    requires FloodState(g, seed, queue, marks, before, head, head, done, seen, id)
    requires forall i | g.open(i) :: 0 <= i < |before|
    ensures |marks| == |before| && seen == Region(g, |marks|, seed) && |seen| == head
    ensures forall i | 0 <= i < |marks| :: marks[i] == if Joined(g, seed, i) then id else before[i]
  {
    FloodIsRegion(g, |marks|, seed, seen);
  }
}
