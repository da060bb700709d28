/** The 8-connected component labelling of raster-components.ts. */
module Labelling {
  import opened Numbers
  import opened Reachability
  import opened Raster
  import opened FloodQueue

  datatype Component = Component(id: int, minX: int, minY: int, maxX: int, maxY: int, size: int)

  /** `c` counts `region` and its box is the tightest box around it. */
  ghost predicate Describes(c: Component, region: set<int>, width: int)
    requires width > 0
  {
    && c.size == |region|
    && (forall i | i in region :: c.minX <= Column(width, i) <= c.maxX && c.minY <= Row(width, i) <= c.maxY)
    && (exists i :: i in region && Column(width, i) == c.minX)
    && (exists i :: i in region && Column(width, i) == c.maxX)
    && (exists i :: i in region && Row(width, i) == c.minY)
    && (exists i :: i in region && Row(width, i) == c.maxY)
  }

  /** Nothing but dark pixels is labelled, and no component is labelled in part. */
  ghost predicate Uniform(g: Graph<int>, labels: seq<int>) {
    && (forall i | 0 <= i < |labels| && labels[i] != 0 :: g.open(i))
    && (forall i, j | 0 <= i < |labels| && 0 <= j < |labels| && g.open(i) && g.open(j) && g.adjacent(i, j)
        :: labels[i] == labels[j])
  }

  /** The dark neighbours of `current` in the rows above `row`, and in `row` left of `column`, are in `seen`. */
  ghost predicate Scanned(source: PreparedLayoutSource, threshold: int, current: int, seen: set<int>, row: int, column: int)
    requires source.Valid()
  {
    forall j | IsDark(source.data, threshold, j) && Adjacent8(source.width, current, j)
      && (Row(source.width, j) < row || (Row(source.width, j) == row && Column(source.width, j) < column))
      :: j in seen
  }

  ghost predicate AddsNeighbours(source: PreparedLayoutSource, threshold: int, current: int, seen: set<int>, seen': set<int>)
    requires source.Valid()
  {
    && seen <= seen'
    && forall j | j in seen' - seen :: IsDark(source.data, threshold, j) && Adjacent8(source.width, current, j)
  }

  /** Label and queue one pixel if it is dark and not labelled yet. */
  method Mark(data: seq<Byte>, threshold: int, labels: array<int>, queue: array<int>, next: int, tail: int, id: int,
              ghost before: seq<int>, ghost seen: set<int>)
    returns (tail': int, ghost seen': set<int>)
    requires labels != queue && id != 0 && 0 <= next < labels.Length == queue.Length == |data|
    requires Queued(queue[..], labels[..], before, seen, tail, id)
    modifies labels, queue
    ensures Queued(queue[..], labels[..], before, seen', tail', id)
    ensures tail <= tail' && queue[..tail] == old(queue[..tail])
    ensures seen' == if data[next] <= threshold && next !in seen && before[next] == 0 then seen + {next} else seen
  {
    tail', seen' := tail, seen;
    if labels[next] == 0 && data[next] <= threshold {
      RoomInQueue(|before|, seen + {next});
      ghost var q, l := queue[..], labels[..];
      labels[next] := id;
      queue[tail] := next;
      QueueGrows(q, queue[..], l, labels[..], before, seen, tail, id, next);
      tail', seen' := tail + 1, seen + {next};
    }
  }

  /** One turn of the neighbour loops, at column `nx` and row `ny`. */
  method VisitNeighbour(source: PreparedLayoutSource, threshold: int, labels: array<int>, queue: array<int>,
                        current: int, nx: int, ny: int, tail: int, id: int, ghost before: seq<int>, ghost seen: set<int>)
    returns (tail': int, ghost seen': set<int>)
    requires source.Valid() && labels != queue && id != 0
    requires 0 <= current < labels.Length == queue.Length == |source.data|
    requires -1 <= nx - Column(source.width, current) <= 1 && -1 <= ny - Row(source.width, current) <= 1
    requires Queued(queue[..], labels[..], before, seen, tail, id)
    requires forall j | IsDark(source.data, threshold, j) && Adjacent8(source.width, current, j) :: before[j] == 0
    requires Scanned(source, threshold, current, seen, ny, nx)
    modifies labels, queue
    ensures Queued(queue[..], labels[..], before, seen', tail', id)
    ensures tail <= tail' && queue[..tail] == old(queue[..tail])
    ensures AddsNeighbours(source, threshold, current, seen, seen')
    ensures Scanned(source, threshold, current, seen', ny, nx + 1)
  {
    tail', seen' := tail, seen;
    if nx < 0 || ny < 0 || nx >= source.width || ny >= source.height {
      NoPixelOutside(source, nx, ny);
    } else {
      CellInRange(source.width, source.height, nx, ny);
      var next := ny * source.width + nx;
      tail', seen' := Mark(source.data, threshold, labels, queue, next, tail, id, before, seen);
      ScannedStep(source, threshold, current, next, nx, ny, before, seen, seen');
    }
  }

  lemma ScannedStep(source: PreparedLayoutSource, threshold: int, current: int, next: int, nx: int, ny: int,
                    before: seq<int>, seen: set<int>, seen': set<int>)
    requires source.Valid() && |before| == |source.data|
    requires 0 <= nx < source.width && 0 <= ny < source.height
    requires next == ny * source.width + nx && 0 <= next < |source.data|
    requires -1 <= nx - Column(source.width, current) <= 1 && -1 <= ny - Row(source.width, current) <= 1
    requires forall j | IsDark(source.data, threshold, j) && Adjacent8(source.width, current, j) :: before[j] == 0
    requires Scanned(source, threshold, current, seen, ny, nx)
    requires seen' == if source.data[next] <= threshold && next !in seen && before[next] == 0 then seen + {next} else seen
    ensures AddsNeighbours(source, threshold, current, seen, seen')
    ensures Scanned(source, threshold, current, seen', ny, nx + 1)
  {
    IndexOfCell(source.width, nx, ny);
    OnlyPixelAt(source, next);
  }

  /** Label and queue every unlabelled dark neighbour of `current`. */
  method ScanNeighbours(source: PreparedLayoutSource, threshold: int, labels: array<int>, queue: array<int>,
                        current: int, tail: int, id: int, ghost before: seq<int>, ghost seen: set<int>)
    returns (tail': int, ghost seen': set<int>)
    requires source.Valid() && labels != queue && id != 0
    requires 0 <= current < labels.Length == queue.Length == |source.data|
    requires Queued(queue[..], labels[..], before, seen, tail, id)
    requires forall j | IsDark(source.data, threshold, j) && Adjacent8(source.width, current, j) :: before[j] == 0
    modifies labels, queue
    ensures Queued(queue[..], labels[..], before, seen', tail', id)
    ensures tail <= tail' && queue[..tail] == old(queue[..tail])
    ensures AddsNeighbours(source, threshold, current, seen, seen')
    ensures forall j | IsDark(source.data, threshold, j) && Adjacent8(source.width, current, j) :: j in seen'
  {
    var x, y := current % source.width, current / source.width;
    tail', seen' := tail, seen;
    for dy := -1 to 2
      invariant Queued(queue[..], labels[..], before, seen', tail', id)
      invariant tail <= tail' && queue[..tail] == old(queue[..tail])
      invariant AddsNeighbours(source, threshold, current, seen, seen')
      invariant Scanned(source, threshold, current, seen', y + dy, x - 1)
    {
      for dx := -1 to 2
        invariant Queued(queue[..], labels[..], before, seen', tail', id)
        invariant tail <= tail' && queue[..tail] == old(queue[..tail])
        invariant AddsNeighbours(source, threshold, current, seen, seen')
        invariant Scanned(source, threshold, current, seen', y + dy, x + dx)
      {
        tail', seen' := VisitNeighbour(source, threshold, labels, queue, current, x + dx, y + dy, tail', id, before, seen');
      }
    }
  }

  lemma NoPixelOutside(source: PreparedLayoutSource, x: int, y: int)
    requires source.Valid()
    requires x < 0 || y < 0 || x >= source.width || y >= source.height
    ensures forall j | 0 <= j < |source.data| :: !(Row(source.width, j) == y && Column(source.width, j) == x)
  {
    forall j | 0 <= j < |source.data|
      ensures !(Row(source.width, j) == y && Column(source.width, j) == x)
    {
      CellOfIndex(source.width, source.height, j);
    }
  }

  lemma OnlyPixelAt(source: PreparedLayoutSource, i: int)
    requires source.Valid() && 0 <= i < |source.data|
    ensures forall j | 0 <= j < |source.data| && Row(source.width, j) == Row(source.width, i)
              && Column(source.width, j) == Column(source.width, i) :: j == i
  {
    CellOfIndex(source.width, source.height, i);
    forall j | 0 <= j < |source.data| && Row(source.width, j) == Row(source.width, i)
      && Column(source.width, j) == Column(source.width, i)
      ensures j == i
    {
      CellOfIndex(source.width, source.height, j);
    }
  }

  /** The box of `c` covers the pixels of `done`, and each side is touched by a pixel of `seen`. */
  ghost predicate BoxBetween(c: Component, done: set<int>, seen: set<int>, width: int)
    requires width > 0
  {
    && (forall i | i in done :: c.minX <= Column(width, i) <= c.maxX && c.minY <= Row(width, i) <= c.maxY)
    && (exists i :: i in seen && Column(width, i) == c.minX)
    && (exists i :: i in seen && Column(width, i) == c.maxX)
    && (exists i :: i in seen && Row(width, i) == c.minY)
    && (exists i :: i in seen && Row(width, i) == c.maxY)
  }

  function Stretch(c: Component, x: int, y: int): Component {
    c.(size := c.size + 1, minX := Min(c.minX, x), maxX := Max(c.maxX, x), minY := Min(c.minY, y), maxY := Max(c.maxY, y))
  }

  lemma BoxStretches(c: Component, done: set<int>, seen: set<int>, width: int, i: int)
    requires width > 0 && BoxBetween(c, done, seen, width) && i in seen
    ensures BoxBetween(Stretch(c, Column(width, i), Row(width, i)), done + {i}, seen, width)
  {
    var d := Stretch(c, Column(width, i), Row(width, i));
    assert d.minX == c.minX || d.minX == Column(width, i);
    assert d.maxX == c.maxX || d.maxX == Column(width, i);
    assert d.minY == c.minY || d.minY == Row(width, i);
    assert d.maxY == c.maxY || d.maxY == Row(width, i);
  }

  lemma BoxGrows(c: Component, done: set<int>, seen: set<int>, seen': set<int>, width: int)
    requires width > 0 && BoxBetween(c, done, seen, width) && seen <= seen'
    ensures BoxBetween(c, done, seen', width)
  {
  }

  lemma LabelledAlike(g: Graph<int>, labels: seq<int>, s: int, t: int)
    requires Uniform(g, labels) && Joined(g, s, t)
    requires forall i | g.open(i) :: 0 <= i < |labels|
    ensures 0 <= s < |labels| && 0 <= t < |labels| && labels[s] == labels[t]
  {
    JoinedOpen(g, s, t);
    JoinedStays(g, i => 0 <= i < |labels| && labels[i] == labels[s], s, t);
  }

  lemma UniformAfterFlood(g: Graph<int>, before: seq<int>, labels: seq<int>, seed: int, id: int)
    requires Symmetric(g) && Uniform(g, before) && |labels| == |before| && g.open(seed)
    requires forall i | g.open(i) :: 0 <= i < |before|
    requires forall i | 0 <= i < |labels| :: labels[i] == if Joined(g, seed, i) then id else before[i]
    ensures Uniform(g, labels)
  {
    forall i | 0 <= i < |labels| && labels[i] != 0
      ensures g.open(i)
    {
      if Joined(g, seed, i) {
        JoinedOpen(g, seed, i);
      }
    }
    forall i, j | 0 <= i < |labels| && 0 <= j < |labels| && g.open(i) && g.open(j) && g.adjacent(i, j)
      ensures labels[i] == labels[j]
    {
      if Joined(g, seed, i) {
        JoinedStep(g, seed, i, j);
      }
      if Joined(g, seed, j) {
        JoinedStep(g, seed, j, i);
      }
    }
  }

  /** Every invariant of the flood of one component. */
  ghost predicate Flooding(g: Graph<int>, width: int, index: int, id: int, queue: seq<int>, labels: seq<int>, before: seq<int>,
                           head: int, tail: int, done: set<int>, seen: set<int>, c: Component)
    requires width > 0
  {
    && FloodState(g, index, queue, labels, before, head, tail, done, seen, id)
    && BoxBetween(c, done, seen, width)
    && c.size == head
    && c.id == id
  }

  /** The pixels around a flooded pixel were not labelled before the flood. */
  lemma NeighboursWereFree(source: PreparedLayoutSource, threshold: int, before: seq<int>, index: int, current: int)
    requires source.Valid() && |before| == |source.data| && 0 <= index < |before| && before[index] == 0
    requires Uniform(DarkGraph(source.data, source.width, threshold), before)
    requires Joined(DarkGraph(source.data, source.width, threshold), index, current)
    ensures 0 <= current < |before|
    ensures forall j | IsDark(source.data, threshold, j) && Adjacent8(source.width, current, j) :: before[j] == 0
  {
    var g := DarkGraph(source.data, source.width, threshold);
    LabelledAlike(g, before, index, current);
    JoinedOpen(g, index, current);
    forall j | IsDark(source.data, threshold, j) && Adjacent8(source.width, current, j)
      ensures before[j] == 0
    {
      assert g.open(j) && g.adjacent(current, j);
    }
  }

  lemma FloodStepPixels(source: PreparedLayoutSource, threshold: int, index: int, done: set<int>, seen: set<int>, seen': set<int>, current: int)
    requires source.Valid() && current in seen
    requires Flooded(DarkGraph(source.data, source.width, threshold), index, done, seen)
    requires AddsNeighbours(source, threshold, current, seen, seen')
    requires forall j | IsDark(source.data, threshold, j) && Adjacent8(source.width, current, j) :: j in seen'
    ensures Flooded(DarkGraph(source.data, source.width, threshold), index, done + {current}, seen')
  {
    FloodStep(DarkGraph(source.data, source.width, threshold), index, done, seen, seen', current);
  }

  /** Take the next pixel off the queue, measure it, and queue its neighbours. */
  method Expand(source: PreparedLayoutSource, threshold: int, labels: array<int>, queue: array<int>, component: Component,
                head: int, tail: int, ghost index: int, ghost before: seq<int>, ghost done: set<int>, ghost seen: set<int>)
    returns (component': Component, tail': int, ghost done': set<int>, ghost seen': set<int>)
    requires source.Valid() && labels != queue && component.id != 0
    requires labels.Length == queue.Length == |source.data| && 0 <= index < |before| && before[index] == 0
    requires Uniform(DarkGraph(source.data, source.width, threshold), before)
    requires head < tail
    requires Flooding(DarkGraph(source.data, source.width, threshold), source.width, index, component.id,
                      queue[..], labels[..], before, head, tail, done, seen, component)
    modifies labels, queue
    ensures component'.id == component.id
    ensures Flooding(DarkGraph(source.data, source.width, threshold), source.width, index, component'.id,
                     queue[..], labels[..], before, head + 1, tail', done', seen', component')
  {
    hide BoxBetween, Uniform, Joined, Adjacent8, Column, Row, IsDark, AddsNeighbours, DarkGraph, Entries;
    var current := queue[head];
    ghost var queued := queue[..];
    PopQueue(queued, head, tail);
    assert Joined(DarkGraph(source.data, source.width, threshold), index, current);
    hide Flooded;
    BoxStretches(component, done, seen, source.width, current);
    component' := Stretch(component, Column(source.width, current), Row(source.width, current));
    NeighboursWereFree(source, threshold, before, index, current);
    tail', seen' := ScanNeighbours(source, threshold, labels, queue, current, tail, component.id, before, seen);
    SamePrefix(queued, queue[..], head + 1, tail);
    FloodStepPixels(source, threshold, index, done, seen, seen', current);
    done' := done + {current};
    BoxGrows(component', done', seen, seen', source.width);
  }

  lemma LabellingStarts(g: Graph<int>, width: int, index: int, id: int, queue: seq<int>, labels: seq<int>, before: seq<int>)
    requires width > 0 && g.open(index) && 0 <= index < |before| == |queue|
    requires queue[0] == index && labels == before[index := id]
    ensures Flooding(g, width, index, id, queue, labels, before, 0, 1, {}, {index},
                     Component(id, Column(width, index), Row(width, index), Column(width, index), Row(width, index), 0))
  {
    FloodStarts(g, index, queue, labels, before, id);
  }

  lemma LabellingEnds(g: Graph<int>, width: int, index: int, id: int, queue: seq<int>, labels: seq<int>, before: seq<int>,
                      head: int, done: set<int>, seen: set<int>, c: Component)
    requires width > 0 && Symmetric(g) && Uniform(g, before) && forall i | g.open(i) :: 0 <= i < |before|
    requires Flooding(g, width, index, id, queue, labels, before, head, head, done, seen, c)
    ensures Uniform(g, labels) && |labels| == |before|
    ensures forall i | 0 <= i < |labels| :: labels[i] == if Joined(g, index, i) then id else before[i]
    ensures Describes(c, Region(g, |labels|, index), width)
  {
    FloodEnds(g, index, queue, labels, before, head, done, seen, id);
    JoinedOpen(g, index, index);
    UniformAfterFlood(g, before, labels, index, id);
  }

  /** Give the whole component of `index` the label `id`, and measure it. */
  method FloodComponent(source: PreparedLayoutSource, threshold: int, labels: array<int>, queue: array<int>, index: int, id: int)
    returns (component: Component)
    requires source.Valid() && labels != queue && id != 0
    requires 0 <= index < labels.Length == queue.Length == |source.data|
    requires IsDark(source.data, threshold, index) && labels[index] == 0
    requires Uniform(DarkGraph(source.data, source.width, threshold), labels[..])
    modifies labels, queue
    ensures var g := DarkGraph(source.data, source.width, threshold);
      && Uniform(g, labels[..])
      && (forall i | 0 <= i < labels.Length :: labels[i] == if Joined(g, index, i) then id else old(labels[i]))
      && component.id == id
      && Describes(component, Region(g, labels.Length, index), source.width)
  {
    hide Queued, Flooded, BoxBetween, Uniform, Joined, Describes;
    ghost var g := DarkGraph(source.data, source.width, threshold);
    ghost var before := labels[..];
    var x0, y0 := Column(source.width, index), Row(source.width, index);
    component := Component(id, x0, y0, x0, y0, 0);
    var head, tail := 0, 1;
    queue[0] := index;
    labels[index] := id;
    ghost var seen: set<int>, done: set<int> := {index}, {};
    assert labels[..] == before[index := id];
    LabellingStarts(g, source.width, index, id, queue[..], labels[..], before);
    while head < tail
      invariant component.id == id
      invariant Flooding(g, source.width, index, id, queue[..], labels[..], before, head, tail, done, seen, component)
      invariant tail <= labels.Length
      decreases labels.Length - head
    {
      component, tail, done, seen := Expand(source, threshold, labels, queue, component, head, tail, index, before, done, seen);
      head := head + 1;
      TailBounded(queue[..], labels[..], before, seen, tail, id);
    }
    LabellingEnds(g, source.width, index, id, queue[..], labels[..], before, head, done, seen, component);
  }
}
