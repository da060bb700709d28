/** The flood of a component's exterior, over the padded mask of fitContour. */
module Contour {
  import opened Reachability
  import opened Raster
  import opened FloodQueue
  import opened Silhouette

  /** The plane cell that a mask index stands for. */
  function CellAt(stride: int, i: int): Cell
    requires stride > 0
  {
    (Column(stride, i) - 1, Row(stride, i) - 1)
  }

  /** Two mask indices that stand for 4-adjacent cells. */
  predicate NextTo(width: int, i: int, j: int)
    requires width > 0
  {
    Adjacent4(CellAt(width + 2, i), CellAt(width + 2, j))
  }

  function IndexAt(stride: int, p: Cell): int {
    (p.1 + 1) * stride + p.0 + 1
  }

  lemma IndexOfCellAt(width: int, height: int, p: Cell)
    requires width > 0 && height > 0 && InPaddedBox(width, height, p)
    ensures 0 <= IndexAt(width + 2, p) < (width + 2) * (height + 2)
    ensures CellAt(width + 2, IndexAt(width + 2, p)) == p
  {
    IndexOfCell(width + 2, p.0 + 1, p.1 + 1);
    CellInRange(width + 2, height + 2, p.0 + 1, p.1 + 1);
  }

  lemma CellAtIndex(width: int, height: int, i: int)
    requires width > 0 && height > 0 && 0 <= i < (width + 2) * (height + 2)
    ensures InPaddedBox(width, height, CellAt(width + 2, i))
    ensures IndexAt(width + 2, CellAt(width + 2, i)) == i
  {
    CellOfIndex(width + 2, height + 2, i);
  }

  /** The padded box, seen through mask indices. */
  ghost function MaskGraph(width: int, height: int, cells: set<Cell>): Graph<int>
    requires width > 0 && height > 0
  {
    Graph(i => 0 <= i < (width + 2) * (height + 2) && CellAt(width + 2, i) !in cells,
          (i, j) => NextTo(width, i, j))
  }

  /** Flooding indices from 0 is flooding the padded box from its corner. */
  lemma MaskFloodIsExterior(width: int, height: int, cells: set<Cell>, i: int)
    requires width > 0 && height > 0 && 0 <= i < (width + 2) * (height + 2)
    requires Within(cells, width, height)
    ensures Joined(MaskGraph(width, height, cells), 0, i) <==> Exterior(width, height, cells, CellAt(width + 2, i))
  {
    var mask, padded := MaskGraph(width, height, cells), PaddedGraph(width, height, cells);
    var stride := width + 2;
    IndexOfCellAt(width, height, CORNER);
    if Joined(mask, 0, i) {
      var inside := x => 0 <= x < stride * (height + 2) && Exterior(width, height, cells, CellAt(stride, x));
      JoinedSelf(padded, CORNER);
      forall x, y | inside(x) && mask.open(x) && mask.open(y) && mask.adjacent(x, y)
        ensures inside(y)
      {
        CellAtIndex(width, height, y);
        JoinedStep(padded, CORNER, CellAt(stride, x), CellAt(stride, y));
      }
      JoinedStays(mask, inside, 0, i);
    }
    if Exterior(width, height, cells, CellAt(stride, i)) {
      var inside := p => InPaddedBox(width, height, p) && Joined(mask, 0, IndexAt(stride, p));
      JoinedSelf(mask, 0);
      forall p, q | inside(p) && padded.open(p) && padded.open(q) && padded.adjacent(p, q)
        ensures inside(q)
      {
        IndexOfCellAt(width, height, p);
        IndexOfCellAt(width, height, q);
        JoinedStep(mask, 0, IndexAt(stride, p), IndexAt(stride, q));
      }
      JoinedStays(padded, inside, CORNER, CellAt(stride, i));
      CellAtIndex(width, height, i);
    }
  }

  /** The four candidates of one step, with -1 where the mask ends. */
  function Neighbours(stride: int, height: int, index: int): (nexts: seq<int>)
    requires stride > 0
    ensures |nexts| == 4
  {
    var x, y := Column(stride, index), Row(stride, index);
    [if x > 0 then index - 1 else -1,
     if x < stride - 1 then index + 1 else -1,
     if y > 0 then index - stride else -1,
     if y < height + 1 then index + stride else -1]
  }

  function Around(p: Cell): seq<Cell> {
    [(p.0 - 1, p.1), (p.0 + 1, p.1), (p.0, p.1 - 1), (p.0, p.1 + 1)]
  }

  /** Each candidate stands for one of the four cells around, if that cell is in the padded box. */
  lemma NeighbourCells(width: int, height: int, index: int, nexts: seq<int>, around: seq<Cell>, k: nat)
    requires width > 0 && height > 0 && 0 <= index < (width + 2) * (height + 2) && k < 4
    requires nexts == Neighbours(width + 2, height, index) && around == Around(CellAt(width + 2, index))
    ensures nexts[k] == if InPaddedBox(width, height, around[k]) then IndexAt(width + 2, around[k]) else -1
    ensures InPaddedBox(width, height, around[k]) ==>
              0 <= nexts[k] < (width + 2) * (height + 2) && CellAt(width + 2, nexts[k]) == around[k]
  {
    CellAtIndex(width, height, index);
    NeighbourIndices(width + 2, CellAt(width + 2, index));
    if InPaddedBox(width, height, around[k]) {
      IndexOfCellAt(width, height, around[k]);
    }
  }

  lemma NeighboursAreAdjacent(width: int, height: int, index: int, nexts: seq<int>)
    requires width > 0 && height > 0 && 0 <= index < (width + 2) * (height + 2)
    requires nexts == Neighbours(width + 2, height, index)
    ensures forall k | 0 <= k < 4 && nexts[k] >= 0 :: nexts[k] < (width + 2) * (height + 2) && NextTo(width, index, nexts[k])
    ensures forall j | 0 <= j < (width + 2) * (height + 2) && NextTo(width, index, j) :: j in nexts
  {
    var around := Around(CellAt(width + 2, index));
    forall k | 0 <= k < 4 && nexts[k] >= 0
      ensures nexts[k] < (width + 2) * (height + 2) && NextTo(width, index, nexts[k])
    {
      NeighbourCells(width, height, index, nexts, around, k);
    }
    forall j | 0 <= j < (width + 2) * (height + 2) && NextTo(width, index, j)
      ensures j in nexts
    {
      NeighbourFound(width, height, index, nexts, j);
    }
  }

  lemma NeighbourFound(width: int, height: int, index: int, nexts: seq<int>, j: int)
    requires width > 0 && height > 0 && 0 <= index < (width + 2) * (height + 2) && 0 <= j < (width + 2) * (height + 2)
    requires nexts == Neighbours(width + 2, height, index) && NextTo(width, index, j)
    ensures j in nexts
  {
    var cell := CellAt(width + 2, j);
    var around := Around(CellAt(width + 2, index));
    var k := if cell == around[0] then 0 else if cell == around[1] then 1 else if cell == around[2] then 2 else 3;
    assert around[k] == cell;
    CellAtIndex(width, height, j);
    NeighbourCells(width, height, index, nexts, around, k);
  }

  lemma NeighbourIndices(stride: int, p: Cell)
    ensures IndexAt(stride, (p.0 - 1, p.1)) == IndexAt(stride, p) - 1
    ensures IndexAt(stride, (p.0 + 1, p.1)) == IndexAt(stride, p) + 1
    ensures IndexAt(stride, (p.0, p.1 - 1)) == IndexAt(stride, p) - stride
    ensures IndexAt(stride, (p.0, p.1 + 1)) == IndexAt(stride, p) + stride
  {
  }

  /** The mask before the flood: 1 on the component, 0 elsewhere. */
  ghost predicate MaskOf(mask: seq<int>, width: int, height: int, cells: set<Cell>)
    requires width > 0 && height > 0
  {
    && |mask| == (width + 2) * (height + 2)
    && forall i | 0 <= i < |mask| :: mask[i] == if CellAt(width + 2, i) in cells then 1 else 0
  }

  /** Mark and queue one free cell. */
  method MarkExterior(mask: array<int>, queue: array<int>, next: int, tail: int, ghost before: seq<int>, ghost seen: set<int>)
    returns (tail': int, ghost seen': set<int>)
    requires mask != queue && mask.Length == queue.Length && next < mask.Length
    requires Queued(queue[..], mask[..], before, seen, tail, 2)
    modifies mask, queue
    ensures Queued(queue[..], mask[..], before, seen', tail', 2)
    ensures tail <= tail' && queue[..tail] == old(queue[..tail])
    ensures seen' == if next >= 0 && next !in seen && before[next] == 0 then seen + {next} else seen
  {
    tail', seen' := tail, seen;
    if next >= 0 && mask[next] == 0 {
      RoomInQueue(|before|, seen + {next});
      ghost var q, l := queue[..], mask[..];
      mask[next] := 2;
      queue[tail] := next;
      QueueGrows(q, queue[..], l, mask[..], before, seen, tail, 2, next);
      tail', seen' := tail + 1, seen + {next};
    }
  }

  /** The free cells among the first `k` candidates are seen, and nothing else is new. */
  ghost predicate Visited(nexts: seq<int>, k: int, before: seq<int>, seen: set<int>, seen': set<int>) {
    && seen <= seen' && 0 <= k <= |nexts|
    && (forall j | j in seen' - seen :: 0 <= j < |before| && before[j] == 0 && j in nexts)
    && (forall m | 0 <= m < k && 0 <= nexts[m] < |before| && before[nexts[m]] == 0 :: nexts[m] in seen')
  }

  lemma VisitsAreNeighbours(width: int, height: int, index: int, nexts: seq<int>, before: seq<int>, seen: set<int>, seen': set<int>)
    requires width > 0 && height > 0 && 0 <= index < |before| == (width + 2) * (height + 2)
    requires nexts == Neighbours(width + 2, height, index) && Visited(nexts, 4, before, seen, seen')
    ensures forall j | j in seen' - seen :: 0 <= j < |before| && before[j] == 0 && NextTo(width, index, j)
    ensures forall j | 0 <= j < |before| && before[j] == 0 && NextTo(width, index, j) :: j in seen'
  {
    hide Neighbours, NextTo;
    NeighboursAreAdjacent(width, height, index, nexts);
    forall j | j in seen' - seen
      ensures 0 <= j < |before| && before[j] == 0 && NextTo(width, index, j)
    {
      var k :| 0 <= k < |nexts| && nexts[k] == j;
    }
    forall j | 0 <= j < |before| && before[j] == 0 && NextTo(width, index, j)
      ensures j in seen'
    {
      var k :| 0 <= k < |nexts| && nexts[k] == j;
    }
  }

  /** Mark and queue the free neighbours of `index`. */
  method Spread(mask: array<int>, queue: array<int>, width: int, height: int, index: int, tail: int,
                ghost before: seq<int>, ghost seen: set<int>, ghost cells: set<Cell>)
    returns (tail': int, ghost seen': set<int>)
    requires width > 0 && height > 0 && mask != queue && mask.Length == queue.Length
    requires MaskOf(before, width, height, cells) && 0 <= index < |before|
    requires Queued(queue[..], mask[..], before, seen, tail, 2)
    modifies mask, queue
    ensures Queued(queue[..], mask[..], before, seen', tail', 2)
    ensures tail <= tail' && queue[..tail] == old(queue[..tail]) && seen <= seen'
    ensures forall j | j in seen' - seen :: 0 <= j < |before| && before[j] == 0 && NextTo(width, index, j)
    ensures forall j | 0 <= j < |before| && before[j] == 0 && NextTo(width, index, j) :: j in seen'
  {
    hide MaskOf, Neighbours, NextTo;
    var nexts := Neighbours(width + 2, height, index);
    MaskLength(before, width, height, cells);
    NeighboursAreAdjacent(width, height, index, nexts);
    tail', seen' := tail, seen;
    for k := 0 to 4
      invariant Queued(queue[..], mask[..], before, seen', tail', 2)
      invariant tail <= tail' && queue[..tail] == old(queue[..tail])
      invariant Visited(nexts, k, before, seen, seen')
    {
      tail', seen' := MarkExterior(mask, queue, nexts[k], tail', before, seen');
    }
    VisitsAreNeighbours(width, height, index, nexts, before, seen, seen');
  }

  lemma MaskLength(before: seq<int>, width: int, height: int, cells: set<Cell>)
    requires width > 0 && height > 0 && MaskOf(before, width, height, cells)
    ensures |before| == (width + 2) * (height + 2)
  {
  }

  /** Flood everything outside the component: mark 2 ends up on exactly the exterior. */
  method FloodExterior(mask: array<int>, queue: array<int>, width: int, height: int, ghost cells: set<Cell>)
    requires width > 0 && height > 0 && mask != queue && mask.Length == queue.Length
    requires MaskOf(mask[..], width, height, cells) && Within(cells, width, height)
    modifies mask, queue
    ensures mask.Length == (width + 2) * (height + 2)
    ensures forall i | 0 <= i < mask.Length ::
      mask[i] == if Exterior(width, height, cells, CellAt(width + 2, i)) then 2 else old(mask[i])
    ensures forall i | 0 <= i < mask.Length ::
      mask[i] == 2 <==> Exterior(width, height, cells, CellAt(width + 2, i))
  {
    ghost var g := MaskGraph(width, height, cells);
    ghost var before := mask[..];
    MaskStart(before, width, height, cells);
    var head, tail := 0, 1;
    queue[0] := 0;
    mask[0] := 2;
    ghost var seen: set<int>, done: set<int> := {0}, {};
    hide MaskGraph, MaskOf, FloodState, Within, Exterior, CellAt;
    assert mask[..] == before[0 := 2];
    FloodStarts(g, 0, queue[..], mask[..], before, 2);
    while head < tail
      invariant FloodState(g, 0, queue[..], mask[..], before, head, tail, done, seen, 2)
      invariant tail <= mask.Length
      decreases mask.Length - head
    {
      head, tail, done, seen := ExpandExterior(mask, queue, width, height, head, tail, before, done, seen, cells);
    }
    ExteriorFlooded(width, height, cells, queue[..], mask[..], before, head, done, seen);
  }

  lemma MaskStart(before: seq<int>, width: int, height: int, cells: set<Cell>)
    requires width > 0 && height > 0 && MaskOf(before, width, height, cells) && Within(cells, width, height)
    ensures |before| == (width + 2) * (height + 2) && |before| > 0
    ensures MaskGraph(width, height, cells).open(0)
  {
    IndexOfCellAt(width, height, CORNER);
  }

  method ExpandExterior(mask: array<int>, queue: array<int>, width: int, height: int, head: int, tail: int,
                        ghost before: seq<int>, ghost done: set<int>, ghost seen: set<int>, ghost cells: set<Cell>)
    returns (head': int, tail': int, ghost done': set<int>, ghost seen': set<int>)
    requires width > 0 && height > 0 && mask != queue && mask.Length == queue.Length && head < tail
    requires MaskOf(before, width, height, cells)
    requires FloodState(MaskGraph(width, height, cells), 0, queue[..], mask[..], before, head, tail, done, seen, 2)
    modifies mask, queue
    ensures head' == head + 1 && tail' <= mask.Length
    ensures FloodState(MaskGraph(width, height, cells), 0, queue[..], mask[..], before, head', tail', done', seen', 2)
  {
    hide Joined, Entries, MaskOf, MaskGraph, NextTo;
    var index := queue[head];
    ghost var queued := queue[..];
    PopQueue(queued, head, tail);
    hide Flooded;
    head' := head + 1;
    tail', seen' := Spread(mask, queue, width, height, index, tail, before, seen, cells);
    SamePrefix(queued, queue[..], head', tail);
    done' := done + {index};
    ExteriorStep(width, height, cells, before, done, seen, seen', index);
  }

  lemma ExteriorStep(width: int, height: int, cells: set<Cell>, before: seq<int>, done: set<int>, seen: set<int>, seen': set<int>, index: int)
    requires width > 0 && height > 0 && MaskOf(before, width, height, cells)
    requires Flooded(MaskGraph(width, height, cells), 0, done, seen) && index in seen && seen <= seen'
    requires forall j | j in seen' :: 0 <= j < |before|
    requires forall j | j in seen' - seen :: before[j] == 0 && NextTo(width, index, j)
    requires forall j | 0 <= j < |before| && before[j] == 0 && NextTo(width, index, j) :: j in seen'
    ensures Flooded(MaskGraph(width, height, cells), 0, done + {index}, seen')
  {
    FloodStep(MaskGraph(width, height, cells), 0, done, seen, seen', index);
  }

  lemma ExteriorFlooded(width: int, height: int, cells: set<Cell>, queue: seq<int>, mask: seq<int>, before: seq<int>,
                        head: int, done: set<int>, seen: set<int>)
    requires width > 0 && height > 0 && MaskOf(before, width, height, cells) && Within(cells, width, height)
    requires FloodState(MaskGraph(width, height, cells), 0, queue, mask, before, head, head, done, seen, 2)
    ensures |mask| == (width + 2) * (height + 2)
    ensures |before| == |mask| && forall i | 0 <= i < |mask| ::
      mask[i] == (if Exterior(width, height, cells, CellAt(width + 2, i)) then 2 else before[i])
      && (mask[i] == 2 <==> Exterior(width, height, cells, CellAt(width + 2, i)))
  {
    var g := MaskGraph(width, height, cells);
    FloodEnds(g, 0, queue, mask, before, head, done, seen, 2);
    forall i | 0 <= i < |mask|
      ensures mask[i] == (if Exterior(width, height, cells, CellAt(width + 2, i)) then 2 else before[i])
      ensures mask[i] == 2 <==> Exterior(width, height, cells, CellAt(width + 2, i))
    {
      MaskFloodIsExterior(width, height, cells, i);
    }
  }
}
