/** Generating a seat map: how many seats are stored, and where. */
module SeatMapProperties {
  import opened Results
  import opened Numbers
  import opened Decimal
  import opened LayoutRows
  import opened SeatPlan
  import opened GeometryEngine
  import opened GeometryRows
  import opened GenerationProperties

  /** Seat `s` of table `k`, where every table has `p` seats. */
  predicate SeatAt(seats: seq<GeometrySeat>, tables: seq<GeometryTable>, p: nat, k: nat, s: nat)
    requires k < |tables|
  {
    k * p + s < |seats| && seats[k * p + s].tableId == tables[k].id && seats[k * p + s].number == s + 1
  }

  predicate UniformTable(seats: seq<GeometrySeat>, id: string, p: nat) {
    |seats| == p && forall s | 0 <= s < p :: seats[s].tableId == id && seats[s].number == s + 1
  }

  lemma Times(k: nat, p: nat)
    ensures (k + 1) * p == k * p + p && k * p >= 0
  {
  }

  /** The seats of the first `n` tables, when every table has `p`. */
  lemma {:induction false} UniformSeats(inputs: seq<SectionInput>, tables: seq<GeometryTable>, p: nat, n: nat)
    requires n <= |tables| && forall table | table in tables :: Indexed(inputs, table.id)
    requires forall k | 0 <= k < |tables| :: UniformTable(SeatsOfTable(inputs, tables[k].id), tables[k].id, p)
    ensures |SeatsOf(inputs, tables[..n])| == n * p
    ensures forall k, s | 0 <= k < n && 0 <= s < p :: SeatAt(SeatsOf(inputs, tables[..n]), tables, p, k, s)
  {
    hide Indexed, SeatsOfTable, UniformTable, SeatAt;
    if n > 0 {
      var m := n - 1;
      UniformSeats(inputs, tables, p, m);
      OneMoreTable(inputs, tables, m);
      Times(m, p);
      hide SeatsOf;
      var before, added := SeatsOf(inputs, tables[..m]), SeatsOfTable(inputs, tables[m].id);
      UniformIs(added, tables[m].id, p);
      forall k, s | 0 <= k < n && 0 <= s < p
        ensures SeatAt(before + added, tables, p, k, s)
      {
        if k < m {
          SeatStaysAt(before, added, tables, p, k, s);
        } else {
          SeatIsAt(before, added, tables, p, m, s);
        }
      }
    }
  }

  lemma UniformIs(seats: seq<GeometrySeat>, id: string, p: nat)
    requires UniformTable(seats, id, p)
    ensures |seats| == p
  {
  }

  lemma SeatStaysAt(before: seq<GeometrySeat>, added: seq<GeometrySeat>, tables: seq<GeometryTable>, p: nat, k: nat, s: nat)
    requires k < |tables| && SeatAt(before, tables, p, k, s)
    ensures SeatAt(before + added, tables, p, k, s)
  {
    Times(k, p);
  }

  lemma SeatIsAt(before: seq<GeometrySeat>, added: seq<GeometrySeat>, tables: seq<GeometryTable>, p: nat, k: nat, s: nat)
    requires k < |tables| && |before| == k * p && UniformTable(added, tables[k].id, p) && s < p
    ensures SeatAt(before + added, tables, p, k, s)
  {
  }

  /** The tables of a seat map, in the geometry. */
  lemma MapTables(name: string, seatCount: int, tableCount: int)
    ensures var inputs := SeatMap(name, seatCount, tableCount);
      && |TablesOf(inputs)| == Max(0, tableCount)
      && forall k | 0 <= k < |TablesOf(inputs)| :: k < |inputs[0].tables| && TablesOf(inputs)[k] == TableOf(0, inputs[0], k)
  {
    hide TableOf;
    var inputs := SeatMap(name, seatCount, tableCount);
    assert inputs[..0] == [] && TablesOf(inputs[..0]) == [];
    assert TablesOf(inputs) == [] + TablesOfSection(0, inputs[0]);
  }

  lemma MapTableSeats(name: string, seatCount: int, tableCount: int, k: nat)
    requires k < Max(0, tableCount)
    ensures var inputs := SeatMap(name, seatCount, tableCount); var id := TableId(0, k);
      && Indexed(inputs, id) && UniformTable(SeatsOfTable(inputs, id), id, Max(0, SeatsPerTable(seatCount, tableCount)))
  {
    hide TableId, Indexed, SeatsOfTable, SeatsPerTable, SeatId, Print;
    var inputs := SeatMap(name, seatCount, tableCount);
    TableIdIndexed(inputs, 0, k);
  }

  /** A seat map can always be stored. */
  lemma MapFits(name: string, seatCount: int, tableCount: int)
    ensures var inputs := SeatMap(name, seatCount, tableCount); NamesFit(inputs) && SeatShapesFit(inputs)
  {
    hide SeatsPerTable, Print;
    var inputs := SeatMap(name, seatCount, tableCount);
    assert PLANNED_SHAPE in SEAT_SHAPES;
    forall t, u | 0 <= t < |inputs[0].tables| && 0 <= u < |inputs[0].tables| && t != u
      ensures NameOfTable(inputs[0], t) != NameOfTable(inputs[0], u)
    {
      if NameOfTable(inputs[0], t) == NameOfTable(inputs[0], u) {
        NumberedNamesDiffer("Table ", t + 1, u + 1);
      }
    }
  }

  /** The number of tables and seats stored, and each seat on its table. */
  ghost predicate MapLaidOut(rows: Layout, tables: nat, perTable: nat) {
    && |rows.tables| == tables && |rows.seats| == tables * perTable
    && forall k, s | 0 <= k < tables && 0 <= s < perTable :: StoredAt(rows, perTable, k, s)
  }

  predicate StoredAt(rows: Layout, perTable: nat, k: nat, s: nat) {
    && k < |rows.tables| && k * perTable + s < |rows.seats|
    && rows.seats[k * perTable + s].tableId == Some(rows.tables[k].id) && rows.seats[k * perTable + s].number == Some(s + 1)
  }

  /** The seats of a seat map, in the geometry. */
  lemma MapSeats(name: string, seatCount: int, tableCount: int, p: nat)
    requires p == Max(0, SeatsPerTable(seatCount, tableCount))
    ensures var inputs := SeatMap(name, seatCount, tableCount); var tables, seats := TablesOf(inputs), AllSeats(inputs);
      && |tables| == Max(0, tableCount) && |seats| == |tables| * p
      && forall k, s | 0 <= k < |tables| && 0 <= s < p :: SeatAt(seats, tables, p, k, s)
  {
    hide *;
    var inputs := SeatMap(name, seatCount, tableCount);
    var tables := TablesOf(inputs);
    MapTables(name, seatCount, tableCount);
    TablesAreUniform(name, seatCount, tableCount, p);
    UniformSeats(inputs, tables, p, |tables|);
    assert tables[..|tables|] == tables;
    AllSeatsAre(inputs);
  }

  lemma AllSeatsAre(inputs: seq<SectionInput>)
    ensures forall table | table in TablesOf(inputs) :: Indexed(inputs, table.id)
    ensures AllSeats(inputs) == SeatsOf(inputs, TablesOf(inputs))
  {
    TablesAreIndexed(inputs);
  }

  lemma TablesAreUniform(name: string, seatCount: int, tableCount: int, p: nat)
    requires p == Max(0, SeatsPerTable(seatCount, tableCount))
    ensures var inputs := SeatMap(name, seatCount, tableCount); var tables := TablesOf(inputs);
      && (forall table | table in tables :: Indexed(inputs, table.id))
      && forall k | 0 <= k < |tables| :: UniformTable(SeatsOfTable(inputs, tables[k].id), tables[k].id, p)
  {
    hide *;
    var inputs := SeatMap(name, seatCount, tableCount);
    var tables := TablesOf(inputs);
    AllSeatsAre(inputs);
    MapTables(name, seatCount, tableCount);
    MapHasOne(name, seatCount, tableCount);
    forall k | 0 <= k < |tables|
      ensures UniformTable(SeatsOfTable(inputs, tables[k].id), tables[k].id, p)
    {
      MapTableSeats(name, seatCount, tableCount, k);
      IdOfTable(inputs, k);
    }
  }

  lemma MapHasOne(name: string, seatCount: int, tableCount: int)
    ensures |SeatMap(name, seatCount, tableCount)| == 1 && |SeatMap(name, seatCount, tableCount)[0].tables| == Max(0, tableCount)
  {
  }

  lemma IdOfTable(inputs: seq<SectionInput>, k: nat)
    requires inputs != [] && k < |inputs[0].tables|
    ensures TableOf(0, inputs[0], k).id == TableId(0, k) && TableOf(0, inputs[0], k).name == NameOfTable(inputs[0], k)
  {
  }

  lemma MapNamesDiffer(name: string, seatCount: int, tableCount: int, i: nat, j: nat)
    requires i < j < |TablesOf(SeatMap(name, seatCount, tableCount))|
    ensures TablesOf(SeatMap(name, seatCount, tableCount))[i].name != TablesOf(SeatMap(name, seatCount, tableCount))[j].name
  {
    var inputs := SeatMap(name, seatCount, tableCount);
    MapFits(name, seatCount, tableCount);
    MapTables(name, seatCount, tableCount);
    hide TablesOf, NameOfTable, TableOf, SeatsPerTable, Print;
    IdOfTable(inputs, i);
    IdOfTable(inputs, j);
    assert inputs[0].name == inputs[0].name;
  }

  lemma MapSeatStored(l: Layout, event: EventId, name: string, seatCount: int, tableCount: int, next: Id, draw: Drawings, p: nat, k: nat, s: nat)
    requires Valid(l, next) && Generated(l, event, SeatMap(name, seatCount, tableCount), next, draw).Some?
    requires p == Max(0, SeatsPerTable(seatCount, tableCount)) && k < Max(0, tableCount) && s < p
    ensures StoredAt(Of(Generated(l, event, SeatMap(name, seatCount, tableCount), next, draw).value.0, event), p, k, s)
  {
    hide *;
    var inputs := SeatMap(name, seatCount, tableCount);
    MapSeats(name, seatCount, tableCount, p);
    SeatIsThere(AllSeats(inputs), TablesOf(inputs), p, k, s);
    Times(k, p);
    var i := SeatLandsOnFirst(l, event, inputs, next, draw, k * p + s, k);
    if i < k {
      MapNamesDiffer(name, seatCount, tableCount, i, k);
    }
    GeneratedIs(l, event, inputs, next, draw);
    SeatsStored(inputs, event, next, draw);
    StoredIs(inputs, event, next, draw);
    IsStoredAt(Of(Generated(l, event, inputs, next, draw).value.0, event), p, k, s);
  }

  lemma StoredIs(inputs: seq<SectionInput>, event: EventId, next: Id, draw: Drawings)
    ensures Stored(inputs, event, next, draw).seats == StoredSeats(inputs, event, next, draw)
  {
  }

  lemma SeatIsThere(seats: seq<GeometrySeat>, tables: seq<GeometryTable>, p: nat, k: nat, s: nat)
    requires k < |tables| && SeatAt(seats, tables, p, k, s)
    ensures k * p + s < |seats| && seats[k * p + s].tableId == tables[k].id && seats[k * p + s].number == s + 1
  {
  }

  lemma IsStoredAt(rows: Layout, p: nat, k: nat, s: nat)
    requires k < |rows.tables| && 0 <= k * p + s < |rows.seats|
    requires rows.seats[k * p + s].tableId == Some(rows.tables[k].id) && rows.seats[k * p + s].number == Some(s + 1)
    ensures StoredAt(rows, p, k, s)
  {
  }

  lemma MapIsStored(l: Layout, event: EventId, name: string, seatCount: int, tableCount: int, next: Id, draw: Drawings, tables: nat, p: nat)
    requires Valid(l, next) && Generated(l, event, SeatMap(name, seatCount, tableCount), next, draw).Some?
    requires p == Max(0, SeatsPerTable(seatCount, tableCount)) && tables == Max(0, tableCount)
    ensures MapLaidOut(Of(Generated(l, event, SeatMap(name, seatCount, tableCount), next, draw).value.0, event), tables, p)
  {
    hide *;
    var inputs := SeatMap(name, seatCount, tableCount);
    var rows := Of(Generated(l, event, inputs, next, draw).value.0, event);
    MapSeats(name, seatCount, tableCount, p);
    GeneratedCounts(l, event, inputs, next, draw);
    forall k, s | 0 <= k < tables && 0 <= s < p
      ensures StoredAt(rows, p, k, s)
    {
      MapSeatStored(l, event, name, seatCount, tableCount, next, draw, p, k, s);
    }
    IsLaidOut(rows, tables, p);
  }

  lemma GeneratedCounts(l: Layout, event: EventId, inputs: seq<SectionInput>, next: Id, draw: Drawings)
    requires Valid(l, next) && Generated(l, event, inputs, next, draw).Some?
    ensures var rows := Of(Generated(l, event, inputs, next, draw).value.0, event);
      |rows.tables| == |TablesOf(inputs)| && |rows.seats| == |AllSeats(inputs)|
  {
    GeneratedIs(l, event, inputs, next, draw);
    hide Generated, Of, Valid, StoredSections, StoredTables, StoredSeats, TablesOf, AllSeats;
    TablesStored(inputs, event, next, draw);
    SeatsStored(inputs, event, next, draw);
  }

  lemma IsLaidOut(rows: Layout, tables: nat, p: nat)
    requires |rows.tables| == tables && |rows.seats| == tables * p
    requires forall k, s | 0 <= k < tables && 0 <= s < p :: StoredAt(rows, p, k, s)
    ensures MapLaidOut(rows, tables, p)
  {
  }

  /** The seats can be shared out evenly. */
  predicate TablesDivide(seatCount: int, tableCount: int) {
    if tableCount <= 0 then seatCount == 0 else seatCount >= 0 && seatCount % tableCount == 0
  }

  /**
   Generating a seat map always succeeds, gives each of its tables the same number of seats, rounded up, and so stores the
   number of seats asked for exactly when the tables divide it.
   */
  lemma SeatMapIsLaidOut(l: Layout, event: EventId, name: string, seatCount: int, tableCount: int, next: Id, draw: Drawings)
    requires Valid(l, next)
    ensures var after := Generated(l, event, SeatMap(name, seatCount, tableCount), next, draw);
      && after.Some?
      && var rows := Of(after.value.0, event);
      && MapLaidOut(rows, Max(0, tableCount), Max(0, SeatsPerTable(seatCount, tableCount)))
      && (|rows.seats| == seatCount <==> TablesDivide(seatCount, tableCount))
  {
    hide *;
    var inputs := SeatMap(name, seatCount, tableCount);
    var tables := AtLeastZero(tableCount);
    var p := AtLeastZero(SeatsPerTable(seatCount, tableCount));
    MapFits(name, seatCount, tableCount);
    GeneratedIff(l, event, inputs, next, draw);
    MapIsStored(l, event, name, seatCount, tableCount, next, draw, tables, p);
    var rows := Of(Generated(l, event, inputs, next, draw).value.0, event);
    MapCounts(rows, seatCount, tableCount);
  }

  lemma AtLeastZero(a: int) returns (n: nat)
    ensures n == Max(0, a)
  {
    n := Max(0, a);
  }

  lemma MapCounts(rows: Layout, seatCount: int, tableCount: int)
    requires Max(0, tableCount) >= 0 && Max(0, SeatsPerTable(seatCount, tableCount)) >= 0
    requires MapLaidOut(rows, Max(0, tableCount), Max(0, SeatsPerTable(seatCount, tableCount)))
    ensures |rows.seats| == seatCount <==> TablesDivide(seatCount, tableCount)
  {
    if tableCount > 0 {
      RoundedUp(seatCount, tableCount);
    }
  }

  lemma RoundedUp(n: int, d: int)
    requires d > 0
    ensures d * Max(0, CeilDiv(n, d)) == n <==> n >= 0 && n % d == 0
  {
    var q := CeilDiv(n, d);
    if n >= 0 {
      NotNegative(q, d, n);
      Divides(q, d, n);
    } else {
      NotPositive(q, d, n);
    }
  }

  lemma NotNegative(q: int, d: int, n: int)
    requires d > 0 && n >= 0 && n <= q * d
    ensures q >= 0
  {
  }

  lemma NotPositive(q: int, d: int, n: int)
    requires d > 0 && n < 0 && (q - 1) * d < n
    ensures q <= 0
  {
  }

  /** A multiple of `d` strictly between -`d` and `d` is zero. */
  lemma OnlyZero(x: int, d: int)
    requires d > 0 && -d < x * d < d
    ensures x == 0
  {
    if x > 0 {
      NotNegative(x - 1, d, 0);
    }
  }

  lemma Divides(q: int, d: int, n: int)
    requires d > 0 && n >= 0 && (q - 1) * d < n <= q * d
    ensures d * q == n <==> n % d == 0
  {
    var r, e := n / d, n % d;
    Apart(q, r, d);
    if e == 0 || d * q == n {
      OnlyZero(q - r, d);
    }
  }

  lemma Apart(q: int, r: int, d: int)
    ensures (q - r) * d == q * d - r * d && (q - 1) * d == q * d - d
  {
  }
}
