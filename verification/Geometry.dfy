/** buildAutoGenerateInputFromMaxSeats: how a number of seats is laid out on tables and sections. */
module SeatPlan {
  import opened Results
  import opened Numbers
  import opened Decimal

  const SEATS_PER_TABLE := 10
  const TABLES_PER_SECTION := 5
  const PLANNED_SHAPE := "CIRCLE"

  /** Table and section shapes only decide coordinates and are left to the drawing; a seat shape is stored with each seat. */
  datatype TableInput = TableInput(name: Option<string>, count: int, seatShape: string)

  datatype SectionInput = SectionInput(name: string, tables: seq<TableInput>)

  function CeilDiv(a: int, b: int): (q: int)
    requires b > 0
    ensures (q - 1) * b < a <= q * b
  {
    (a + b - 1) / b
  }

  /** How many tables the plan has, and how many sections. */
  function TotalTables(maxSeats: int): nat { Max(0, CeilDiv(maxSeats, SEATS_PER_TABLE)) }
  function TotalSections(maxSeats: int): nat { CeilDiv(TotalTables(maxSeats), TABLES_PER_SECTION) }

  /** The `k`-th table of the plan, counted across sections. */
  function PlannedTable(maxSeats: int, k: nat): TableInput {
    TableInput(Some("Table " + Print(k + 1)), Min(SEATS_PER_TABLE, maxSeats - SEATS_PER_TABLE * k), PLANNED_SHAPE)
  }

  function TablesIn(maxSeats: int, s: nat): nat {
    Max(0, Min(TABLES_PER_SECTION, TotalTables(maxSeats) - TABLES_PER_SECTION * s))
  }

  function PlannedTables(maxSeats: int, s: nat): (tables: seq<TableInput>)
    ensures |tables| == TablesIn(maxSeats, s)
  {
    seq(TablesIn(maxSeats, s), t requires 0 <= t => PlannedTable(maxSeats, TABLES_PER_SECTION * s + t))
  }

  function PlannedSection(maxSeats: int, s: nat): SectionInput {
    SectionInput("Section " + Print(s + 1), PlannedTables(maxSeats, s))
  }

  function Plan(maxSeats: int): (sections: seq<SectionInput>)
    ensures |sections| == TotalSections(maxSeats)
  {
    seq(TotalSections(maxSeats), s requires 0 <= s => PlannedSection(maxSeats, s))
  }

  /** How many seats each table of a seat map gets. */
  function SeatsPerTable(seatCount: int, tableCount: int): int {
    if tableCount > 0 then CeilDiv(seatCount, tableCount) else 0
  }

  /** One section in which every table has the same number of seats. */
  function SeatMap(sectionName: string, seatCount: int, tableCount: int): seq<SectionInput> {
    [SectionInput(sectionName, seq(Max(0, tableCount), i requires 0 <= i =>
      TableInput(Some("Table " + Print(i + 1)), SeatsPerTable(seatCount, tableCount), PLANNED_SHAPE)))]
  }

  /** Table `k` exists exactly while seats remain for it. */
  lemma TablesWhileSeatsRemain(maxSeats: int, k: nat)
    ensures k < TotalTables(maxSeats) <==> maxSeats - SEATS_PER_TABLE * k > 0
  {
  }

  method BuildSection(maxSeats: int, s: nat, remaining: int, tableOrder: nat)
    returns (tables: seq<TableInput>, left: int, nextOrder: nat)
    requires tableOrder == TABLES_PER_SECTION * s + 1 && TABLES_PER_SECTION * s < TotalTables(maxSeats)
    requires remaining == maxSeats - SEATS_PER_TABLE * (tableOrder - 1)
    ensures tables == PlannedTables(maxSeats, s)
    ensures nextOrder == tableOrder + |tables| && left == Max(0, maxSeats - SEATS_PER_TABLE * (nextOrder - 1))
  {
    tables, left, nextOrder := [], remaining, tableOrder;
    var t := 0;
    while t < TABLES_PER_SECTION
      invariant 0 <= t <= TABLES_PER_SECTION && nextOrder == tableOrder + |tables|
      invariant |tables| == Min(t, TotalTables(maxSeats) - TABLES_PER_SECTION * s)
      invariant left == Max(0, maxSeats - SEATS_PER_TABLE * (nextOrder - 1))
      invariant forall i | 0 <= i < |tables| :: tables[i] == PlannedTable(maxSeats, TABLES_PER_SECTION * s + i)
    {
      TablesWhileSeatsRemain(maxSeats, nextOrder - 1);
      if left <= 0 {
        break;
      }
      var seatCount := Min(SEATS_PER_TABLE, left);
      tables := tables + [TableInput(Some("Table " + Print(nextOrder)), seatCount, PLANNED_SHAPE)];
      nextOrder := nextOrder + 1;
      left := left - seatCount;
      t := t + 1;
    }
  }

  method BuildAutoGenerateInputFromMaxSeats(maxSeats: int) returns (sections: seq<SectionInput>)
    ensures sections == Plan(maxSeats)
  {
    var totalTables := CeilDiv(maxSeats, SEATS_PER_TABLE);
    var totalSections := CeilDiv(totalTables, TABLES_PER_SECTION);
    sections := [];
    var remainingSeats, tableOrder, sectionOrder := maxSeats, 1, 1;
    var s := 0;
    while s < totalSections
      invariant 0 <= s && (s <= totalSections || s == 0) && |sections| == s && sectionOrder == s + 1
      invariant forall i | 0 <= i < s :: sections[i] == PlannedSection(maxSeats, i)
      invariant s < totalSections ==> tableOrder == TABLES_PER_SECTION * s + 1
      invariant s < totalSections ==> remainingSeats == maxSeats - SEATS_PER_TABLE * (tableOrder - 1)
    {
      var tables;
      tables, remainingSeats, tableOrder := BuildSection(maxSeats, s, remainingSeats, tableOrder);
      sections := sections + [SectionInput("Section " + Print(sectionOrder), tables)];
      sectionOrder := sectionOrder + 1;
      s := s + 1;
    }
  }
}

/** geometry-engine.ts: the sections, tables and seats of a configuration, with the ids that tie them together. */
module GeometryEngine {
  import opened Numbers
  import opened Decimal
  import opened SeatPlan

  datatype GeometrySection = GeometrySection(id: string, name: string, order: int)
  datatype GeometryTable = GeometryTable(id: string, sectionId: string, name: string, order: int, capacity: int)
  datatype GeometrySeat = GeometrySeat(id: string, tableId: string, number: nat, status: string, seatShape: string)
  datatype GeometryOutput = GeometryOutput(sections: seq<GeometrySection>, tables: seq<GeometryTable>, seats: seq<GeometrySeat>)

  function SectionId(i: nat): string { "sec_" + Print(i) }
  function TableId(i: nat, t: nat): string { "tbl_" + Print(i) + "_" + Print(t) }
  function SeatId(i: nat, t: nat, s: nat): string { "seat_" + Print(i) + "_" + Print(t) + "_" + Print(s) }

  function SectionsOf(inputs: seq<SectionInput>): (sections: seq<GeometrySection>)
    ensures |sections| == |inputs|
  {
    seq(|inputs|, i requires 0 <= i < |inputs| => GeometrySection(SectionId(i), inputs[i].name, i + 1))
  }

  /** A table without a name of its own is named after its section and place. */
  function NameOfTable(input: SectionInput, t: nat): string
    requires t < |input.tables|
  {
    input.tables[t].name.GetOr(input.name + "-T" + Print(t + 1))
  }

  function TableOf(i: nat, input: SectionInput, t: nat): GeometryTable
    requires t < |input.tables|
  {
    GeometryTable(TableId(i, t), SectionId(i), NameOfTable(input, t), t + 1, input.tables[t].count)
  }

  function TablesOfSection(i: nat, input: SectionInput): (tables: seq<GeometryTable>)
    ensures |tables| == |input.tables|
  {
    seq(|input.tables|, t requires 0 <= t < |input.tables| => TableOf(i, input, t))
  }

  function TablesOf(inputs: seq<SectionInput>): seq<GeometryTable> {
    if inputs == [] then []
    else
      var last := |inputs| - 1;
      TablesOf(inputs[..last]) + TablesOfSection(last, inputs[last])
  }

  // ---------------------------------------------------------------- reading the indices back from a table id

  function Split(s: string, c: char): (parts: seq<string>)
    ensures |parts| > 0
  {
    if s == "" then [""]
    else
      var init, last := Split(s[..|s| - 1], c), s[|s| - 1];
      if last == c then init + [""] else init[|init| - 1 := init[|init| - 1] + [last]]
  }

  predicate IsNumeral(s: string) {
    s != "" && forall c | c in s :: IsDigit(c)
  }

  /** The configuration that the table's id names. */
  predicate Indexed(inputs: seq<SectionInput>, id: string) {
    var parts := Split(id, '_');
    && |parts| >= 3 && IsNumeral(parts[1]) && IsNumeral(parts[2])
    && Parse(parts[1]) < |inputs| && Parse(parts[2]) < |inputs[Parse(parts[1])].tables|
  }

  function SeatsOfTable(inputs: seq<SectionInput>, id: string): seq<GeometrySeat>
    requires Indexed(inputs, id)
  {
    var parts := Split(id, '_');
    var i, t := Parse(parts[1]), Parse(parts[2]);
    var count := Max(0, inputs[i].tables[t].count);
    seq(count, s requires 0 <= s => GeometrySeat(SeatId(i, t, s), id, s + 1, "AVAILABLE", inputs[i].tables[t].seatShape))
  }

  function SeatsOf(inputs: seq<SectionInput>, tables: seq<GeometryTable>): seq<GeometrySeat>
    requires forall table | table in tables :: Indexed(inputs, table.id)
  {
    if tables == [] then []
    else
      var last := |tables| - 1;
      SeatsOf(inputs, tables[..last]) + SeatsOfTable(inputs, tables[last].id)
  }

  lemma {:induction false} SplitWithout(s: string, c: char)
    requires c !in s
    ensures Split(s, c) == [s]
  {
    if s != "" {
      SplitWithout(s[..|s| - 1], c);
      assert s == s[..|s| - 1] + [s[|s| - 1]];
    }
  }

  lemma {:induction false} SplitAtLast(a: string, b: string, c: char)
    requires c !in b
    ensures Split(a + [c] + b, c) == Split(a, c) + [b]
  {
    if b == "" {
      assert (a + [c] + b)[..|a|] == a;
    } else {
      var last := |b| - 1;
      SplitAtLast(a, b[..last], c);
      assert (a + [c] + b)[..|a + [c] + b| - 1] == a + [c] + b[..last];
      assert b == b[..last] + [b[last]];
    }
  }

  /** The indices printed into a table id are the ones read back from it. */
  lemma TableIdReadsBack(i: nat, t: nat)
    ensures Split(TableId(i, t), '_') == ["tbl", Print(i), Print(t)]
    ensures Parse(Print(i)) == i && Parse(Print(t)) == t
  {
    ParsePrint(i);
    ParsePrint(t);
    SplitWithout("tbl", '_');
    SplitAtLast("tbl", Print(i), '_');
    SplitAtLast("tbl_" + Print(i), Print(t), '_');
    assert "tbl_" + Print(i) == "tbl" + ['_'] + Print(i);
    assert TableId(i, t) == "tbl_" + Print(i) + ['_'] + Print(t);
  }

  lemma TableIdIndexed(inputs: seq<SectionInput>, i: nat, t: nat)
    requires i < |inputs| && t < |inputs[i].tables|
    ensures Indexed(inputs, TableId(i, t))
    ensures var seats := SeatsOfTable(inputs, TableId(i, t));
      && |seats| == Max(0, inputs[i].tables[t].count)
      && forall s | 0 <= s < |seats| :: 
        seats[s] == GeometrySeat(SeatId(i, t, s), TableId(i, t), s + 1, "AVAILABLE", inputs[i].tables[t].seatShape)
  {
    TableIdReadsBack(i, t);
  }

  /** Different places in the configuration have different table ids. */
  lemma TableIdsDiffer(i: nat, t: nat, j: nat, u: nat)
    ensures TableId(i, t) == TableId(j, u) <==> i == j && t == u
  {
    TableIdReadsBack(i, t);
    TableIdReadsBack(j, u);
  }

  lemma {:induction false} TablesOfIndexed(inputs: seq<SectionInput>, k: nat)
    requires k <= |inputs|
    ensures forall table | table in TablesOf(inputs[..k]) :: Indexed(inputs, table.id)
  {
    if k > 0 {
      TablesOfIndexed(inputs, k - 1);
      assert inputs[..k][..k - 1] == inputs[..k - 1];
      forall table | table in TablesOfSection(k - 1, inputs[k - 1])
        ensures Indexed(inputs, table.id)
      {
        var t :| 0 <= t < |inputs[k - 1].tables| && table == TableOf(k - 1, inputs[k - 1], t);
        TableIdIndexed(inputs, k - 1, t);
      }
    }
  }

  // ---------------------------------------------------------------- the engine's loops

  method GenerateSections(inputs: seq<SectionInput>) returns (list: seq<GeometrySection>)
    ensures list == SectionsOf(inputs)
  {
    list := [];
    for i := 0 to |inputs|
      invariant |list| == i && forall j | 0 <= j < i :: list[j] == SectionsOf(inputs)[j]
    {
      var sec := inputs[i];
      list := list + [GeometrySection("sec_" + Print(i), sec.name, i + 1)];
    }
  }

  method AddSectionTables(before: seq<GeometryTable>, i: nat, sec: GeometrySection, input: SectionInput) returns (list: seq<GeometryTable>)
    requires sec.id == SectionId(i) && sec.name == input.name
    ensures list == before + TablesOfSection(i, input)
  {
    list := before;
    var tables := input.tables;
    for t := 0 to |tables|
      invariant list == before + TablesOfSection(i, input)[..t]
    {
      var tblCfg := tables[t];
      var name := tblCfg.name.GetOr(sec.name + "-T" + Print(t + 1));
      list := list + [GeometryTable("tbl_" + Print(i) + "_" + Print(t), sec.id, name, t + 1, tblCfg.count)];
    }
    assert TablesOfSection(i, input)[..|tables|] == TablesOfSection(i, input);
  }

  method GenerateTables(inputs: seq<SectionInput>, sections: seq<GeometrySection>) returns (list: seq<GeometryTable>)
    requires sections == SectionsOf(inputs)
    ensures list == TablesOf(inputs)
  {
    list := [];
    for i := 0 to |sections|
      invariant list == TablesOf(inputs[..i])
    {
      assert inputs[..i + 1][..i] == inputs[..i];
      list := AddSectionTables(list, i, sections[i], inputs[i]);
    }
    assert inputs[..|inputs|] == inputs;
  }

  method GenerateSeats(inputs: seq<SectionInput>, tables: seq<GeometryTable>) returns (list: seq<GeometrySeat>)
    requires forall table | table in tables :: Indexed(inputs, table.id)
    ensures list == SeatsOf(inputs, tables)
  {
    list := [];
    for k := 0 to |tables|
      invariant list == SeatsOf(inputs, tables[..k])
    {
      var table := tables[k];
      assert tables[..k + 1][..k] == tables[..k];
      var parts := Split(table.id, '_');
      var secIndex, tblIndex := Parse(parts[1]), Parse(parts[2]);
      var seatCount := inputs[secIndex].tables[tblIndex].count;
      var seatShape := inputs[secIndex].tables[tblIndex].seatShape;
      var s := 0;
      while s < seatCount
        invariant 0 <= s && (s <= seatCount || s == 0)
        invariant list == SeatsOf(inputs, tables[..k]) + SeatsOfTable(inputs, table.id)[..s]
      {
        list := list + [GeometrySeat("seat_" + Print(secIndex) + "_" + Print(tblIndex) + "_" + Print(s), table.id, s + 1,
                                     "AVAILABLE", seatShape)];
        s := s + 1;
      }
      assert SeatsOfTable(inputs, table.id)[..s] == SeatsOfTable(inputs, table.id);
    }
    assert tables[..|tables|] == tables;
  }

  method Generate(inputs: seq<SectionInput>) returns (geometry: GeometryOutput)
    ensures forall table | table in TablesOf(inputs) :: Indexed(inputs, table.id)
    ensures geometry == GeometryOutput(SectionsOf(inputs), TablesOf(inputs), SeatsOf(inputs, TablesOf(inputs)))
  {
    var sections := GenerateSections(inputs);
    var tables := GenerateTables(inputs, sections);
    assert inputs[..|inputs|] == inputs;
    TablesOfIndexed(inputs, |inputs|);
    var seats := GenerateSeats(inputs, tables);
    return GeometryOutput(sections, tables, seats);
  }
}
