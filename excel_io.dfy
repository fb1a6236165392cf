/** The spreadsheet codec of wedding_planner/excel_io.py, with the workbook
    library taken away: a worksheet is the sequence of its rows, a row the
    sequence of its cell values, from the first column on. */
module ExcelIO {
  import opened Common
  import opened Cells
  import opened Entities
  import opened Plan

  /** The three worksheets the codec knows, each present or absent. */
  datatype Workbook = Workbook(tables: Option<Sheet>, guests: Option<Sheet>, metadata: Option<Sheet>)

  /** The rows below the header row (`iter_rows(min_row=2)`). */
  function DataRows(sheet: Sheet): (r: seq<Row>)
    ensures |sheet| > 0 ==> r == sheet[1..]
    ensures |sheet| == 0 ==> r == []
  {
    if |sheet| == 0 then [] else sheet[1..]
  }

  // =======================================================================
  // Loading

  /** An exception that ends a load part-way, with the plan as far as it got.
      - ShortTableRow: a Tables row too short for its five-field unpacking;
      - ShortGuestRow: a Guests row too short for its four-field unpacking;
      - BadGuestSize: `int(size)` raised on a guest's size cell;
      - ShortMetadataRow: the counters row has a single cell;
      - MetadataNotNumber: in a replacing load, a stored counter is not a
        number (the plan would hold a counter that is not an integer). */
  datatype LoadError = ShortTableRow | ShortGuestRow | BadGuestSize | ShortMetadataRow | MetadataNotNumber

  /** The state of a load between rows: the plan, the old-to-new table id
      mapping, and the exception that stopped the load, if one did. */
  datatype Loading = Loading(plan: PlanState, tableMap: map<int, int>, failure: Option<LoadError>)

  /** `capacity`, `x` and `y` coerced in turn with `int(float(...))`; the
      coercion stops at the first failure, and a field it did not reach or
      could not convert is 0. */
  function SecondaryFields(capacity: Cell, x: Cell, y: Cell): (int, int, int)
  {
    match IntOfFloat(capacity)
    case None => (0, 0, 0)
    case Some(c) =>
      match IntOfFloat(x)
      case None => (c, 0, 0)
      case Some(xv) =>
        match IntOfFloat(y)
        case None => (c, xv, 0)
        case Some(yv) => (c, xv, yv)
  }

  /** One data row of the Tables sheet. */
  function TableRowStep(clear: bool, ld: Loading, row: Row): (r: Loading)
  {
    if ld.failure.Some? then ld
    else if |row| == 0 then ld.(failure := Some(ShortTableRow))
    else if row[0] == Empty then ld
    else if |row| < 5 then ld.(failure := Some(ShortTableRow))
    else
      match IntOfFloat(row[0])
      case None => ld
      case Some(stored) =>
        var (capacity, x, y) := SecondaryFields(row[2], row[3], row[4]);
        var s := ld.plan;
        var collides := !clear && stored in s.tables;
        var id := if collides then s.nextTableId else stored;
        var table := Table(id, CellStr(row[1]), capacity, [], x, y);
        Loading(s.(tables := s.tables[id := table],
                   tableOrder := Put(s.tableOrder, id),
                   nextTableId := if collides then s.nextTableId + 1 else s.nextTableId),
                ld.tableMap[stored := id], None)
  }

  /** A guest row's size cell and table-reference cell: five cells or more
      are id, name, category, size, table; fewer are id, name, category,
      table, with size 1. An empty size cell is size 1. */
  function GuestLayout(row: Row): (Cell, Cell)
    requires |row| >= 4
  {
    if |row| >= 5 then (if row[3] == Empty then IntC(1) else row[3], row[4])
    else (IntC(1), row[3])
  }

  /** The table a guest row refers to: none for an empty or blank cell or
      one `int(float(...))` cannot read; in a merging load, a table id
      remapped earlier in this load is rewritten to its new id. */
  function ResolveRef(c: Cell, clear: bool, tableMap: map<int, int>): Option<int>
  {
    if c == Empty || Strip(CellStr(c)) == "" then None
    else
      match IntOfFloat(c)
      case None => None
      case Some(t) => Some(if !clear && t in tableMap then tableMap[t] else t)
  }

  /** A guest stored under `id` and, when it refers to a table of the plan,
      appended to that table's list. */
  function StoreGuest(s: PlanState, guest: Guest): PlanState
  {
    var s1 := s.(guests := s.guests[guest.id := guest], guestOrder := Put(s.guestOrder, guest.id));
    if guest.tableId.Some? && guest.tableId.value in s1.tables
    then s1.(tables := s1.tables[guest.tableId.value :=
               s1.tables[guest.tableId.value].(guestIds := s1.tables[guest.tableId.value].guestIds + [guest.id])])
    else s1
  }

  /** One data row of the Guests sheet. */
  function GuestRowStep(clear: bool, ld: Loading, row: Row): (r: Loading)
  {
    if ld.failure.Some? then ld
    else if |row| == 0 then ld.(failure := Some(ShortGuestRow))
    else if row[0] == Empty then ld
    else if |row| < 4 then ld.(failure := Some(ShortGuestRow))
    else
      match IntOfFloat(row[0])
      case None => ld
      case Some(stored) => ParsedGuestRow(clear, ld.plan, ld.tableMap, row, stored)
  }

  /** A Guests row (at least four cells) whose id cell reads as `stored`: a
      merging load moves a colliding id to the next free one, and a size
      that `int()` refuses raises after that counter has moved. */
  function ParsedGuestRow(clear: bool, s: PlanState, tableMap: map<int, int>, row: Row, stored: int): (r: Loading)
    requires |row| >= 4
  {
    var (sizeCell, refCell) := GuestLayout(row);
    var tableRef := ResolveRef(refCell, clear, tableMap);
    var collides := !clear && stored in s.guests;
    var id := if collides then s.nextGuestId else stored;
    var s1 := s.(nextGuestId := if collides then s.nextGuestId + 1 else s.nextGuestId);
    match IntOf(sizeCell)
    case None => Loading(s1, tableMap, Some(BadGuestSize))
    case Some(size) =>
      Loading(StoreGuest(s1, Guest(id, CellStr(row[1]), CellStr(row[2]), tableRef, size)), tableMap, None)
  }

  function LoadTables(clear: bool, ld: Loading, rows: seq<Row>): Loading
  {
    if |rows| == 0 then ld
    else TableRowStep(clear, LoadTables(clear, ld, rows[..|rows| - 1]), rows[|rows| - 1])
  }

  function LoadGuests(clear: bool, ld: Loading, rows: seq<Row>): Loading
  {
    if |rows| == 0 then ld
    else GuestRowStep(clear, LoadGuests(clear, ld, rows[..|rows| - 1]), rows[|rows| - 1])
  }

  /** A counter cell taken as it is by a replacing load. */
  function CounterCell(c: Cell): Option<int>
  {
    match c
    case IntC(n) => Some(n)
    case DecC(w) => Some(w)
    case _ => None
  }

  /** The Metadata sheet's first data row: taken as it is by a replacing
      load; in a merging load each counter becomes the larger of its own
      value and `int()` of the stored one, and the first failing `int()`
      ends the update silently. */
  function MetadataStep(clear: bool, s: PlanState, rows: seq<Row>): (r: (PlanState, Option<LoadError>))
    ensures r.0.guests == s.guests && r.0.tables == s.tables
    ensures r.0.guestOrder == s.guestOrder && r.0.tableOrder == s.tableOrder
    ensures r.1.Some? ==> r.0 == s
  {
    if |rows| == 0 || |rows[0]| == 0 then (s, None)
    else if |rows[0]| < 2 then (s, Some(ShortMetadataRow))
    else
      var row := rows[0];
      if clear then
        match (CounterCell(row[0]), CounterCell(row[1]))
        case (Some(g), Some(t)) => (s.(nextGuestId := g, nextTableId := t), None)
        case _ => (s, Some(MetadataNotNumber))
      else
        match IntOf(row[0])
        case None => (s, None)
        case Some(g) =>
          var s1 := s.(nextGuestId := Max(s.nextGuestId, g));
          match IntOf(row[1])
          case None => (s1, None)
          case Some(t) => (s1.(nextTableId := Max(s1.nextTableId, t)), None)
  }

  /** Each counter rises to one past the largest key of its dictionary:
      it ends above every key and never falls, and it is either its old
      value or one past a key, so it is the least such value. */
  function Recount(s: PlanState): (r: PlanState)
    ensures r.guests == s.guests && r.tables == s.tables
    ensures r.guestOrder == s.guestOrder && r.tableOrder == s.tableOrder
    ensures r.nextGuestId >= s.nextGuestId && r.nextTableId >= s.nextTableId
    ensures forall k :: k in s.guestOrder ==> k < r.nextGuestId
    ensures forall k :: k in s.tableOrder ==> k < r.nextTableId
    ensures r.nextGuestId == s.nextGuestId || r.nextGuestId - 1 in s.guestOrder
    ensures r.nextTableId == s.nextTableId || r.nextTableId - 1 in s.tableOrder
  {
    s.(nextGuestId := if |s.guestOrder| > 0 then Max(s.nextGuestId, MaxOf(s.guestOrder) + 1) else s.nextGuestId,
       nextTableId := if |s.tableOrder| > 0 then Max(s.nextTableId, MaxOf(s.tableOrder) + 1) else s.nextTableId)
  }

  /** The plan a load starts from: emptied for a replacing load. */
  function LoadStart(s: PlanState, clear: bool): PlanState
  {
    if clear then s.(guests := map[], tables := map[], guestOrder := [], tableOrder := []) else s
  }

  /** The Tables sheet, then the Guests sheet, row by row. */
  function LoadRows(s: PlanState, wb: Workbook, clear: bool): Loading
  {
    var l0 := Loading(LoadStart(s, clear), map[], None);
    var l1 := if wb.tables.Some? then LoadTables(clear, l0, DataRows(wb.tables.value)) else l0;
    if wb.guests.Some? then LoadGuests(clear, l1, DataRows(wb.guests.value)) else l1
  }

  /** The Metadata sheet, then the recount. */
  function LoadCounters(s: PlanState, wb: Workbook, clear: bool): (PlanState, Option<LoadError>)
  {
    var (s1, failure) := if wb.metadata.Some? then MetadataStep(clear, s, DataRows(wb.metadata.value)) else (s, None);
    if failure.Some? then (s1, failure) else (Recount(s1), None)
  }

  /** `load_from_xlsx` as a function of the plan before it. */
  function Load(s: PlanState, wb: Workbook, clear: bool): Loading
  {
    var l := LoadRows(s, wb, clear);
    if l.failure.Some? then l
    else
      var (s1, failure) := LoadCounters(l.plan, wb, clear);
      Loading(s1, l.tableMap, failure)
  }

  // -----------------------------------------------------------------------
  // Properties of loading

  /** Once a row has raised, the rest of the rows change nothing. */
  lemma {:induction false} LoadTablesSticky(clear: bool, ld: Loading, rows: seq<Row>)
    requires ld.failure.Some?
    ensures LoadTables(clear, ld, rows) == ld
  {
    if |rows| > 0 {
      LoadTablesSticky(clear, ld, rows[..|rows| - 1]);
    }
  }

  lemma {:induction false} LoadGuestsSticky(clear: bool, ld: Loading, rows: seq<Row>)
    requires ld.failure.Some?
    ensures LoadGuests(clear, ld, rows) == ld
  {
    if |rows| > 0 {
      LoadGuestsSticky(clear, ld, rows[..|rows| - 1]);
    }
  }

  /** A Tables row is passed over, changing nothing, when its first cell is
      empty or `int(float(...))` cannot read it. */
  lemma TableRowSkipped(clear: bool, ld: Loading, row: Row)
    requires ld.failure.None? && |row| > 0
    requires row[0] == Empty || (|row| >= 5 && IntOfFloat(row[0]).None?)
    ensures TableRowStep(clear, ld, row) == ld
  {
  }

  /** `int(float(...))` reads the text "1" as 1. */
  lemma TextOneIsOne()
    ensures IntOfFloat(StrC("1")) == Some(1)
  {
    OneIsWrittenOne();
    ParseDecimalOfIntToString(1);
  }

  lemma OneIsWrittenOne()
    ensures IntToString(1) == "1"
  {
    assert NatToString(1) == [DigitChar(1)];
  }

  /** `int(float(...))` reads both the number 10.0 and the text "10.0" as 10. */
  lemma TenPointZeroIsTen()
    ensures IntOfFloat(StrC("10.0")) == Some(10)
    ensures IntOfFloat(DecC(10)) == Some(10)
  {
    TenIsWrittenTen();
    ParseDecimalOfPointZero(10);
  }

  lemma TenIsWrittenTen()
    ensures IntToString(10) + ".0" == "10.0"
  {
    assert NatToString(1) == [DigitChar(1)];
    assert NatToString(10) == NatToString(1) + [DigitChar(0)];
  }

  /** The id "1" loads as key 1 and a capacity of 10.0 as 10, in a
      replacing load. */
  lemma TableRowCoercion(ld: Loading, name: string, idCell: Cell, capacityCell: Cell)
    requires ld.failure.None?
    requires idCell == StrC("1") || idCell == IntC(1)
    requires capacityCell == StrC("10.0") || capacityCell == DecC(10)
    ensures TableRowStep(true, ld, [idCell, StrC(name), capacityCell, IntC(3), IntC(4)]).plan.tables
         == ld.plan.tables[1 := Table(1, name, 10, [], 3, 4)]
  {
    TextOneIsOne();
    TenPointZeroIsTen();
    TableRowKeyed(ld, name, idCell, capacityCell, 1, 10);
  }

  lemma TableRowKeyed(ld: Loading, name: string, idCell: Cell, capacityCell: Cell, id: int, capacity: int)
    requires ld.failure.None? && idCell != Empty
    requires IntOfFloat(idCell) == Some(id) && IntOfFloat(capacityCell) == Some(capacity)
    ensures TableRowStep(true, ld, [idCell, StrC(name), capacityCell, IntC(3), IntC(4)]).plan.tables
         == ld.plan.tables[id := Table(id, name, capacity, [], 3, 4)]
  {
    var row := [idCell, StrC(name), capacityCell, IntC(3), IntC(4)];
    assert SecondaryFields(row[2], row[3], row[4]) == (capacity, 3, 4);
  }

  /** A loaded Tables row is stored under its own id, unless the load is
      merging and that id is already a key: then it is stored under the
      table counter, which rises by one. Either way the mapping records the
      stored id against the key used, and, when the counter was above every
      key, no table already in the plan is replaced. */
  lemma TableRowStored(clear: bool, ld: Loading, row: Row)
    requires ld.failure.None? && |row| >= 5 && row[0] != Empty && IntOfFloat(row[0]).Some?
    ensures var r := TableRowStep(clear, ld, row);
      var stored := IntOfFloat(row[0]).value;
      var s := ld.plan;
      var id := r.tableMap[stored];
      && r.failure.None?
      && stored in r.tableMap && id in r.plan.tables
      && r.plan.tables[id].id == id && r.plan.tables[id].guestIds == []
      && (clear || stored !in s.tables ==> id == stored && r.plan.nextTableId == s.nextTableId)
      && (!clear && stored in s.tables ==> id == s.nextTableId && r.plan.nextTableId == s.nextTableId + 1)
      && r.plan.tables.Keys == s.tables.Keys + {id}
      && (s.CountersAbove() && !clear && stored in s.tables ==>
            id !in s.tables && forall k :: k in s.tables ==> r.plan.tables[k] == s.tables[k])
      && r.plan.guests == s.guests
  {
  }

  /** Quirk of the source: in a merging load the table counter does not move
      past a stored id that did not collide, so a later collision can be
      given that same id and replace the table just loaded. Here a plan with
      table 1 merges a sheet holding tables 2 and 1: both land on key 2. */
  lemma MergeCanOverwrite()
    ensures var s := AddTableSpec(EmptyPlan(), "A", 8, 100, 100);
      var rows := [[IntC(2), StrC("B"), IntC(8), IntC(0), IntC(0)],
                   [IntC(1), StrC("C"), IntC(8), IntC(0), IntC(0)]];
      var r := LoadTables(false, Loading(s, map[], None), rows);
      && s.Valid()
      && r.plan.tables.Keys == {1, 2}
      && r.plan.tables[2].name == "C"
      && r.tableMap == map[2 := 2, 1 := 2]
  {
    var s := AddTableSpec(EmptyPlan(), "A", 8, 100, 100);
    AddTableKeepsValid(EmptyPlan(), "A", 8, 100, 100);
    MergeLoads(s, [[IntC(2), StrC("B"), IntC(8), IntC(0), IntC(0)],
                   [IntC(1), StrC("C"), IntC(8), IntC(0), IntC(0)]]);
  }

  lemma MergeLoads(s: PlanState, rows: seq<Row>)
    requires s == AddTableSpec(EmptyPlan(), "A", 8, 100, 100)
    requires rows == [[IntC(2), StrC("B"), IntC(8), IntC(0), IntC(0)],
                      [IntC(1), StrC("C"), IntC(8), IntC(0), IntC(0)]]
    ensures var r := LoadTables(false, Loading(s, map[], None), rows);
      && r.plan.tables.Keys == {1, 2}
      && r.plan.tables[2].name == "C"
      && r.tableMap == map[2 := 2, 1 := 2]
  {
    var a := Table(1, "A", 8, [], 100, 100);
    assert s == PlanState(map[], map[1 := a], [], [1], 1, 2);
    var l1 := Loading(s.(tables := map[1 := a, 2 := Table(2, "B", 8, [], 0, 0)], tableOrder := [1, 2]), map[2 := 2], None);
    MergeFirstRow(s, l1);
    assert rows[..1][..0] == [] && rows[..1][0] == rows[0];
    assert LoadTables(false, Loading(s, map[], None), rows[..1]) == l1;
    MergeSecondRow(l1);
    assert rows[..1] == rows[..|rows| - 1];
  }

  lemma MergeFirstRow(s: PlanState, l1: Loading)
    requires s == PlanState(map[], map[1 := Table(1, "A", 8, [], 100, 100)], [], [1], 1, 2)
    requires l1 == Loading(s.(tables := s.tables[2 := Table(2, "B", 8, [], 0, 0)], tableOrder := [1, 2]), map[2 := 2], None)
    ensures TableRowStep(false, Loading(s, map[], None), [IntC(2), StrC("B"), IntC(8), IntC(0), IntC(0)]) == l1
  {
    assert [1] + [2] == [1, 2];
  }

  lemma MergeSecondRow(l1: Loading)
    requires l1.failure.None? && l1.tableMap == map[2 := 2]
    requires l1.plan.tables.Keys == {1, 2} && l1.plan.nextTableId == 2 && l1.plan.tableOrder == [1, 2]
    ensures var r := TableRowStep(false, l1, [IntC(1), StrC("C"), IntC(8), IntC(0), IntC(0)]);
      && r.plan.tables == l1.plan.tables[2 := Table(2, "C", 8, [], 0, 0)]
      && r.tableMap == map[2 := 2, 1 := 2]
  {
  }

  /** The two guest row layouts. */
  lemma GuestLayouts(row: Row)
    requires |row| >= 4
    ensures |row| >= 5 && row[3] != Empty ==> GuestLayout(row) == (row[3], row[4])
    ensures |row| >= 5 && row[3] == Empty ==> GuestLayout(row) == (IntC(1), row[4])
    ensures |row| == 4 ==> GuestLayout(row) == (IntC(1), row[3])
  {
  }

  /** How a table reference cell resolves. */
  lemma ResolveRefCases(c: Cell, clear: bool, tableMap: map<int, int>)
    ensures c == Empty || Strip(CellStr(c)) == "" ==> ResolveRef(c, clear, tableMap) == None
    ensures c != Empty && Strip(CellStr(c)) != "" && IntOfFloat(c).None? ==> ResolveRef(c, clear, tableMap) == None
    ensures (c.IntC? || c.DecC?) && IntOfFloat(c).value in tableMap && !clear ==>
      ResolveRef(c, clear, tableMap) == Some(tableMap[IntOfFloat(c).value])
    ensures (c.IntC? || c.DecC?) && (clear || IntOfFloat(c).value !in tableMap) ==>
      ResolveRef(c, clear, tableMap) == IntOfFloat(c)
  {
    if c.IntC? || c.DecC? {
      NumberTextNotBlank(c);
    }
  }

  /** A number cell's text has no surrounding whitespace and is not empty. */
  lemma NumberTextNotBlank(c: Cell)
    requires c.IntC? || c.DecC?
    ensures |CellStr(c)| > 0 && Strip(CellStr(c)) == CellStr(c)
  {
    var w := if c.IntC? then c.i else c.whole;
    IntToStringShape(w);
    if c.IntC? {
      StripUnpadded(IntToString(w));
    } else {
      var t := IntToString(w) + ".0";
      assert t[0] == IntToString(w)[0] && t[|t| - 1] == '0';
      StripUnpadded(t);
    }
  }

  /** A stored guest keeps the table it refers to even when there is no such
      table, and is listed by that table only when the table exists; its
      table's capacity plays no part. */
  lemma GuestRowLinks(clear: bool, ld: Loading, row: Row)
    requires ld.failure.None? && |row| >= 4 && row[0] != Empty && IntOfFloat(row[0]).Some?
    requires IntOf(GuestLayout(row).0).Some?
    ensures var r := GuestRowStep(clear, ld, row);
      var s := ld.plan;
      var stored := IntOfFloat(row[0]).value;
      var id := if !clear && stored in s.guests then s.nextGuestId else stored;
      var ref := ResolveRef(GuestLayout(row).1, clear, ld.tableMap);
      && r.failure.None?
      && id in r.plan.guests
      && r.plan.guests[id].tableId == ref
      && r.plan.guests[id].size == IntOf(GuestLayout(row).0).value
      && r.plan.tables.Keys == s.tables.Keys
      && (ref.Some? && ref.value in s.tables ==>
            r.plan.tables[ref.value].guestIds == s.tables[ref.value].guestIds + [id])
      && (forall t :: t in s.tables && Some(t) != ref ==> r.plan.tables[t] == s.tables[t])
  {
  }

  /** A Guests row with every field a plain number or text, as a load
      reads it. */
  function LoadedGuestRow(g: Guest): Row
  {
    [IntC(g.id), StrC(g.name), StrC(g.category), IntC(g.size),
     match g.tableId case None => StrC("") case Some(t) => IntC(t)]
  }

  /** The table reference of a loaded row. */
  lemma ResolveLoadedRef(g: Guest, tableMap: map<int, int>)
    ensures ResolveRef(LoadedGuestRow(g)[4], true, tableMap) == g.tableId
  {
    if g.tableId.Some? {
      var t := g.tableId.value;
      IntToStringShape(t);
      StripUnpadded(IntToString(t));
    }
  }

  /** A loaded Guests row stores its guest as it is. */
  lemma LoadedRowStores(ld: Loading, g: Guest)
    requires ld.failure.None?
    ensures GuestRowStep(true, ld, LoadedGuestRow(g)) == Loading(StoreGuest(ld.plan, g), ld.tableMap, None)
  {
    var row := LoadedGuestRow(g);
    assert |row| == 5 && row[0] == IntC(g.id) && row[3] == IntC(g.size);
    assert GuestLayout(row) == (IntC(g.size), row[4]);
    assert IntOfFloat(row[0]) == Some(g.id);
    assert CellStr(row[1]) == g.name && CellStr(row[2]) == g.category;
    ResolveLoadedRef(g, ld.tableMap);
  }

  /** `int(size)` raising ends the load, after a colliding id has already
      taken the guest counter. */
  lemma GuestRowBadSize(clear: bool, ld: Loading, row: Row)
    requires ld.failure.None? && |row| >= 4 && row[0] != Empty && IntOfFloat(row[0]).Some?
    requires IntOf(GuestLayout(row).0).None?
    ensures var r := GuestRowStep(clear, ld, row);
      var stored := IntOfFloat(row[0]).value;
      && r.failure == Some(BadGuestSize)
      && r.plan.guests == ld.plan.guests
      && r.plan.nextGuestId == (if !clear && stored in ld.plan.guests then ld.plan.nextGuestId + 1 else ld.plan.nextGuestId)
  {
  }

  /** Loading never checks capacity: two single guests load onto a table
      with one seat. */
  lemma LoadIgnoresCapacity()
    ensures var wb := Workbook(
        Some([[], [IntC(1), StrC("T"), IntC(1), IntC(0), IntC(0)]]),
        Some([[], [IntC(1), StrC("A"), StrC("General"), IntC(1), IntC(1)],
                  [IntC(2), StrC("B"), StrC("General"), IntC(1), IntC(1)]]),
        None);
      var r := Load(EmptyPlan(), wb, true);
      && r.failure.None?
      && 1 in r.plan.tables && r.plan.tables[1].guestIds == [1, 2]
      && MembersKnown(r.plan.guests, [1, 2])
      && Occupancy(r.plan.guests, [1, 2]) == 2 > r.plan.tables[1].capacity
  {
    var trow := [IntC(1), StrC("T"), IntC(1), IntC(0), IntC(0)];
    var g1 := [IntC(1), StrC("A"), StrC("General"), IntC(1), IntC(1)];
    var g2 := [IntC(2), StrC("B"), StrC("General"), IntC(1), IntC(1)];
    var wb := Workbook(Some([[], trow]), Some([[], g1, g2]), None);
    assert DataRows([[], trow]) == [trow];
    assert DataRows([[], g1, g2]) == [g1, g2];
    assert LoadStart(EmptyPlan(), true) == EmptyPlan();
    OneTableLoaded();
    TwoGuestsLoaded();
    var p3 := TwoGuestsPlan();
    assert LoadRows(EmptyPlan(), wb, true) == Loading(p3, map[1 := 1], None);
    assert Recount(p3).tables == p3.tables && Recount(p3).guests == p3.guests;
  }

  /** The plan `LoadIgnoresCapacity` reaches after the Tables sheet. */
  function OneTablePlan(): PlanState
  {
    EmptyPlan().(tables := map[1 := Table(1, "T", 1, [], 0, 0)], tableOrder := [1])
  }

  /** The plan `LoadIgnoresCapacity` reaches after the Guests sheet. */
  function TwoGuestsPlan(): PlanState
  {
    OneTablePlan().(guests := map[1 := Guest(1, "A", "General", Some(1), 1), 2 := Guest(2, "B", "General", Some(1), 1)],
                    guestOrder := [1, 2], tables := map[1 := Table(1, "T", 1, [1, 2], 0, 0)])
  }

  lemma OneTableLoaded()
    ensures LoadTables(true, Loading(EmptyPlan(), map[], None), [[IntC(1), StrC("T"), IntC(1), IntC(0), IntC(0)]])
         == Loading(OneTablePlan(), map[1 := 1], None)
  {
    var trow := [IntC(1), StrC("T"), IntC(1), IntC(0), IntC(0)];
    assert [trow][..0] == [];
    assert TableRowStep(true, Loading(EmptyPlan(), map[], None), trow) == Loading(OneTablePlan(), map[1 := 1], None);
  }

  lemma TwoGuestsLoaded()
    ensures LoadGuests(true, Loading(OneTablePlan(), map[1 := 1], None),
                       [[IntC(1), StrC("A"), StrC("General"), IntC(1), IntC(1)],
                        [IntC(2), StrC("B"), StrC("General"), IntC(1), IntC(1)]])
         == Loading(TwoGuestsPlan(), map[1 := 1], None)
  {
    var m := map[1 := 1];
    var g1 := [IntC(1), StrC("A"), StrC("General"), IntC(1), IntC(1)];
    var g2 := [IntC(2), StrC("B"), StrC("General"), IntC(1), IntC(1)];
    var p1 := OneTablePlan();
    var a := Guest(1, "A", "General", Some(1), 1);
    var b := Guest(2, "B", "General", Some(1), 1);
    var p2 := p1.(guests := map[1 := a], guestOrder := [1], tables := map[1 := p1.tables[1].(guestIds := [1])]);
    FirstGuestLoaded(p1, m, g1, a, p2);
    SecondGuestLoaded(p2, m, g2, b);
    var rows := [g1, g2];
    assert rows[..1] == [g1] && rows[..1][..0] == [];
  }

  lemma FirstGuestLoaded(p1: PlanState, m: map<int, int>, g1: Row, a: Guest, p2: PlanState)
    requires p1 == OneTablePlan() && m == map[1 := 1]
    requires g1 == [IntC(1), StrC("A"), StrC("General"), IntC(1), IntC(1)]
    requires a == Guest(1, "A", "General", Some(1), 1)
    requires p2 == p1.(guests := map[1 := a], guestOrder := [1], tables := map[1 := p1.tables[1].(guestIds := [1])])
    ensures GuestRowStep(true, Loading(p1, m, None), g1) == Loading(p2, m, None)
  {
    assert LoadedGuestRow(a) == g1;
    LoadedRowStores(Loading(p1, m, None), a);
    FirstGuestStored(p1, a, p2);
  }

  lemma FirstGuestStored(p1: PlanState, a: Guest, p2: PlanState)
    requires p1 == OneTablePlan() && a == Guest(1, "A", "General", Some(1), 1)
    requires p2 == p1.(guests := map[1 := a], guestOrder := [1], tables := map[1 := p1.tables[1].(guestIds := [1])])
    ensures StoreGuest(p1, a) == p2
  {
    assert p1.guestOrder == [] && Put(p1.guestOrder, 1) == [1];
    assert p1.tables[1].guestIds + [1] == [1];
  }

  lemma SecondGuestLoaded(p2: PlanState, m: map<int, int>, g2: Row, b: Guest)
    requires p2 == OneTablePlan().(guests := map[1 := Guest(1, "A", "General", Some(1), 1)], guestOrder := [1],
                                   tables := map[1 := Table(1, "T", 1, [1], 0, 0)])
    requires m == map[1 := 1]
    requires g2 == [IntC(2), StrC("B"), StrC("General"), IntC(1), IntC(1)]
    requires b == Guest(2, "B", "General", Some(1), 1)
    ensures GuestRowStep(true, Loading(p2, m, None), g2) == Loading(TwoGuestsPlan(), m, None)
  {
    assert LoadedGuestRow(b) == g2;
    LoadedRowStores(Loading(p2, m, None), b);
    SecondGuestStored(p2, b);
  }

  lemma SecondGuestStored(p2: PlanState, b: Guest)
    requires p2 == OneTablePlan().(guests := map[1 := Guest(1, "A", "General", Some(1), 1)], guestOrder := [1],
                                   tables := map[1 := Table(1, "T", 1, [1], 0, 0)])
    requires b == Guest(2, "B", "General", Some(1), 1)
    ensures StoreGuest(p2, b) == TwoGuestsPlan()
  {
    assert 2 !in p2.guestOrder && Put(p2.guestOrder, 2) == [1, 2];
    assert [1] + [2] == [1, 2];
  }

  /** Loading keeps every entity stored under its own id and every order
      listing its dictionary's keys. */
  lemma {:induction false} LoadTablesKeeps(clear: bool, ld: Loading, rows: seq<Row>)
    requires ld.plan.Ordered() && ld.plan.KeysMatch()
    ensures LoadTables(clear, ld, rows).plan.Ordered() && LoadTables(clear, ld, rows).plan.KeysMatch()
  {
    if |rows| > 0 {
      LoadTablesKeeps(clear, ld, rows[..|rows| - 1]);
      var l := LoadTables(clear, ld, rows[..|rows| - 1]);
      var row := rows[|rows| - 1];
      if l.failure.None? && |row| >= 5 && row[0] != Empty && IntOfFloat(row[0]).Some? {
        var stored := IntOfFloat(row[0]).value;
        var id := if !clear && stored in l.plan.tables then l.plan.nextTableId else stored;
        var (c, x, y) := SecondaryFields(row[2], row[3], row[4]);
        PutEnumerates(l.plan.tableOrder, l.plan.tables, id, Table(id, CellStr(row[1]), c, [], x, y));
      }
    }
  }

  /** Storing a guest keeps every entity under its own id and the orders
      listing the keys. */
  lemma StoreGuestKeeps(s: PlanState, guest: Guest)
    requires s.Ordered() && s.KeysMatch()
    ensures StoreGuest(s, guest).Ordered() && StoreGuest(s, guest).KeysMatch()
  {
    PutEnumerates(s.guestOrder, s.guests, guest.id, guest);
  }

  lemma GuestRowKeeps(clear: bool, l: Loading, row: Row)
    requires l.plan.Ordered() && l.plan.KeysMatch()
    ensures GuestRowStep(clear, l, row).plan.Ordered() && GuestRowStep(clear, l, row).plan.KeysMatch()
  {
    if l.failure.None? && |row| >= 4 && row[0] != Empty && IntOfFloat(row[0]).Some? && IntOf(GuestLayout(row).0).Some? {
      var stored := IntOfFloat(row[0]).value;
      var collides := !clear && stored in l.plan.guests;
      var id := if collides then l.plan.nextGuestId else stored;
      var s1 := l.plan.(nextGuestId := if collides then l.plan.nextGuestId + 1 else l.plan.nextGuestId);
      var g := Guest(id, CellStr(row[1]), CellStr(row[2]), ResolveRef(GuestLayout(row).1, clear, l.tableMap), IntOf(GuestLayout(row).0).value);
      StoreGuestKeeps(s1, g);
    }
  }

  lemma {:induction false} LoadGuestsKeeps(clear: bool, ld: Loading, rows: seq<Row>)
    requires ld.plan.Ordered() && ld.plan.KeysMatch()
    ensures LoadGuests(clear, ld, rows).plan.Ordered() && LoadGuests(clear, ld, rows).plan.KeysMatch()
  {
    if |rows| > 0 {
      LoadGuestsKeeps(clear, ld, rows[..|rows| - 1]);
      GuestRowKeeps(clear, LoadGuests(clear, ld, rows[..|rows| - 1]), rows[|rows| - 1]);
    }
  }

  /** The final recount sets each counter to `max(counter, 1 + max key)`:
      above every key, not below its old value, and equal to the old value
      or to one past a key of the plan. */
  lemma RecountAbove(s: PlanState)
    requires s.Ordered()
    ensures Recount(s).CountersAbove()
    ensures Recount(s).guests == s.guests && Recount(s).tables == s.tables
    ensures Recount(s).nextGuestId >= s.nextGuestId && Recount(s).nextTableId >= s.nextTableId
    ensures Recount(s).nextGuestId == s.nextGuestId || Recount(s).nextGuestId - 1 in s.guests
    ensures Recount(s).nextTableId == s.nextTableId || Recount(s).nextTableId - 1 in s.tables
  {
  }

  /** The counters row when there is one with two cells: a replacing load
      takes both stored numbers as they are and stops on one that is not a
      number; a merging load raises each counter to `int()` of its stored
      value, and the first value `int()` refuses ends the update silently.
      A missing or empty row changes nothing and a one-cell row raises. */
  lemma MetadataCounters(clear: bool, s: PlanState, rows: seq<Row>)
    ensures |rows| == 0 || |rows[0]| == 0 ==> MetadataStep(clear, s, rows) == (s, None)
    ensures |rows| > 0 && |rows[0]| == 1 ==> MetadataStep(clear, s, rows) == (s, Some(ShortMetadataRow))
    ensures |rows| > 0 && |rows[0]| >= 2 && clear ==>
      var (r, failure) := MetadataStep(clear, s, rows);
      var (g, t) := (CounterCell(rows[0][0]), CounterCell(rows[0][1]));
      && (g.Some? && t.Some? ==> failure.None? && r == s.(nextGuestId := g.value, nextTableId := t.value))
      && (g.None? || t.None? ==> failure == Some(MetadataNotNumber) && r == s)
    ensures |rows| > 0 && |rows[0]| >= 2 && !clear ==>
      var (r, failure) := MetadataStep(clear, s, rows);
      var (g, t) := (IntOf(rows[0][0]), IntOf(rows[0][1]));
      && failure.None?
      && r == s.(nextGuestId := if g.Some? then Max(s.nextGuestId, g.value) else s.nextGuestId,
                 nextTableId := if g.Some? && t.Some? then Max(s.nextTableId, t.value) else s.nextTableId)
  {
  }

  /** After a load that ends without an exception both counters are above
      every key, and the orders still list the keys; no other invariant of
      the plan is restored. */
  lemma LoadCountersAbove(s: PlanState, wb: Workbook, clear: bool)
    requires s.Ordered() && s.KeysMatch()
    ensures Load(s, wb, clear).plan.Ordered() && Load(s, wb, clear).plan.KeysMatch()
    ensures Load(s, wb, clear).failure.None? ==> Load(s, wb, clear).plan.CountersAbove()
  {
    LoadRowsKeeps(s, wb, clear);
    var l := LoadRows(s, wb, clear);
    if l.failure.None? {
      CountersPhaseAbove(l.plan, wb, clear);
    }
  }

  /** The two row phases keep the orders and the keys in step. */
  lemma LoadRowsKeeps(s: PlanState, wb: Workbook, clear: bool)
    requires s.Ordered() && s.KeysMatch()
    ensures LoadRows(s, wb, clear).plan.Ordered() && LoadRows(s, wb, clear).plan.KeysMatch()
  {
    var l0 := Loading(LoadStart(s, clear), map[], None);
    var l1 := if wb.tables.Some? then LoadTables(clear, l0, DataRows(wb.tables.value)) else l0;
    if wb.tables.Some? {
      LoadTablesKeeps(clear, l0, DataRows(wb.tables.value));
    }
    if wb.guests.Some? {
      LoadGuestsKeeps(clear, l1, DataRows(wb.guests.value));
    }
  }

  /** The Metadata sheet and the recount touch only the counters, and a
      recount that is reached leaves both above every key. */
  lemma CountersPhaseAbove(p: PlanState, wb: Workbook, clear: bool)
    requires p.Ordered() && p.KeysMatch()
    ensures LoadCounters(p, wb, clear).0.Ordered() && LoadCounters(p, wb, clear).0.KeysMatch()
    ensures LoadCounters(p, wb, clear).1.None? ==> LoadCounters(p, wb, clear).0.CountersAbove()
  {
    var m := if wb.metadata.Some? then MetadataStep(clear, p, DataRows(wb.metadata.value)) else (p, None);
    if m.1.None? {
      RecountAbove(m.0);
    }
  }

  // =======================================================================
  // The loader as it runs

  /** `load_from_xlsx(wb, plan, clear)`: updates `plan` sheet by sheet. */
  method LoadFromXlsx(wb: Workbook, plan: SeatingPlan, clear: bool) returns (failure: Option<LoadError>)
    modifies plan
    ensures plan.State() == Load(old(plan.State()), wb, clear).plan
    ensures failure == Load(old(plan.State()), wb, clear).failure
  {
    var tableMapping;
    tableMapping, failure := LoadSheetRows(wb, plan, clear);
    if failure.Some? {
      return;
    }
    failure := LoadCountersInto(wb, plan, clear);
  }

  /** The Tables and Guests sheets of `load_from_xlsx`. */
  method LoadSheetRows(wb: Workbook, plan: SeatingPlan, clear: bool)
      returns (tableMapping: map<int, int>, failure: Option<LoadError>)
    modifies plan
    ensures Loading(plan.State(), tableMapping, failure) == LoadRows(old(plan.State()), wb, clear)
  {
    ghost var s := plan.State();
    if clear {
      plan.guests, plan.tables := map[], map[];
      plan.guestOrder, plan.tableOrder := [], [];
    }
    ghost var l0 := Loading(plan.State(), map[], None);
    assert l0.plan == LoadStart(s, clear);
    tableMapping := map[];
    failure := None;
    if wb.tables.Some? {
      tableMapping, failure := LoadTableRows(DataRows(wb.tables.value), plan, clear);
    }
    ghost var l1 := Loading(plan.State(), tableMapping, failure);
    assert l1 == if wb.tables.Some? then LoadTables(clear, l0, DataRows(wb.tables.value)) else l0;
    if failure.Some? {
      if wb.guests.Some? {
        LoadGuestsSticky(clear, l1, DataRows(wb.guests.value));
      }
      return;
    }
    if wb.guests.Some? {
      failure := LoadGuestRows(DataRows(wb.guests.value), plan, clear, tableMapping);
    }
  }

  /** The Metadata sheet and the recount of `load_from_xlsx`. */
  method LoadCountersInto(wb: Workbook, plan: SeatingPlan, clear: bool) returns (failure: Option<LoadError>)
    modifies plan
    ensures (plan.State(), failure) == LoadCounters(old(plan.State()), wb, clear)
  {
    failure := None;
    if wb.metadata.Some? {
      failure := LoadMetadata(DataRows(wb.metadata.value), plan, clear);
      if failure.Some? {
        return;
      }
    }
    ghost var s3 := plan.State();
    var nextGuest, nextTable := plan.nextGuestId, plan.nextTableId;
    if |plan.guestOrder| > 0 {
      nextGuest := Max(nextGuest, MaxOf(plan.guestOrder) + 1);
    }
    if |plan.tableOrder| > 0 {
      nextTable := Max(nextTable, MaxOf(plan.tableOrder) + 1);
    }
    assert Recount(s3) == s3.(nextGuestId := nextGuest, nextTableId := nextTable);
    plan.nextGuestId, plan.nextTableId := nextGuest, nextTable;
  }

  /** The loop over the Tables sheet's data rows. */
  method LoadTableRows(rows: seq<Row>, plan: SeatingPlan, clear: bool)
      returns (tableMapping: map<int, int>, failure: Option<LoadError>)
    modifies plan
    ensures Loading(plan.State(), tableMapping, failure) == LoadTables(clear, Loading(old(plan.State()), map[], None), rows)
  {
    ghost var l0 := Loading(plan.State(), map[], None);
    tableMapping, failure := map[], None;
    var i := 0;
    while i < |rows| && failure.None?
      invariant 0 <= i <= |rows|
      invariant LoadTables(clear, l0, rows[..i]) == Loading(plan.State(), tableMapping, failure)
    {
      TablesSnoc(clear, l0, rows, i);
      tableMapping, failure := LoadTableRow(rows[i], plan, clear, tableMapping);
      i := i + 1;
    }
    if failure.Some? {
      TablesRest(clear, l0, rows, i);
    } else {
      assert rows[..i] == rows;
    }
  }

  /** The body of that loop, for one row. */
  method LoadTableRow(row: Row, plan: SeatingPlan, clear: bool, tableMapping: map<int, int>)
      returns (newMapping: map<int, int>, failure: Option<LoadError>)
    modifies plan
    ensures Loading(plan.State(), newMapping, failure) == TableRowStep(clear, Loading(old(plan.State()), tableMapping, None), row)
  {
    newMapping, failure := tableMapping, None;
    if |row| == 0 || (row[0] != Empty && |row| < 5) {
      failure := Some(ShortTableRow);
      return;
    }
    if row[0] == Empty {
      return;
    }
    var parsed := IntOfFloat(row[0]);
    if parsed.None? {
      return;
    }
    newMapping := LoadParsedTableRow(row, parsed.value, plan, clear, tableMapping);
  }

  /** One Tables row whose id cell reads as `stored`, in the terms of the
      loop body. */
  lemma ParsedTableRowStep(clear: bool, ld: Loading, row: Row, stored: int)
    requires ld.failure.None? && |row| >= 5 && row[0] != Empty && IntOfFloat(row[0]) == Some(stored)
    ensures var s := ld.plan;
      var (capacity, x, y) := SecondaryFields(row[2], row[3], row[4]);
      var collides := !clear && stored in s.tables;
      var id := if collides then s.nextTableId else stored;
      TableRowStep(clear, ld, row) ==
        Loading(s.(tables := s.tables[id := Table(id, CellStr(row[1]), capacity, [], x, y)],
                   tableOrder := Put(s.tableOrder, id),
                   nextTableId := if collides then s.nextTableId + 1 else s.nextTableId),
                ld.tableMap[stored := id], None)
  {
  }

  method LoadParsedTableRow(row: Row, stored: int, plan: SeatingPlan, clear: bool, tableMapping: map<int, int>)
      returns (newMapping: map<int, int>)
    requires |row| >= 5 && row[0] != Empty && IntOfFloat(row[0]) == Some(stored)
    modifies plan
    ensures Loading(plan.State(), newMapping, None) == TableRowStep(clear, Loading(old(plan.State()), tableMapping, None), row)
  {
    ParsedTableRowStep(clear, Loading(plan.State(), tableMapping, None), row, stored);
    var (capacity, x, y) := SecondaryFields(row[2], row[3], row[4]);
    var collides := !clear && stored in plan.tables;
    var id := if collides then plan.nextTableId else stored;
    if collides {
      plan.nextTableId := plan.nextTableId + 1;
    }
    newMapping := tableMapping[stored := id];
    plan.tableOrder := Put(plan.tableOrder, id);
    plan.tables := plan.tables[id := Table(id, CellStr(row[1]), capacity, [], x, y)];
  }

  /** The loop over the Guests sheet's data rows. */
  method LoadGuestRows(rows: seq<Row>, plan: SeatingPlan, clear: bool, tableMapping: map<int, int>)
      returns (failure: Option<LoadError>)
    modifies plan
    ensures Loading(plan.State(), tableMapping, failure) == LoadGuests(clear, Loading(old(plan.State()), tableMapping, None), rows)
  {
    ghost var l1 := Loading(plan.State(), tableMapping, None);
    failure := None;
    var i := 0;
    while i < |rows| && failure.None?
      invariant 0 <= i <= |rows|
      invariant LoadGuests(clear, l1, rows[..i]) == Loading(plan.State(), tableMapping, failure)
    {
      GuestsSnoc(clear, l1, rows, i);
      failure := LoadGuestRow(rows[i], plan, clear, tableMapping);
      i := i + 1;
    }
    if failure.Some? {
      GuestsRest(clear, l1, rows, i);
    } else {
      assert rows[..i] == rows;
    }
  }

  /** The body of that loop, for one row. */
  method LoadGuestRow(row: Row, plan: SeatingPlan, clear: bool, tableMapping: map<int, int>)
      returns (failure: Option<LoadError>)
    modifies plan
    ensures Loading(plan.State(), tableMapping, failure) == GuestRowStep(clear, Loading(old(plan.State()), tableMapping, None), row)
  {
    failure := None;
    if |row| == 0 || (row[0] != Empty && |row| < 4) {
      return Some(ShortGuestRow);
    }
    if row[0] == Empty {
      return;
    }
    var parsed := IntOfFloat(row[0]);
    if parsed.None? {
      return;
    }
    failure := LoadParsedGuestRow(row, parsed.value, plan, clear, tableMapping);
  }

  method LoadParsedGuestRow(row: Row, stored: int, plan: SeatingPlan, clear: bool, tableMapping: map<int, int>)
      returns (failure: Option<LoadError>)
    requires |row| >= 4
    modifies plan
    ensures Loading(plan.State(), tableMapping, failure) == ParsedGuestRow(clear, old(plan.State()), tableMapping, row, stored)
  {
    var (sizeCell, refCell) := GuestLayout(row);
    var tableRef := ResolveRef(refCell, clear, tableMapping);
    var collides := !clear && stored in plan.guests;
    var id := if collides then plan.nextGuestId else stored;
    var size := IntOf(sizeCell);
    if collides {
      plan.nextGuestId := plan.nextGuestId + 1;
    }
    if size.None? {
      return Some(BadGuestSize);
    }
    StoreGuestInto(plan, Guest(id, CellStr(row[1]), CellStr(row[2]), tableRef, size.value));
    failure := None;
  }

  /** Stores a loaded guest and appends it to its table's list. */
  method StoreGuestInto(plan: SeatingPlan, guest: Guest)
    modifies plan
    ensures plan.State() == StoreGuest(old(plan.State()), guest)
  {
    ghost var s1 := plan.State();
    plan.guestOrder := Put(plan.guestOrder, guest.id);
    plan.guests := plan.guests[guest.id := guest];
    assert plan.State() == s1.(guests := s1.guests[guest.id := guest], guestOrder := Put(s1.guestOrder, guest.id));
    if guest.tableId.Some? && guest.tableId.value in plan.tables {
      var t := guest.tableId.value;
      plan.tables := plan.tables[t := plan.tables[t].(guestIds := plan.tables[t].guestIds + [guest.id])];
    }
  }

  /** The counters row of the Metadata sheet. */
  method LoadMetadata(rows: seq<Row>, plan: SeatingPlan, clear: bool) returns (failure: Option<LoadError>)
    modifies plan
    ensures (plan.State(), failure) == MetadataStep(clear, old(plan.State()), rows)
  {
    failure := None;
    if |rows| > 0 && |rows[0]| > 0 {
      var row := rows[0];
      if |row| < 2 {
        return Some(ShortMetadataRow);
      }
      if clear {
        var g, t := CounterCell(row[0]), CounterCell(row[1]);
        if g.None? || t.None? {
          return Some(MetadataNotNumber);
        }
        plan.nextGuestId, plan.nextTableId := g.value, t.value;
      } else {
        var g := IntOf(row[0]);
        if g.Some? {
          plan.nextGuestId := Max(plan.nextGuestId, g.value);
          var t := IntOf(row[1]);
          if t.Some? {
            plan.nextTableId := Max(plan.nextTableId, t.value);
          }
        }
      }
    }
  }

  /** A failure after row `i` of the Tables sheet carries through the rest
      of the load. */
  lemma TablesSnoc(clear: bool, l0: Loading, rows: seq<Row>, i: nat)
    requires i < |rows|
    ensures LoadTables(clear, l0, rows[..i + 1]) == TableRowStep(clear, LoadTables(clear, l0, rows[..i]), rows[i])
  {
    assert rows[..i + 1][..i] == rows[..i];
  }

  lemma GuestsSnoc(clear: bool, l0: Loading, rows: seq<Row>, i: nat)
    requires i < |rows|
    ensures LoadGuests(clear, l0, rows[..i + 1]) == GuestRowStep(clear, LoadGuests(clear, l0, rows[..i]), rows[i])
  {
    assert rows[..i + 1][..i] == rows[..i];
  }

  lemma TablesRest(clear: bool, l0: Loading, rows: seq<Row>, i: nat)
    requires i <= |rows| && LoadTables(clear, l0, rows[..i]).failure.Some?
    ensures LoadTables(clear, l0, rows) == LoadTables(clear, l0, rows[..i])
  {
    LoadTablesSplit(clear, l0, rows[..i], rows[i..]);
    assert rows[..i] + rows[i..] == rows;
    LoadTablesSticky(clear, LoadTables(clear, l0, rows[..i]), rows[i..]);
  }

  lemma GuestsRest(clear: bool, l0: Loading, rows: seq<Row>, i: nat)
    requires i <= |rows| && LoadGuests(clear, l0, rows[..i]).failure.Some?
    ensures LoadGuests(clear, l0, rows) == LoadGuests(clear, l0, rows[..i])
  {
    LoadGuestsSplit(clear, l0, rows[..i], rows[i..]);
    assert rows[..i] + rows[i..] == rows;
    LoadGuestsSticky(clear, LoadGuests(clear, l0, rows[..i]), rows[i..]);
  }

  /** Loading two runs of rows is loading the first, then the second. */
  lemma {:induction false} LoadTablesSplit(clear: bool, ld: Loading, a: seq<Row>, b: seq<Row>)
    ensures LoadTables(clear, ld, a + b) == LoadTables(clear, LoadTables(clear, ld, a), b)
  {
    if |b| == 0 {
      assert a + b == a;
    } else {
      assert (a + b)[..|a + b| - 1] == a + b[..|b| - 1];
      assert (a + b)[|a + b| - 1] == b[|b| - 1];
      LoadTablesSplit(clear, ld, a, b[..|b| - 1]);
    }
  }

  lemma {:induction false} LoadGuestsSplit(clear: bool, ld: Loading, a: seq<Row>, b: seq<Row>)
    ensures LoadGuests(clear, ld, a + b) == LoadGuests(clear, LoadGuests(clear, ld, a), b)
  {
    if |b| == 0 {
      assert a + b == a;
    } else {
      assert (a + b)[..|a + b| - 1] == a + b[..|b| - 1];
      assert (a + b)[|a + b| - 1] == b[|b| - 1];
      LoadGuestsSplit(clear, ld, a, b[..|b| - 1]);
    }
  }

  // =======================================================================
  // Saving

  const GuestsHeader: Row := [StrC("ID"), StrC("Name"), StrC("Category"), StrC("Capacity"), StrC("Table ID")]
  const TablesHeader: Row := [StrC("ID"), StrC("Name"), StrC("Capacity"), StrC("X"), StrC("Y")]
  const MetadataHeader: Row := [StrC("Next Guest ID"), StrC("Next Table ID")]

  /** `tables.values()`, in dictionary order. */
  function TablesInOrder(s: PlanState): (ts: seq<Table>)
    requires s.Ordered()
    ensures |ts| == |s.tableOrder|
  {
    seq(|s.tableOrder|, i requires 0 <= i < |s.tableOrder| =>
      var k := s.tableOrder[i]; assert k in s.tableOrder; s.tables[k])
  }

  /** `guests.values()`, in dictionary order. */
  function GuestsInOrder(s: PlanState): (gs: seq<Guest>)
    requires s.Ordered()
    ensures |gs| == |s.guestOrder|
  {
    seq(|s.guestOrder|, i requires 0 <= i < |s.guestOrder| =>
      var k := s.guestOrder[i]; assert k in s.guestOrder; s.guests[k])
  }

  function TableRow(t: Table): Row
  {
    [IntC(t.id), StrC(t.name), IntC(t.capacity), IntC(t.x), IntC(t.y)]
  }

  function TableRows(ts: seq<Table>): (rows: seq<Row>)
    ensures |rows| == |ts|
  {
    seq(|ts|, i requires 0 <= i < |ts| => TableRow(ts[i]))
  }

  /** `table_row_map`: each table's id to the worksheet row (counted from 1,
      after the header) where it was written; a later table with the same
      id wins. */
  function RowMap(ts: seq<Table>): map<int, int>
  {
    if |ts| == 0 then map[] else RowMap(ts[..|ts| - 1])[ts[|ts| - 1].id := |ts| + 1]
  }

  /** The formula text that refers to column A of a Tables row. */
  function FormulaTo(row: int): string
  {
    "=Tables!A" + IntToString(row)
  }

  /** The Table ID cell of a guest row: a formula when the guest's table was
      written, the bare id when it was not, and "" for no table; the id 0
      is written as "" as well, being false. */
  function TableRefCell(tableId: Option<int>, rowMap: map<int, int>): Cell
  {
    match tableId
    case None => StrC("")
    case Some(t) =>
      if t != 0 && t in rowMap then StrC(FormulaTo(rowMap[t]))
      else if t != 0 then IntC(t)
      else StrC("")
  }

  function GuestRow(g: Guest, rowMap: map<int, int>): Row
  {
    [IntC(g.id), StrC(g.name), StrC(g.category), IntC(g.size), TableRefCell(g.tableId, rowMap)]
  }

  function GuestRows(gs: seq<Guest>, rowMap: map<int, int>): (rows: seq<Row>)
    ensures |rows| == |gs|
  {
    seq(|gs|, i requires 0 <= i < |gs| => GuestRow(gs[i], rowMap))
  }

  /** `save_to_xlsx` as a function of the plan. */
  function SaveSpec(s: PlanState): Workbook
    requires s.Ordered()
  {
    var ts := TablesInOrder(s);
    Workbook(Some([TablesHeader] + TableRows(ts)),
             Some([GuestsHeader] + GuestRows(GuestsInOrder(s), RowMap(ts))),
             Some([MetadataHeader, [IntC(s.nextGuestId), IntC(s.nextTableId)]]))
  }

  /** `save_to_xlsx(plan)`: builds the three sheets row by row. */
  method SaveToXlsx(plan: SeatingPlan) returns (wb: Workbook)
    requires plan.Ordered()
    ensures wb == SaveSpec(plan.State())
  {
    ghost var ts := TablesInOrder(plan.State());
    var tablesSheet: Sheet := [TablesHeader];
    var rowMap: map<int, int> := map[];
    var i := 0;
    while i < |plan.tableOrder|
      invariant 0 <= i <= |plan.tableOrder|
      invariant tablesSheet == [TablesHeader] + TableRows(ts[..i])
      invariant rowMap == RowMap(ts[..i])
    {
      EnumeratesAt(plan.tableOrder, plan.tables, i);
      var table := plan.tables[plan.tableOrder[i]];
      assert ts[i] == table;
      TableRowsSnoc(ts, i);
      tablesSheet := tablesSheet + [TableRow(table)];
      rowMap := rowMap[table.id := i + 2];
      i := i + 1;
    }
    assert ts[..i] == ts;
    ghost var gs := GuestsInOrder(plan.State());
    var guestsSheet: Sheet := [GuestsHeader];
    var j := 0;
    while j < |plan.guestOrder|
      invariant 0 <= j <= |plan.guestOrder|
      invariant guestsSheet == [GuestsHeader] + GuestRows(gs[..j], rowMap)
    {
      EnumeratesAt(plan.guestOrder, plan.guests, j);
      var guest := plan.guests[plan.guestOrder[j]];
      assert gs[j] == guest;
      var tableVal: Cell;
      if guest.tableId.Some? && guest.tableId.value != 0 && guest.tableId.value in rowMap {
        tableVal := StrC(FormulaTo(rowMap[guest.tableId.value]));
      } else if guest.tableId.Some? && guest.tableId.value != 0 {
        tableVal := IntC(guest.tableId.value);
      } else {
        tableVal := StrC("");
      }
      assert tableVal == TableRefCell(guest.tableId, rowMap);
      GuestRowsSnoc(gs, rowMap, j);
      guestsSheet := guestsSheet + [[IntC(guest.id), StrC(guest.name), StrC(guest.category), IntC(guest.size), tableVal]];
      j := j + 1;
    }
    assert gs[..j] == gs;
    var metadataSheet: Sheet := [MetadataHeader, [IntC(plan.nextGuestId), IntC(plan.nextTableId)]];
    wb := Workbook(Some(tablesSheet), Some(guestsSheet), Some(metadataSheet));
  }

  lemma TableRowsSnoc(ts: seq<Table>, i: nat)
    requires i < |ts|
    ensures TableRows(ts[..i + 1]) == TableRows(ts[..i]) + [TableRow(ts[i])]
    ensures RowMap(ts[..i + 1]) == RowMap(ts[..i])[ts[i].id := i + 2]
  {
    assert ts[..i + 1][..i] == ts[..i];
  }

  lemma GuestRowsSnoc(gs: seq<Guest>, rowMap: map<int, int>, j: nat)
    requires j < |gs|
    ensures GuestRows(gs[..j + 1], rowMap) == GuestRows(gs[..j], rowMap) + [GuestRow(gs[j], rowMap)]
  {
  }

  // -----------------------------------------------------------------------
  // Properties of saving

  /** Where no two tables share an id, `table_row_map` holds exactly the
      written ids, each with the row the table was written on. */
  lemma {:induction false} RowMapIndex(ts: seq<Table>)
    requires forall i, j :: 0 <= i < j < |ts| ==> ts[i].id != ts[j].id
    ensures forall i :: 0 <= i < |ts| ==> ts[i].id in RowMap(ts) && RowMap(ts)[ts[i].id] == i + 2
    ensures forall t :: t in RowMap(ts) ==> exists i :: 0 <= i < |ts| && ts[i].id == t
  {
    if |ts| > 0 {
      var init := ts[..|ts| - 1];
      RowMapIndex(init);
      forall i | 0 <= i < |ts| ensures ts[i].id in RowMap(ts) && RowMap(ts)[ts[i].id] == i + 2 {
        if i < |ts| - 1 {
          assert init[i] == ts[i];
        }
      }
      forall t | t in RowMap(ts) ensures exists i :: 0 <= i < |ts| && ts[i].id == t {
        if t != ts[|ts| - 1].id {
          var i :| 0 <= i < |init| && init[i].id == t;
          assert ts[i].id == t;
        }
      }
    }
  }

  /** The saved Table ID cell of the guest in row `j`: a formula naming the
      row its table was written on when the table is in the plan, the bare
      id when it is not, and the empty text when the guest sits nowhere or
      at the table 0. */
  lemma SaveTableRef(s: PlanState, j: int)
    requires s.Ordered() && s.KeysMatch() && 0 <= j < |s.guestOrder|
    ensures var g := GuestsInOrder(s)[j];
      var cell := SaveSpec(s).guests.value[j + 1][4];
      && (g.tableId.None? ==> cell == StrC(""))
      && (g.tableId == Some(0) ==> cell == StrC(""))
      && (g.tableId.Some? && g.tableId.value != 0 && g.tableId.value in s.tables ==>
            exists i :: 0 <= i < |s.tableOrder| && s.tableOrder[i] == g.tableId.value && cell == StrC(FormulaTo(i + 2)))
      && (g.tableId.Some? && g.tableId.value != 0 && g.tableId.value !in s.tables ==>
            cell == IntC(g.tableId.value))
  {
    var ts := TablesInOrder(s);
    TablesInOrderIds(s);
    RowMapIndex(ts);
    var g := GuestsInOrder(s)[j];
    assert s.guestOrder[j] in s.guestOrder;
    assert SaveSpec(s).guests.value[j + 1] == GuestRow(g, RowMap(ts));
    if g.tableId.Some? && g.tableId.value != 0 {
      var t := g.tableId.value;
      if t in s.tables {
        assert t in s.tableOrder;
        var i :| 0 <= i < |s.tableOrder| && s.tableOrder[i] == t;
        assert ts[i].id == t;
      } else {
        forall i | 0 <= i < |ts| ensures ts[i].id != t {
          assert s.tableOrder[i] in s.tableOrder;
        }
        assert t !in RowMap(ts);
      }
    }
  }

  /** Tables listed in dictionary order carry their keys as ids, so no two
      share one. */
  lemma TablesInOrderIds(s: PlanState)
    requires s.Ordered() && s.KeysMatch()
    ensures var ts := TablesInOrder(s);
      && (forall i :: 0 <= i < |ts| ==> ts[i].id == s.tableOrder[i])
      && (forall a, b :: 0 <= a < b < |ts| ==> ts[a].id != ts[b].id)
  {
    var ts := TablesInOrder(s);
    forall i | 0 <= i < |ts| ensures ts[i].id == s.tableOrder[i] {
      assert s.tableOrder[i] in s.tableOrder;
    }
  }

  /** The saved sheets: the fixed headers, one row per table and one per
      guest in dictionary order, and the counters row. */
  lemma SaveLayout(s: PlanState)
    requires s.Ordered()
    ensures var wb := SaveSpec(s);
      && wb.tables.Some? && wb.guests.Some? && wb.metadata.Some?
      && |wb.tables.value| == |s.tableOrder| + 1 && wb.tables.value[0] == TablesHeader
      && |wb.guests.value| == |s.guestOrder| + 1 && wb.guests.value[0] == GuestsHeader
      && wb.metadata.value == [MetadataHeader, [IntC(s.nextGuestId), IntC(s.nextTableId)]]
      && (forall i :: 0 <= i < |s.tableOrder| ==>
            && s.tableOrder[i] in s.tables
            && var t := s.tables[s.tableOrder[i]];
               wb.tables.value[i + 1] == [IntC(t.id), StrC(t.name), IntC(t.capacity), IntC(t.x), IntC(t.y)])
      && (forall i :: 0 <= i < |s.guestOrder| ==>
            && s.guestOrder[i] in s.guests
            && var g := s.guests[s.guestOrder[i]];
               wb.guests.value[i + 1][..4] == [IntC(g.id), StrC(g.name), StrC(g.category), IntC(g.size)])
  {
    var wb := SaveSpec(s);
    forall i | 0 <= i < |s.guestOrder|
      ensures s.guestOrder[i] in s.guests &&
        var g := s.guests[s.guestOrder[i]];
        wb.guests.value[i + 1][..4] == [IntC(g.id), StrC(g.name), StrC(g.category), IntC(g.size)]
    {
      EnumeratesAt(s.guestOrder, s.guests, i);
    }
    forall i | 0 <= i < |s.tableOrder|
      ensures s.tableOrder[i] in s.tables &&
        var t := s.tables[s.tableOrder[i]];
        wb.tables.value[i + 1] == [IntC(t.id), StrC(t.name), IntC(t.capacity), IntC(t.x), IntC(t.y)]
    {
      EnumeratesAt(s.tableOrder, s.tables, i);
    }
  }

  // =======================================================================
  // Headers and group import

  /** `get_headers`: the non-empty cells of the first row, as text. */
  function NonEmptyTexts(row: Row): (r: seq<string>)
    ensures |r| <= |row|
    ensures forall h :: h in r ==> exists i :: 0 <= i < |row| && row[i] != Empty && h == CellStr(row[i])
    ensures forall i :: 0 <= i < |row| && row[i] != Empty ==> CellStr(row[i]) in r
    ensures (forall i :: 0 <= i < |row| ==> row[i] != Empty) ==>
      |r| == |row| && forall i :: 0 <= i < |row| ==> r[i] == CellStr(row[i])
  {
    if |row| == 0 then []
    else
      var rest := NonEmptyTexts(row[1..]);
      assert forall i :: 0 <= i < |row| - 1 ==> row[1..][i] == row[i + 1];
      if row[0] == Empty then rest else [CellStr(row[0])] + rest
  }

  function GetHeaders(active: Sheet): (headers: seq<string>)
    ensures |active| == 0 ==> headers == []
  {
    if |active| == 0 then [] else NonEmptyTexts(active[0])
  }

  /** The header texts keep the cells' order and repetitions: the texts of
      two rows side by side are those of the first followed by those of the
      second. */
  lemma {:induction false} NonEmptyTextsAppend(a: Row, b: Row)
    ensures NonEmptyTexts(a + b) == NonEmptyTexts(a) + NonEmptyTexts(b)
  {
    if |a| == 0 {
      assert a + b == b;
    } else {
      assert (a + b)[0] == a[0] && (a + b)[1..] == a[1..] + b;
      NonEmptyTextsAppend(a[1..], b);
    }
  }

  /** A single cell gives its text, or nothing when it is empty. */
  lemma NonEmptyTextsCell(c: Cell)
    ensures NonEmptyTexts([c]) == if c == Empty then [] else [CellStr(c)]
  {
    assert [c][1..] == [];
  }

  /** A header row with a gap and a repeated title keeps both titles, in
      order, and drops the gap. */
  lemma GetHeadersExample()
    ensures GetHeaders([[StrC("Name"), Empty, StrC("Size"), StrC("Name")]]) == ["Name", "Size", "Name"]
  {
    var row := [StrC("Name"), Empty, StrC("Size"), StrC("Name")];
    assert row == [row[0]] + [row[1]] + [row[2]] + [row[3]];
    NonEmptyTextsAppend([row[0]] + [row[1]] + [row[2]], [row[3]]);
    NonEmptyTextsAppend([row[0]] + [row[1]], [row[2]]);
    NonEmptyTextsAppend([row[0]], [row[1]]);
    NonEmptyTextsCell(row[0]);
    NonEmptyTextsCell(row[1]);
    NonEmptyTextsCell(row[2]);
    NonEmptyTextsCell(row[3]);
  }

  /** The first row of the active sheet as the importer reads it: every
      cell as text, an empty one as "None". */
  function HeaderTexts(active: Sheet): (headers: seq<string>)
    ensures |active| > 0 ==> |headers| == |active[0]| && forall i :: 0 <= i < |headers| ==> headers[i] == CellStr(active[0][i])
  {
    if |active| == 0 then [] else seq(|active[0]|, i requires 0 <= i < |active[0]| => CellStr(active[0][i]))
  }

  /** `list.index`: the first position of `h`, or None where it raises. */
  function IndexOf(hs: seq<string>, h: string): (r: Option<nat>)
    ensures r.None? <==> h !in hs
    ensures r.Some? ==> r.value < |hs| && hs[r.value] == h && forall j :: 0 <= j < r.value ==> hs[j] != h
  {
    if |hs| == 0 then None
    else if hs[0] == h then Some(0)
    else match IndexOf(hs[1..], h)
      case None => None
      case Some(i) => Some(i + 1)
  }

  /** The columns the importer reads. */
  datatype Columns = Columns(group: nat, count: nat, category: Option<nat>)

  /** The importer's column lookup: None where `index` raises. A category
      column named by None or "" is not looked up. */
  function FindColumns(headers: seq<string>, groupCol: string, countCol: string, categoryCol: Option<string>): Option<Columns>
  {
    match (IndexOf(headers, groupCol), IndexOf(headers, countCol))
    case (Some(g), Some(c)) =>
      if categoryCol.Some? && categoryCol.value != "" then
        match IndexOf(headers, categoryCol.value)
        case Some(k) => Some(Columns(g, c, Some(k)))
        case None => None
      else Some(Columns(g, c, None))
    case _ => None
  }

  /** What the importer does with one data row. */
  datatype RowOutcome = Skip | TooShort | AddOne(name: string, category: string, size: int)

  function ImportRow(row: Row, cols: Columns): RowOutcome
  {
    if |row| == 0 then Skip
    else if cols.group >= |row| then TooShort
    else
      var group := row[cols.group];
      if !Truthy(group) then Skip
      else if cols.count >= |row| then TooShort
      else
        var count := match IntOf(row[cols.count]) case Some(n) => n case None => 1;
        if count <= 0 then Skip
        else if cols.category.Some? && cols.category.value >= |row| then TooShort
        else
          var category :=
            if cols.category.Some? && Truthy(row[cols.category.value]) then CellStr(row[cols.category.value])
            else CellStr(group);
          AddOne(CellStr(group), category, count)
  }

  /** An exception that ends an import: a requested column is not a header
      (the message names the headers), or a row is too short for a column. */
  datatype ImportError = ColumnNotFound(headers: seq<string>) | RowTooShort

  function ImportRows(s: PlanState, rows: seq<Row>, cols: Columns): (PlanState, Option<ImportError>)
  {
    if |rows| == 0 then (s, None)
    else ImportStep(ImportRows(s, rows[..|rows| - 1], cols), rows[|rows| - 1], cols)
  }

  /** One data row: nothing more once a row has raised. */
  function ImportStep(acc: (PlanState, Option<ImportError>), row: Row, cols: Columns): (PlanState, Option<ImportError>)
  {
    var (p, e) := acc;
    if e.Some? then (p, e)
    else
      match ImportRow(row, cols)
      case Skip => (p, None)
      case TooShort => (p, Some(RowTooShort))
      case AddOne(name, category, size) => (AddGuestSpec(p, name, category, size), None)
  }

  /** `import_groups_to_plan` as a function of the plan before it. */
  function ImportSpec(s: PlanState, active: Sheet, groupCol: string, countCol: string, categoryCol: Option<string>)
    : (PlanState, Option<ImportError>)
  {
    var headers := HeaderTexts(active);
    match FindColumns(headers, groupCol, countCol, categoryCol)
    case None => (s, Some(ColumnNotFound(headers)))
    case Some(cols) => ImportRows(s, DataRows(active), cols)
  }

  /** `import_groups_to_plan(active, group_col, count_col, plan, category_col)`. */
  method ImportGroupsToPlan(active: Sheet, groupCol: string, countCol: string, plan: SeatingPlan,
                            categoryCol: Option<string> := None)
      returns (failure: Option<ImportError>)
    requires plan.Ordered()
    modifies plan
    ensures (plan.State(), failure) == ImportSpec(old(plan.State()), active, groupCol, countCol, categoryCol)
    ensures plan.Ordered()
  {
    var headers := HeaderTexts(active);
    var found := FindColumns(headers, groupCol, countCol, categoryCol);
    if found.None? {
      return Some(ColumnNotFound(headers));
    }
    var cols := found.value;
    var rows := DataRows(active);
    ghost var s0 := plan.State();
    var i := 0;
    failure := None;
    while i < |rows| && failure.None?
      invariant 0 <= i <= |rows|
      invariant plan.Ordered()
      invariant ImportRows(s0, rows[..i], cols) == (plan.State(), failure)
    {
      ImportSnoc(s0, rows, cols, i);
      var outcome := ImportRow(rows[i], cols);
      if outcome.TooShort? {
        failure := Some(RowTooShort);
      } else if outcome.AddOne? {
        var _ := plan.AddGuest(outcome.name, outcome.category, outcome.size);
      }
      i := i + 1;
    }
    if failure.Some? {
      ImportRest(s0, rows, cols, i);
    } else {
      assert rows[..i] == rows;
    }
  }

  // -----------------------------------------------------------------------
  // Properties of the import

  lemma {:induction false} ImportSticky(s: PlanState, rows: seq<Row>, more: seq<Row>, cols: Columns)
    requires ImportRows(s, rows, cols).1.Some?
    ensures ImportRows(s, rows + more, cols) == ImportRows(s, rows, cols)
  {
    if |more| == 0 {
      assert rows + more == rows;
    } else {
      assert (rows + more)[..|rows + more| - 1] == rows + more[..|more| - 1];
      ImportSticky(s, rows, more[..|more| - 1], cols);
    }
  }

  lemma ImportSnoc(s: PlanState, rows: seq<Row>, cols: Columns, i: nat)
    requires i < |rows|
    ensures ImportRows(s, rows[..i + 1], cols) == ImportStep(ImportRows(s, rows[..i], cols), rows[i], cols)
  {
    assert rows[..i + 1][..i] == rows[..i];
  }

  lemma ImportRest(s: PlanState, rows: seq<Row>, cols: Columns, i: nat)
    requires i <= |rows| && ImportRows(s, rows[..i], cols).1.Some?
    ensures ImportRows(s, rows, cols) == ImportRows(s, rows[..i], cols)
  {
    ImportSticky(s, rows[..i], rows[i..], cols);
    assert rows[..i] + rows[i..] == rows;
  }

  /** The import raises for a missing column exactly when the group or count
      header is absent, or a named category header is. */
  lemma FindColumnsFails(headers: seq<string>, groupCol: string, countCol: string, categoryCol: Option<string>)
    ensures FindColumns(headers, groupCol, countCol, categoryCol).None? <==>
      groupCol !in headers || countCol !in headers ||
      (categoryCol.Some? && categoryCol.value != "" && categoryCol.value !in headers)
    ensures FindColumns(headers, groupCol, countCol, categoryCol).Some? ==>
      var cols := FindColumns(headers, groupCol, countCol, categoryCol).value;
      headers[cols.group] == groupCol && headers[cols.count] == countCol &&
      (cols.category.Some? ==> headers[cols.category.value] == categoryCol.value)
  {
  }

  /** A row adds a guest only with a truthy group and a positive count; the
      guest is named after the group, sized by the count (1 when the count
      cell is not an integer) and categorised by a truthy category cell,
      else by the group. */
  lemma ImportRowCases(row: Row, cols: Columns)
    ensures ImportRow(row, cols).AddOne? ==>
      && cols.group < |row| && Truthy(row[cols.group]) && cols.count < |row|
      && ImportRow(row, cols).name == CellStr(row[cols.group])
      && ImportRow(row, cols).size > 0
      && ImportRow(row, cols).size == (if IntOf(row[cols.count]).Some? then IntOf(row[cols.count]).value else 1)
      && (cols.category.Some? && Truthy(row[cols.category.value]) ==>
            ImportRow(row, cols).category == CellStr(row[cols.category.value]))
      && (cols.category.None? || !Truthy(row[cols.category.value]) ==>
            ImportRow(row, cols).category == CellStr(row[cols.group]))
    ensures |row| == 0 ==> ImportRow(row, cols) == Skip
    ensures cols.group < |row| && !Truthy(row[cols.group]) ==> ImportRow(row, cols) == Skip
    ensures (cols.group < |row| && cols.count < |row| && Truthy(row[cols.group]) &&
             IntOf(row[cols.count]).Some? && IntOf(row[cols.count]).value <= 0) ==> ImportRow(row, cols) == Skip
  {
  }

  /** `r` is `s` with guests added and nothing else changed: each added
      guest is new, unseated, has a positive size and takes an id between
      the two counters, and every such id is taken. */
  predicate OnlyAddsGuests(s: PlanState, r: PlanState)
  {
    && r.tables == s.tables && r.tableOrder == s.tableOrder && r.nextTableId == s.nextTableId
    && r.nextGuestId >= s.nextGuestId
    && (forall k :: k in s.guests ==> k in r.guests && r.guests[k] == s.guests[k])
    && (forall k :: s.nextGuestId <= k < r.nextGuestId ==> k in r.guests)
    && (forall k :: k in r.guests && k !in s.guests ==>
          s.nextGuestId <= k < r.nextGuestId && r.guests[k].tableId.None? && r.guests[k].size > 0)
  }

  /** Importing only adds guests, and a valid plan stays valid. */
  lemma {:induction false} ImportAddsGuests(s: PlanState, rows: seq<Row>, cols: Columns)
    requires s.Valid()
    ensures ImportRows(s, rows, cols).0.Valid()
    ensures OnlyAddsGuests(s, ImportRows(s, rows, cols).0)
  {
    if |rows| > 0 {
      var init := rows[..|rows| - 1];
      ImportAddsGuests(s, init, cols);
      var (p, e) := ImportRows(s, init, cols);
      if e.None? {
        var o := ImportRow(rows[|rows| - 1], cols);
        if o.AddOne? {
          ImportRowCases(rows[|rows| - 1], cols);
          AddGuestKeepsValid(p, o.name, o.category, o.size);
          AddedGuestOnlyAdds(s, p, o.name, o.category, o.size);
        }
      }
    }
  }

  /** One more imported guest keeps `OnlyAddsGuests`. */
  lemma AddedGuestOnlyAdds(s: PlanState, p: PlanState, name: string, category: string, size: int)
    requires OnlyAddsGuests(s, p) && p.CountersAbove() && size > 0
    ensures OnlyAddsGuests(s, AddGuestSpec(p, name, category, size))
  {
    assert p.nextGuestId !in p.guests;
  }

  /** The group table of the import example: three groups become three
      sized guests. */
  lemma ImportExample()
    ensures var active := [[StrC("Group Name"), StrC("Count"), StrC("Other Column")],
                           [StrC("Family A"), IntC(3), StrC("ignore")],
                           [StrC("Couple B"), IntC(2), StrC("ignore")],
                           [StrC("Single C"), IntC(1), StrC("ignore")]];
      var (r, failure) := ImportSpec(EmptyPlan(), active, "Group Name", "Count", None);
      && failure.None?
      && r.guests == map[1 := Guest(1, "Family A", "Family A", None, 3),
                         2 := Guest(2, "Couple B", "Couple B", None, 2),
                         3 := Guest(3, "Single C", "Single C", None, 1)]
  {
    var active := [[StrC("Group Name"), StrC("Count"), StrC("Other Column")],
                   [StrC("Family A"), IntC(3), StrC("ignore")],
                   [StrC("Couple B"), IntC(2), StrC("ignore")],
                   [StrC("Single C"), IntC(1), StrC("ignore")]];
    ExampleColumns(active);
    ExampleRows(EmptyPlan(), DataRows(active), Columns(0, 1, None));
  }

  lemma ExampleColumns(active: Sheet)
    requires active == [[StrC("Group Name"), StrC("Count"), StrC("Other Column")],
                        [StrC("Family A"), IntC(3), StrC("ignore")],
                        [StrC("Couple B"), IntC(2), StrC("ignore")],
                        [StrC("Single C"), IntC(1), StrC("ignore")]]
    ensures FindColumns(HeaderTexts(active), "Group Name", "Count", None) == Some(Columns(0, 1, None))
    ensures DataRows(active) == active[1..]
  {
    var headers := HeaderTexts(active);
    assert headers == ["Group Name", "Count", "Other Column"];
  }

  /** A row naming a group and a positive count adds one guest, named and
      categorised after the group. */
  lemma ExampleRow(row: Row, name: string, size: int)
    requires name != "" && size > 0
    requires row == [StrC(name), IntC(size), StrC("ignore")]
    ensures ImportRow(row, Columns(0, 1, None)) == AddOne(name, name, size)
  {
  }

  lemma ExampleRows(s: PlanState, rows: seq<Row>, cols: Columns)
    requires s == EmptyPlan() && cols == Columns(0, 1, None)
    requires rows == [[StrC("Family A"), IntC(3), StrC("ignore")],
                      [StrC("Couple B"), IntC(2), StrC("ignore")],
                      [StrC("Single C"), IntC(1), StrC("ignore")]]
    ensures var (r, failure) := ImportRows(s, rows, cols);
      && failure.None?
      && r.guests == map[1 := Guest(1, "Family A", "Family A", None, 3),
                         2 := Guest(2, "Couple B", "Couple B", None, 2),
                         3 := Guest(3, "Single C", "Single C", None, 1)]
  {
    ExampleRow(rows[0], "Family A", 3);
    ExampleRow(rows[1], "Couple B", 2);
    ExampleRow(rows[2], "Single C", 1);
    assert rows[..2] == [rows[0], rows[1]] && rows[..2][..1] == [rows[0]] && rows[..1][..0] == [];
    assert rows[..2] == rows[..|rows| - 1];
    var p1 := AddGuestSpec(s, "Family A", "Family A", 3);
    assert ImportRows(s, rows[..1], cols) == (p1, None);
    var p2 := AddGuestSpec(p1, "Couple B", "Couple B", 2);
    assert ImportRows(s, rows[..2], cols) == (p2, None);
    assert p2.nextGuestId == 3;
  }
}
