/** Saving a plan and loading it back (wedding_planner/excel_io.py).

    The saved workbook refers to a guest's table by a formula, and the
    loader reads cells with `data_only=True`, so it sees the value the
    spreadsheet application last computed for that formula. `Recalculated`
    stands for that application: it replaces each "=Tables!A<k>" text of
    the Guests sheet by column A of row k of the Tables sheet. */
module ExcelRoundTrip {
  import opened Common
  import opened Cells
  import opened Entities
  import opened Plan
  import opened ExcelIO

  // =======================================================================
  // Formula evaluation

  const FormulaPrefix: string := "=Tables!A"

  /** The row number of a "=Tables!A<k>" reference. */
  function FormulaRow(f: string): Option<nat>
  {
    if |f| > |FormulaPrefix| && f[..|FormulaPrefix|] == FormulaPrefix && AllDigits(f[|FormulaPrefix|..])
    then Some(DigitsValue(f[|FormulaPrefix|..]))
    else None
  }

  lemma FormulaRowOfFormulaTo(k: nat)
    ensures FormulaRow(FormulaTo(k)) == Some(k)
  {
    var digits := NatToString(k);
    assert IntToString(k) == digits;
    var f := FormulaPrefix + digits;
    assert f == FormulaTo(k);
    assert f[..|FormulaPrefix|] == FormulaPrefix;
    assert f[|FormulaPrefix|..] == digits;
    NatToStringValue(k);
  }

  /** The value the spreadsheet shows in a cell: a reference to a row of
      the Tables sheet shows column A of that row (an empty cell when there
      is no such row); every other cell shows itself. */
  function Evaluate(c: Cell, tablesSheet: Sheet): Cell
  {
    match c
    case StrC(f) =>
      if |f| > 0 && f[0] == '=' then
        match FormulaRow(f)
        case Some(k) => if 1 <= k <= |tablesSheet| && |tablesSheet[k - 1]| > 0 then tablesSheet[k - 1][0] else Empty
        case None => c
      else c
    case _ => c
  }

  function EvaluateRow(row: Row, tablesSheet: Sheet): (r: Row)
    ensures |r| == |row|
  {
    seq(|row|, i requires 0 <= i < |row| => Evaluate(row[i], tablesSheet))
  }

  /** The workbook as the spreadsheet application leaves it. */
  function Recalculated(wb: Workbook): Workbook
  {
    if wb.tables.Some? && wb.guests.Some? then
      var gs := wb.guests.value;
      var ts := wb.tables.value;
      wb.(guests := Some(seq(|gs|, i requires 0 <= i < |gs| => EvaluateRow(gs[i], ts))))
    else wb
  }

  // =======================================================================
  // The plan as a load rebuilds it

  /** The tables listed so far, with no guests yet. */
  function EmptiedUpTo(s: PlanState, order: seq<int>): map<int, Table>
  {
    map t | t in s.tables && t in order :: s.tables[t].(guestIds := [])
  }

  /** The guests listed so far. */
  function GuestsUpTo(s: PlanState, order: seq<int>): map<int, Guest>
  {
    map k | k in s.guests && k in order :: s.guests[k]
  }

  /** The guests of `order` that sit at table `t`, in that order. */
  function SeatedAt(guests: map<int, Guest>, order: seq<int>, t: int): seq<int>
  {
    if |order| == 0 then []
    else
      var last := order[|order| - 1];
      SeatedAt(guests, order[..|order| - 1], t) +
        (if last in guests && guests[last].tableId == Some(t) then [last] else [])
  }

  /** Every table, listing the guests of `order` that sit at it. */
  function TablesWith(s: PlanState, order: seq<int>): map<int, Table>
  {
    map t | t in s.tables :: s.tables[t].(guestIds := SeatedAt(s.guests, order, t))
  }

  /** No text the plan saves reads as a formula. */
  predicate PlainTexts(s: PlanState)
  {
    forall k :: k in s.guests ==>
      (|s.guests[k].name| > 0 ==> s.guests[k].name[0] != '=') &&
      (|s.guests[k].category| > 0 ==> s.guests[k].category[0] != '=')
  }

  // =======================================================================
  // Each saved row, loaded

  lemma EmptiedUpToSnoc(s: PlanState, order: seq<int>, t: int)
    requires t in s.tables
    ensures EmptiedUpTo(s, order + [t]) == EmptiedUpTo(s, order)[t := s.tables[t].(guestIds := [])]
  {
  }

  /** A saved Tables row adds its table, with no guests, at the end. */
  lemma TableStepSaved(s: PlanState, ld: Loading, i: nat)
    requires s.Ordered() && s.KeysMatch() && i < |s.tableOrder|
    requires ld.failure.None? && ld.plan.tables == EmptiedUpTo(s, s.tableOrder[..i]) && ld.plan.tableOrder == s.tableOrder[..i]
    ensures var t := s.tableOrder[i];
      t in s.tables &&
      var r := TableRowStep(true, ld, TableRow(s.tables[t]));
      && r.failure.None?
      && r.plan == ld.plan.(tables := EmptiedUpTo(s, s.tableOrder[..i + 1]), tableOrder := s.tableOrder[..i + 1])
  {
    var t := s.tableOrder[i];
    EnumeratesAt(s.tableOrder, s.tables, i);
    assert s.tableOrder[..i + 1] == s.tableOrder[..i] + [t];
    assert t !in s.tableOrder[..i] by {
      forall j | 0 <= j < i ensures s.tableOrder[..i][j] != t {
        assert s.tableOrder[..i][j] == s.tableOrder[j];
      }
    }
    EmptiedUpToSnoc(s, s.tableOrder[..i], t);
  }

  lemma {:induction false} LoadTablesSaved(s: PlanState, ld: Loading, i: nat)
    requires s.Ordered() && s.KeysMatch() && i <= |s.tableOrder|
    requires ld.failure.None? && ld.plan.tables == map[] && ld.plan.tableOrder == []
    ensures var l := LoadTables(true, ld, TableRows(TablesInOrder(s))[..i]);
      && l.failure.None?
      && l.plan == ld.plan.(tables := EmptiedUpTo(s, s.tableOrder[..i]), tableOrder := s.tableOrder[..i])
  {
    var rows := TableRows(TablesInOrder(s));
    if i == 0 {
      assert rows[..0] == [];
      assert EmptiedUpTo(s, s.tableOrder[..0]) == map[];
    } else {
      LoadTablesSaved(s, ld, i - 1);
      assert rows[..i][..i - 1] == rows[..i - 1];
      EnumeratesAt(s.tableOrder, s.tables, i - 1);
      assert rows[..i][i - 1] == TableRow(s.tables[s.tableOrder[i - 1]]);
      TableStepSaved(s, LoadTables(true, ld, rows[..i - 1]), i - 1);
    }
  }

  lemma GuestsUpToSnoc(s: PlanState, order: seq<int>, k: int)
    requires k in s.guests
    ensures GuestsUpTo(s, order + [k]) == GuestsUpTo(s, order)[k := s.guests[k]]
  {
  }

  lemma TablesWithSnoc(s: PlanState, order: seq<int>, k: int)
    requires k in s.guests
    requires s.guests[k].tableId.Some? ==> s.guests[k].tableId.value in s.tables
    ensures var g := s.guests[k];
      var before := TablesWith(s, order);
      TablesWith(s, order + [k]) ==
        if g.tableId.Some? then
          before[g.tableId.value := before[g.tableId.value].(guestIds := before[g.tableId.value].guestIds + [k])]
        else before
  {
    var g := s.guests[k];
    var before := TablesWith(s, order);
    var after := TablesWith(s, order + [k]);
    assert (order + [k])[..|order|] == order;
    forall t | t in s.tables
      ensures SeatedAt(s.guests, order + [k], t)
           == SeatedAt(s.guests, order, t) + (if g.tableId == Some(t) then [k] else [])
    {
    }
    if g.tableId.Some? {
      var u := g.tableId.value;
      var expected := before[u := before[u].(guestIds := before[u].guestIds + [k])];
      assert after.Keys == expected.Keys;
      forall t | t in after ensures after[t] == expected[t] {
      }
    } else {
      assert after.Keys == before.Keys;
      forall t | t in after ensures after[t] == before[t] {
      }
    }
  }

  /** A loaded Guests row stores its guest at the end of the order and
      appends it to its table's list. */
  lemma GuestStepSaved(s: PlanState, ld: Loading, j: nat)
    requires s.Ordered() && s.KeysMatch() && s.SeatedAreListed() && j < |s.guestOrder|
    requires ld.failure.None?
    requires ld.plan.guests == GuestsUpTo(s, s.guestOrder[..j]) && ld.plan.guestOrder == s.guestOrder[..j]
    requires ld.plan.tables == TablesWith(s, s.guestOrder[..j])
    ensures var k := s.guestOrder[j];
      k in s.guests &&
      var r := GuestRowStep(true, ld, LoadedGuestRow(s.guests[k]));
      && r.failure.None?
      && r.plan == ld.plan.(guests := GuestsUpTo(s, s.guestOrder[..j + 1]), guestOrder := s.guestOrder[..j + 1],
                            tables := TablesWith(s, s.guestOrder[..j + 1]))
  {
    var k := s.guestOrder[j];
    EnumeratesAt(s.guestOrder, s.guests, j);
    var g := s.guests[k];
    var prefix := s.guestOrder[..j];
    assert s.guestOrder[..j + 1] == prefix + [k];
    assert k !in prefix by {
      forall i | 0 <= i < j ensures prefix[i] != k {
        assert prefix[i] == s.guestOrder[i];
      }
    }
    LoadedRowStores(ld, g);
    assert g.id == k;
    GuestsUpToSnoc(s, prefix, k);
    TablesWithSnoc(s, prefix, k);
  }

  lemma {:induction false} LoadGuestsSaved(s: PlanState, ld: Loading, rows: seq<Row>, j: nat)
    requires s.Ordered() && s.KeysMatch() && s.SeatedAreListed()
    requires j <= |s.guestOrder| && |rows| == |s.guestOrder|
    requires forall i :: 0 <= i < |rows| ==> s.guestOrder[i] in s.guests && rows[i] == LoadedGuestRow(s.guests[s.guestOrder[i]])
    requires ld.failure.None? && ld.plan.guests == map[] && ld.plan.guestOrder == []
    requires ld.plan.tables == TablesWith(s, [])
    ensures var l := LoadGuests(true, ld, rows[..j]);
      && l.failure.None?
      && l.plan == ld.plan.(guests := GuestsUpTo(s, s.guestOrder[..j]), guestOrder := s.guestOrder[..j],
                            tables := TablesWith(s, s.guestOrder[..j]))
  {
    if j == 0 {
      assert rows[..0] == [] && s.guestOrder[..0] == [];
      assert GuestsUpTo(s, []) == map[];
    } else {
      LoadGuestsSaved(s, ld, rows, j - 1);
      assert rows[..j][..j - 1] == rows[..j - 1];
      GuestStepSaved(s, LoadGuests(true, ld, rows[..j - 1]), j - 1);
    }
  }

  // =======================================================================
  // The saved Guests sheet, recalculated

  /** A formula naming the row of table `t` shows `t`. */
  lemma EvaluateFormula(sheet: Sheet, i: nat, t: int)
    requires i + 1 < |sheet| && |sheet[i + 1]| > 0 && sheet[i + 1][0] == IntC(t)
    ensures Evaluate(StrC(FormulaTo(i + 2)), sheet) == IntC(t)
  {
    FormulaRowOfFormulaTo(i + 2);
  }

  /** A saved Guests row of a guest with plain texts, evaluated, is the
      row the load reads. */
  lemma EvaluateSavedRow(g: Guest, saved: Row, sheet: Sheet)
    requires |saved| == 5 && saved[..4] == [IntC(g.id), StrC(g.name), StrC(g.category), IntC(g.size)]
    requires |g.name| > 0 ==> g.name[0] != '='
    requires |g.category| > 0 ==> g.category[0] != '='
    requires Evaluate(saved[4], sheet) == LoadedGuestRow(g)[4]
    ensures EvaluateRow(saved, sheet) == LoadedGuestRow(g)
  {
  }

  /** Every saved Guests row shows the loaded row once its formula is
      evaluated. */
  lemma RecalculatedGuestRow(s: PlanState, j: int)
    requires s.Consistent() && 0 !in s.tables && PlainTexts(s) && 0 <= j < |s.guestOrder|
    ensures s.guestOrder[j] in s.guests
    ensures Recalculated(SaveSpec(s)).guests.Some?
    ensures var sheet := Recalculated(SaveSpec(s)).guests.value;
      |sheet| == |s.guestOrder| + 1 && sheet[j + 1] == LoadedGuestRow(s.guests[s.guestOrder[j]])
  {
    EnumeratesAt(s.guestOrder, s.guests, j);
    var g := s.guests[s.guestOrder[j]];
    var wb := SaveSpec(s);
    var saved := wb.guests.value[j + 1];
    assert GuestsInOrder(s)[j] == g;
    assert saved == GuestRow(g, RowMap(TablesInOrder(s)));
    SavedRefEvaluates(s, j);
    EvaluateSavedRow(g, saved, wb.tables.value);
  }

  /** The table cell of a saved Guests row evaluates to the table's id, or
      stays blank for an unseated guest. */
  lemma SavedRefEvaluates(s: PlanState, j: int)
    requires s.Consistent() && 0 !in s.tables && 0 <= j < |s.guestOrder|
    ensures var wb := SaveSpec(s);
      Evaluate(wb.guests.value[j + 1][4], wb.tables.value) == LoadedGuestRow(GuestsInOrder(s)[j])[4]
  {
    EnumeratesAt(s.guestOrder, s.guests, j);
    var g := GuestsInOrder(s)[j];
    assert g == s.guests[s.guestOrder[j]];
    var wb := SaveSpec(s);
    var tablesSheet := wb.tables.value;
    var cell := wb.guests.value[j + 1][4];
    SaveTableRef(s, j);
    if g.tableId.Some? {
      var t := g.tableId.value;
      assert t in s.tables;
      var i :| 0 <= i < |s.tableOrder| && s.tableOrder[i] == t && cell == StrC(FormulaTo(i + 2));
      EnumeratesAt(s.tableOrder, s.tables, i);
      assert tablesSheet[i + 1] == TableRow(s.tables[t]);
      EvaluateFormula(tablesSheet, i, t);
    }
  }

  /** The data rows of the recalculated Guests sheet, one per guest. */
  lemma RecalculatedGuestRows(s: PlanState)
    requires s.Consistent() && 0 !in s.tables && PlainTexts(s)
    ensures Recalculated(SaveSpec(s)).guests.Some?
    ensures var rows := DataRows(Recalculated(SaveSpec(s)).guests.value);
      && |rows| == |s.guestOrder|
      && forall i :: 0 <= i < |rows| ==> s.guestOrder[i] in s.guests && rows[i] == LoadedGuestRow(s.guests[s.guestOrder[i]])
  {
    var sheet := Recalculated(SaveSpec(s)).guests.value;
    assert |sheet| == |s.guestOrder| + 1;
    var rows := DataRows(sheet);
    forall i | 0 <= i < |rows|
      ensures s.guestOrder[i] in s.guests && rows[i] == LoadedGuestRow(s.guests[s.guestOrder[i]])
    {
      RecalculatedGuestRow(s, i);
    }
  }

  // =======================================================================
  // The round trip

  /** Which members a rebuilt list holds: exactly the table's guests,
      each once. */
  lemma {:induction false} SeatedAtMembers(guests: map<int, Guest>, order: seq<int>, t: int)
    requires NoDup(order)
    ensures NoDup(SeatedAt(guests, order, t))
    ensures forall k :: k in SeatedAt(guests, order, t) <==> k in order && k in guests && guests[k].tableId == Some(t)
  {
    if |order| > 0 {
      var init := order[..|order| - 1];
      var last := order[|order| - 1];
      assert NoDup(init) by {
        forall a, b | 0 <= a < b < |init| ensures init[a] != init[b] {
          assert init[a] == order[a] && init[b] == order[b];
        }
      }
      assert last !in init by {
        forall a | 0 <= a < |init| ensures init[a] != last {
          assert init[a] == order[a];
        }
      }
      SeatedAtMembers(guests, init, t);
      assert order == init + [last];
      assert forall k :: k in order <==> k in init || k == last;
      var r := SeatedAt(guests, order, t);
      var head := SeatedAt(guests, init, t);
      forall a, b | 0 <= a < b < |r| ensures r[a] != r[b] {
        if b == |head| {
          assert r[a] == head[a];
          assert head[a] in head;
        }
      }
    }
  }

  /** In a consistent plan, the guests seated at `t`, in guest order, are
      the guests its list holds. */
  lemma SeatedAtListed(s: PlanState, t: int)
    requires s.Consistent() && t in s.tables
    ensures NoDup(SeatedAt(s.guests, s.guestOrder, t))
    ensures forall k :: k in SeatedAt(s.guests, s.guestOrder, t) <==> k in s.tables[t].guestIds
  {
    SeatedAtMembers(s.guests, s.guestOrder, t);
  }

  /** The loaded counters: those saved, which the recount leaves alone. */
  lemma LoadCountersSaved(s: PlanState, l: PlanState, wb: Workbook)
    requires s.Consistent() && l.guestOrder == s.guestOrder && l.tableOrder == s.tableOrder
    requires wb.metadata == Some([MetadataHeader, [IntC(s.nextGuestId), IntC(s.nextTableId)]])
    ensures LoadCounters(l, wb, true) == (l.(nextGuestId := s.nextGuestId, nextTableId := s.nextTableId), None)
  {
    var metadata := DataRows(wb.metadata.value);
    assert metadata == [[IntC(s.nextGuestId), IntC(s.nextTableId)]];
  }

  /** The Tables sheet of a saved plan loads every table, with no guests. */
  lemma TablesPhaseSaved(s: PlanState, p: PlanState)
    requires s.Ordered() && s.KeysMatch()
    ensures var l := LoadTables(true, Loading(LoadStart(p, true), map[], None), DataRows(SaveSpec(s).tables.value));
      && l.failure.None?
      && l.plan == LoadStart(p, true).(tables := TablesWith(s, []), tableOrder := s.tableOrder)
  {
    var ts := TablesInOrder(s);
    var l0 := Loading(LoadStart(p, true), map[], None);
    assert DataRows(SaveSpec(s).tables.value) == TableRows(ts);
    LoadTablesSaved(s, l0, |s.tableOrder|);
    assert TableRows(ts)[..|s.tableOrder|] == TableRows(ts);
    assert s.tableOrder[..|s.tableOrder|] == s.tableOrder;
    assert EmptiedUpTo(s, s.tableOrder) == TablesWith(s, []);
  }

  /** The Guests rows of a saved plan, once evaluated, load every guest
      and rebuild every table's list. */
  lemma GuestsPhaseSaved(s: PlanState, ld: Loading, rows: seq<Row>)
    requires s.Ordered() && s.KeysMatch() && s.SeatedAreListed() && |rows| == |s.guestOrder|
    requires forall i :: 0 <= i < |rows| ==> s.guestOrder[i] in s.guests && rows[i] == LoadedGuestRow(s.guests[s.guestOrder[i]])
    requires ld.failure.None? && ld.plan.guests == map[] && ld.plan.guestOrder == []
    requires ld.plan.tables == TablesWith(s, [])
    ensures var l := LoadGuests(true, ld, rows);
      && l.failure.None?
      && l.plan == ld.plan.(guests := s.guests, guestOrder := s.guestOrder, tables := TablesWith(s, s.guestOrder))
  {
    LoadGuestsSaved(s, ld, rows, |s.guestOrder|);
    assert rows[..|rows|] == rows;
    assert s.guestOrder[..|s.guestOrder|] == s.guestOrder;
    GuestsUpToAll(s);
  }

  lemma GuestsUpToAll(s: PlanState)
    requires s.Ordered()
    ensures GuestsUpTo(s, s.guestOrder) == s.guests
  {
    forall k | k in s.guests ensures k in GuestsUpTo(s, s.guestOrder) {
      assert k in s.guestOrder;
    }
    assert GuestsUpTo(s, s.guestOrder).Keys == s.guests.Keys;
  }

  /** Saving a consistent plan, recalculating the workbook and loading it
      into any plan with `clear` gives back the same guests, tables, orders
      and counters, except that each table now lists its guests in the
      order of the guest dictionary (the same guests, each once). This
      needs every table id to be true (a guest at table 0 is saved with an
      empty reference) and no saved guest text to look like a formula. */
  lemma SaveLoadRoundTrip(s: PlanState, p: PlanState)
    requires s.Consistent() && 0 !in s.tables && PlainTexts(s)
    ensures var l := Load(p, Recalculated(SaveSpec(s)), true);
      && l.failure.None?
      && l.plan.guests == s.guests && l.plan.guestOrder == s.guestOrder
      && l.plan.tableOrder == s.tableOrder
      && l.plan.nextGuestId == s.nextGuestId && l.plan.nextTableId == s.nextTableId
      && l.plan.tables.Keys == s.tables.Keys
      && (forall t :: t in s.tables ==>
            && l.plan.tables[t] == s.tables[t].(guestIds := SeatedAt(s.guests, s.guestOrder, t))
            && NoDup(l.plan.tables[t].guestIds)
            && forall k :: k in l.plan.tables[t].guestIds <==> k in s.tables[t].guestIds)
  {
    var rwb := Recalculated(SaveSpec(s));
    assert rwb.tables == SaveSpec(s).tables && rwb.metadata == SaveSpec(s).metadata;
    TablesPhaseSaved(s, p);
    var l1 := LoadTables(true, Loading(LoadStart(p, true), map[], None), DataRows(rwb.tables.value));
    RecalculatedGuestRows(s);
    GuestsPhaseSaved(s, l1, DataRows(rwb.guests.value));
    var l2 := LoadRows(p, rwb, true);
    assert l2.plan.tables == TablesWith(s, s.guestOrder);
    LoadCountersSaved(s, l2.plan, rwb);
    forall t | t in s.tables
      ensures NoDup(SeatedAt(s.guests, s.guestOrder, t))
      ensures forall k :: k in SeatedAt(s.guests, s.guestOrder, t) <==> k in s.tables[t].guestIds
    {
      SeatedAtListed(s, t);
    }
  }
}
