# Wedding planner seating core, modelled in Dafny

This project models the logic at the heart of the wedding planner, a desktop
application for seating wedding guests at tables:

- **The seating plan** (`wedding_planner/models.py`): two dictionaries
  (guests and tables by id), two id counters, and the two-way link between
  a guest's `table_id` and a table's `guest_ids`.
  - `SeatingPlan` is a Dafny class (`Plan.SeatingPlan`) whose methods update
    its fields in place.
  - Each method is proved to leave the state its specification function
    describes (`Plan.AddGuestSpec`, `Plan.AssignSpec`, ...).
  - Lemmas prove that every operation keeps the plan valid: links agree,
    no table holds more than its capacity, and each counter lies above
    every key.
  - A Python dictionary's iteration order is kept as a sequence of keys
    next to each map, because the spreadsheet rows and the re-keying of a
    table depend on it.
  - `Guest` and `Table` `to_dict`/`from_dict` are pure functions, proved to
    round-trip.
- **The spreadsheet codec** (`wedding_planner/excel_io.py`), with the
  workbook library removed:
  - a workbook is three optional sheets;
  - a sheet is a sequence of rows, and a row a sequence of `Cell`s
    (`Empty`, `IntC`, `DecC` for a float cell with its whole part, `StrC`);
  - Python's `int(float(x))`, `int(x)`, `str(x)`, `strip()` and
    truthiness on cells are written out in `Cells`.
  - `save_to_xlsx`, `load_from_xlsx` and `import_groups_to_plan` are
    methods that loop over rows. Each is proved equal to a row-by-row
    specification function, and the codec's properties are lemmas about
    those functions.
  - The main one is `ExcelRoundTrip.SaveLoadRoundTrip`: loading what was
    saved gives back the plan's guests, tables, orders and counters, with
    each table's list coming back in guest order (the order of the
    Guests sheet), not in its own order.
- **The plan edits inside the user interface** (`wedding_planner/gui.py`):
  `edit_table_id`, the guest edit with its capacity recheck,
  `edit_table_properties` and `add_guest_to_table_dialog`.
  - These handlers change the plan's dictionaries directly, so they are
    where the plan's invariants can break.
  - They are methods on a `SeatingPlan`, and each dialog's answer is a
    parameter (`None` for a cancelled dialog).
  - The status-bar figures of `update_stats` and the seat list of
    `draw_table` are pure functions, with lemmas that relate them.

Files:
- `common.dfy`: Option and list helpers;
- `cells.dfy`: cells and the Python coercions;
- `entities.dfy`: Guest, Table and their dictionaries;
- `plan.dfy`: the plan;
- `excel_io.dfy`: the codec and the importer;
- `excel_roundtrip.dfy`: the save/load round trip;
- `gui.dfy`: the interface's plan edits.

Edge cases that the code handles in an unexpected way are modelled as the
code does them:

- Reassigning a guest to the table it already sits at counts the guest
  twice (`Plan.AssignSameTableCountsTwice`).
- A merging load can overwrite a table it loaded before
  (`ExcelIO.MergeCanOverwrite`).
- A load never checks capacities (`ExcelIO.LoadIgnoresCapacity`).
- A table id of 0 is false in Python. So the save writes `""` for a guest
  at table 0 (`ExcelIO.SaveTableRef`), and the guest edit skips the
  capacity recheck at table 0 (`Gui.EditGuestAtTableZero`).

## Model

| member | source | states |
|---|---|---|
| Entities.GuestDictRoundTrip | wedding_planner/models.py:13-24 | `Guest.from_dict(g.to_dict())` gives back `g`, and the dictionary has exactly the guest's five fields |
| Entities.TableDictRoundTrip | wedding_planner/models.py:35-47 | `Table.from_dict(t.to_dict())` gives back `t`, and the dictionary has exactly the table's six fields |
| Entities.FromDictDefaults | wedding_planner/models.py:5-11 | a dictionary with only the required keys gets the defaults: category "General", no table, size 1; for a table, no guests and x = y = 0 |
| Entities.FromDictRejectsUnknownKey | wedding_planner/models.py:22-24 | a dictionary with a key that is not a field makes `from_dict` fail |
| Plan.SeatingPlan.constructor | wedding_planner/models.py:49-54 | a new plan has no guests and no tables, both counters at 1, and is valid |
| Plan.SeatingPlan.AddGuest | wedding_planner/models.py:56-60 | the returned guest has the old `next_guest_id` and no table, and is stored under that id; the counter rises by one; nothing else changes; a valid plan stays valid for a non-negative size |
| Plan.AddGuestAllocates | wedding_planner/models.py:56-60 | the new id was free; the guest keys grow by exactly the new id; every earlier guest and every table is unchanged |
| Plan.AddGuestKeepsValid | wedding_planner/models.py:56-60 | adding a guest of non-negative size to a valid plan keeps it valid |
| Plan.SeatingPlan.AddTable | wedding_planner/models.py:69-73 | the returned table has the old `next_table_id`, no guests and the given (default 100) position; the counter rises by one; nothing else changes |
| Plan.AddTableKeepsValid | wedding_planner/models.py:69-73 | adding a table of non-negative capacity to a valid plan keeps it valid |
| Plan.SeatingPlan.UnseatGuest | wedding_planner/models.py:105-113 | the new state is `UnseatSpec` of the old one, and a valid plan stays valid |
| Plan.UnseatEffect | wedding_planner/models.py:105-113 | unseating a seated guest clears its `table_id`, removes it from its table's list, and lowers that table's occupancy by its size; nothing else changes |
| Plan.UnseatIdempotent | wedding_planner/models.py:105-113 | unseating an unknown or unseated guest changes nothing, and unseating twice is the same as unseating once |
| Plan.UnseatKeepsValid | wedding_planner/models.py:105-113 | unseating keeps a valid plan valid |
| Plan.SeatingPlan.AssignGuestToTable | wedding_planner/models.py:83-103 | the new state and the result are `AssignSpec` of the old state; a valid plan stays valid |
| Plan.AssignOutcome | wedding_planner/models.py:84-95 | the assignment succeeds exactly when both ids are known and the table's occupancy plus the guest's size fits its capacity; on failure nothing changes |
| Plan.AssignMovesGuest | wedding_planner/models.py:97-103 | on success the guest points at the target; all tables other than the old and the new one are unchanged, and so are the orders and counters |
| Plan.AssignMovesTarget | wedding_planner/models.py:97-103 | on success the target's list is its old list without the guest, with the guest appended at the end; for a guest coming from elsewhere, the target's occupancy rises by exactly the guest's size |
| Plan.AssignMovesSource | wedding_planner/models.py:97-99 | on success the guest's previous table no longer lists it, and its occupancy drops by the guest's size |
| Plan.AssignSameTableCountsTwice | wedding_planner/models.py:91-95 | reassigning a guest to its own table succeeds only if the other members plus twice the guest's size fit, because occupancy is measured before the guest leaves |
| Plan.AssignKeepsValid | wedding_planner/models.py:91-103 | an assignment keeps a valid plan valid, capacity included |
| Plan.SeatingPlan.RemoveGuest | wedding_planner/models.py:62-67 | the new state is `RemoveGuestSpec` of the old one (unseat, then delete), and a valid plan stays valid |
| Plan.RemoveGuestKeepsValid | wedding_planner/models.py:62-67 | after removal the guest is gone, no table lists it, and the plan stays valid |
| Plan.SeatingPlan.RemoveTable | wedding_planner/models.py:75-81 | the new state is `RemoveTableSpec` of the old one: every listed member unseated in turn, then the table deleted; a valid plan stays valid |
| Plan.UnseatAllEmpties | wedding_planner/models.py:75-79 | unseating every member of a table's list empties that list, clears exactly those guests' table ids, leaves the other tables alone, and keeps the plan valid |
| Plan.RemoveTableKeepsValid | wedding_planner/models.py:75-81 | after removing a table it is gone, no guest points at it, and the plan stays valid |
| Plan.RemoveTableUnseatsMembers | wedding_planner/models.py:75-81 | removing a table unseats exactly the guests that sat at it and leaves every other guest as it was |
| Cells.ParseIntegerOfIntToString | wedding_planner/excel_io.py:190 | `int(str(n)) == n` for every integer `n` |
| Cells.ParseDecimalOfIntToString | wedding_planner/excel_io.py:60 | `float(str(n))` parses back to `n` |
| Cells.ParseDecimalOfPointZero | wedding_planner/excel_io.py:65 | text such as "10.0" (an integer followed by ".0") parses back to that integer |
| Cells.ParseIntegerRejectsPoint | wedding_planner/excel_io.py:190-193 | `int()` refuses text of the form "10.0", so the importer falls back to a count of 1 |
| Cells.BlankIsNotANumber | wedding_planner/excel_io.py:100-108 | text that is blank after `strip()` is not a number for either parse |
| Cells.IntOfAgreesWithIntOfFloat | wedding_planner/excel_io.py:96 | where `int(x)` succeeds, `int(float(x))` gives the same value |
| ExcelIO.SaveToXlsx | wedding_planner/excel_io.py:7-38 | the workbook built row by row equals `SaveSpec` of the plan |
| ExcelIO.SaveLayout | wedding_planner/excel_io.py:13-36 | the fixed headers; one Tables row `[id, name, capacity, x, y]` per table in plan order; one Guests row per guest in plan order, starting `[id, name, category, size]`; the Metadata row `[next_guest_id, next_table_id]` |
| ExcelIO.SaveTableRef | wedding_planner/excel_io.py:19-31 | a guest's Table ID cell is `=Tables!A{i+2}` when its table is the i-th saved table; it is the raw table id when that id names no table of the plan; it is `""` when the guest sits nowhere or at table 0 |
| ExcelIO.LoadFromXlsx | wedding_planner/excel_io.py:41-145 | the plan after the method, and the error it reports, are those of `Load` on the old plan |
| ExcelIO.TableRowSkipped | wedding_planner/excel_io.py:56-62 | a Tables row whose id cell is empty or fails `int(float(...))` changes nothing |
| ExcelIO.TableRowStored | wedding_planner/excel_io.py:56-80 | a Tables row with a parsable id stores a table with no guests; the key is the stored id, or the next table id when a merging load collides, with the counter raised; the mapping records old to new; other tables are unchanged when the counter was above every key |
| ExcelIO.TableRowCoercion | wedding_planner/excel_io.py:59-69 | a row with id "1" or 1.0 and capacity "10.0" or 10.0 loads as table 1 with capacity 10 |
| ExcelIO.MergeCanOverwrite | wedding_planner/excel_io.py:72-80 | a merging load can store a colliding table under an id an earlier row took without raising the counter, overwriting it |
| ExcelIO.GuestLayouts | wedding_planner/excel_io.py:87-93 | a row of five or more cells is read as id, name, category, size, table, with a missing size defaulting to 1; a four-cell row as id, name, category, table, with size 1 |
| ExcelIO.ResolveRefCases | wedding_planner/excel_io.py:100-108 | a missing or blank Table ID gives no table; an unparsable one gives no table; a number is coerced and, in a merging load, rewritten through the mapping |
| ExcelIO.GuestRowLinks | wedding_planner/excel_io.py:95-122 | a guest row stores the guest (under a fresh id on a merge collision), keeping the resolved table id even when that table is absent; only an existing table gets the guest appended; other tables are unchanged |
| ExcelIO.GuestRowBadSize | wedding_planner/excel_io.py:110-117 | a size cell that `int()` refuses stops the load, after the id has been taken from the counter on a merge collision |
| ExcelIO.LoadIgnoresCapacity | wedding_planner/excel_io.py:117-122 | a load can put two guests at a table of capacity 1 |
| ExcelIO.MetadataStep | wedding_planner/excel_io.py:124-139 | reading the Metadata row touches only the counters, and a failing row leaves the plan as it was |
| ExcelIO.MetadataCounters | wedding_planner/excel_io.py:124-139 | no row or an empty row changes nothing; a one-cell row stops the load; a replacing load takes both stored numbers as they are, and stops on one that is not a number; a merging load sets each counter to the larger of its own value and `int()` of the stored one, and the first failing `int()` silently ends the update |
| ExcelIO.Recount | wedding_planner/excel_io.py:141-145 | the recount changes only the counters; each ends above every key of its dictionary, never below its old value, and is either the old value or one past a key, so it is `max(counter, max(keys) + 1)` |
| ExcelIO.RecountAbove | wedding_planner/excel_io.py:141-145 | on a plan whose orders list its keys, the recount puts each counter above every key, without lowering it, and leaves it at its old value or one past a key, so no smaller counter would do |
| ExcelIO.LoadCountersAbove | wedding_planner/excel_io.py:44-145 | every load keeps the orders and keys consistent; a load that finishes leaves each counter above every key |
| ExcelRoundTrip.SaveLoadRoundTrip | wedding_planner/excel_io.py:7-145 | a replacing load of a saved consistent plan whose formulas were recalculated finishes with the same guests, orders, counters and tables; each table's list holds the same members, in guest order |
| ExcelIO.NonEmptyTexts | wedding_planner/excel_io.py:154 | the result holds exactly the `str()` of the non-empty cells of the row; with no empty cell, it is the row's texts in order |
| ExcelIO.NonEmptyTextsAppend | wedding_planner/excel_io.py:154 | the texts of two rows side by side are the first row's texts followed by the second's, so order and repeated titles are kept |
| ExcelIO.NonEmptyTextsCell | wedding_planner/excel_io.py:154 | one cell gives its `str()`, or nothing when it is empty |
| ExcelIO.GetHeaders | wedding_planner/excel_io.py:148-157 | a sheet with no rows has no headers |
| ExcelIO.GetHeadersExample | wedding_planner/excel_io.py:148-157 | the header row `Name, (empty), Size, Name` gives `Name, Size, Name` |
| ExcelIO.IndexOf | wedding_planner/excel_io.py:176-181 | `list.index`: absent exactly when the text is not a header; otherwise the first position that holds it |
| ExcelIO.FindColumnsFails | wedding_planner/excel_io.py:171-181 | the column lookup fails exactly when the group or count header, or a requested category header, is missing; otherwise each index points at its header |
| ExcelIO.ImportRowCases | wedding_planner/excel_io.py:183-205 | the importer skips empty rows, rows with a false group name and rows with a count of 0 or less; a count that `int()` refuses is 1; an added guest is named after the group, with the category cell when that is true, else the group name |
| ExcelIO.ImportGroupsToPlan | wedding_planner/excel_io.py:160-207 | the plan and the error after the row loop are those of `ImportSpec` on the old plan |
| ExcelIO.ImportAddsGuests | wedding_planner/excel_io.py:183-205 | importing into a valid plan keeps it valid and only adds unseated guests above the counter, leaving tables and existing guests alone |
| ExcelIO.ImportExample | wedding_planner/excel_io.py:160-207 | three group rows of sizes 3, 2 and 1 become guests 1, 2 and 3 with those sizes and their group names as categories |
| Gui.EditTableId | wedding_planner/gui.py:962-982 | the plan after the rename and its outcome are those of `RenameTableSpec`, and a valid plan stays valid |
| Gui.RenameOutcomes | wedding_planner/gui.py:962-979 | a taken id is refused and changes nothing; a completed rename stores the table under the new key at the end of the order, with its id changed; the old key goes; every listed guest points at the new id; the counter passes the new id |
| Gui.RenameKeepsValid | wedding_planner/gui.py:970-979 | a completed rename keeps a valid plan valid |
| Gui.EditGuestProperties | wedding_planner/gui.py:1038-1059 | the plan after the edit, and whether the guest was unseated, are those of `EditGuestSpec` |
| Gui.EditGuestRecheck | wedding_planner/gui.py:1044-1059 | the new fields are applied; the guest is unseated exactly when the other members plus the new size exceed the capacity; otherwise the tables are unchanged |
| Gui.EditGuestKeepsValid | wedding_planner/gui.py:1044-1059 | the edit with its recheck keeps a valid plan valid, for a guest not at table 0 |
| Gui.EditGuestAtTableZero | wedding_planner/gui.py:1052 | a guest at table 0 skips the recheck, so an edit can overfill that table |
| Gui.EditTableProperties | wedding_planner/gui.py:951-960 | the plan after the edit is `EditTableSpec`: for a non-empty name and a non-zero capacity both are set on that table, otherwise nothing changes |
| Gui.EditTableCapacity | wedding_planner/gui.py:951-960 | the edit sets the name and capacity and keeps the links; the plan stays valid exactly when the occupancy fits the new capacity |
| Gui.EditTableCanOverfill | wedding_planner/gui.py:954-958 | lowering a capacity below the occupancy is accepted and leaves an overfull table |
| Gui.AddToTableOutcome | wedding_planner/gui.py:990-1003 | for a non-empty name the guest is always created; it is seated, at the end of the list, exactly when the table exists and has room; otherwise the plan is the plan with the new unseated guest; a valid plan stays valid |
| Gui.AddGuestToTableDialog | wedding_planner/gui.py:990-1003 | the plan and the outcome after the dialog are those of `AddToTableSpec` |
| Gui.UpdateStats | wedding_planner/gui.py:252-263 | the tables figure is the number of tables; waiting is the total size of the unseated guests; seated plus waiting is the total |
| Gui.StatsWaiting | wedding_planner/gui.py:252-255 | waiting is the total size of the unseated guests; seated plus waiting is the total; with non-negative sizes both are between 0 and the total |
| Gui.StatsUsedIsSeated | wedding_planner/gui.py:252-259 | in a valid plan the seats used equal the seated total |
| Gui.StatsUsedWithinCapacity | wedding_planner/gui.py:258-259 | in a valid plan the seats used never exceed the total capacity |
| Gui.StatsExample | wedding_planner/gui.py:252-263 | one unseated party of 3 gives 0 seated, 3 in total, 3 waiting, and no tables |
| Gui.Seats | wedding_planner/gui.py:425-429 | every seat entry names a guest the table lists |
| Gui.SeatsCount | wedding_planner/gui.py:425-429 | the seat list has as many entries as the table's occupancy, each a listed guest |
| Gui.SeatsPerGuest | wedding_planner/gui.py:425-429 | each listed guest gets exactly `size` entries, and no other guest appears |
| Gui.Chairs | wedding_planner/gui.py:420-437 | a table has one chair per unit of positive capacity and none otherwise, and an occupied chair holds a listed guest |
| Gui.ChairOccupied | wedding_planner/gui.py:431-437 | chair `i` is occupied exactly when `i` is below the occupancy, and then by a listed guest |
| Gui.TableFill | wedding_planner/gui.py:387-396 | a table is drawn overfull exactly when its occupancy exceeds the capacity, full when it equals it, partly taken when it is positive and below, and vacant otherwise |
| Gui.FillOfValidPlan | wedding_planner/gui.py:387-396 | no table of a valid plan is drawn over capacity |

## Left out

- The workbook library, files and the file dialogs are not modelled. A
  workbook is a value with three optional sheets, and a sheet is a
  sequence of rows.
  - Reading with `data_only=True` returns a formula cell's cached value,
    which the spreadsheet application computes.
  - The round trip therefore loads `ExcelRoundTrip.Recalculated` of the
    saved workbook. It evaluates only the `=Tables!A<k>` formulas the save
    writes.
- JSON `save_to_file`/`load_from_file` (models.py:115-140) are file I/O.
  The dictionary round trip covers their modellable part.
- `wedding_planner/exporter.py` is a network client. `styles.py`,
  `main.py` and the rest of `gui.py` are not part of this model: tkinter
  widgets, drawing, drag-and-drop, zoom, the float geometry of seats and
  `fix_text`.
- Guests and tables are values inside the plan's maps, not shared objects.
  The aliasing of a returned `Guest` or `Table` with the one in the plan
  is not modelled.
- Floating point is not modelled. A float cell is `DecC(whole)`, keeping
  only what `int(float(...))` gives, and its `str()` and truthiness are
  taken as those of a whole number.
- The number parsing covers signs and digits. For `int(float(...))` it
  also accepts a decimal point with digits on either side and drops the
  fraction, so "1.5" gives 1 and ".5" gives 0. Python also accepts
  exponents, underscores, `inf`/`nan`, Unicode digits and other
  whitespace; those are not modelled.
- Boolean and date cells are not modelled, nor text cells that start with
  "=" and that the spreadsheet application would take for formulas.
- When `int(float(...))` fails on a table's capacity, x or y, the source
  keeps the raw cell. The model stores 0 for that field and for the ones
  after it.
- Names and categories read from non-text cells are stored as their
  `str()` text; the source keeps the raw value.
- A replacing load with a stored counter that is not a number (an empty
  cell or text): the source stores the raw value. When that counter's
  dictionary is non-empty, the recount's `max` raises. When it is empty,
  nothing raises during the load. The value stays until the next
  `add_guest` or `add_table` stores an entity under it and fails at
  `+= 1` (models.py:56-59, 69-72). The model stops the load with
  `MetadataNotNumber` and leaves both counters as they were.
- Python's `Guest(**d)` and `Table(**d)` do not check value types, so
  `{"id": 1, "name": None}` builds a guest with no name.
  `Entities.GuestFromDict` and `Entities.TableFromDict` give None for a
  value of the wrong kind, because the model's fields are typed.
- The workbook library stores `""` as a blank cell, which loads back as
  `None`. So in the source a guest whose name or category is `""` (the
  guest edit keeps an empty category on purpose) comes back as "None",
  and a `""` table reference comes back blank. The model keeps a `""`
  text cell as it is, so `ExcelRoundTrip.SaveLoadRoundTrip` holds for
  empty texts too, where the source's round trip does not.
- `guest_mapping` in `load_from_xlsx` is filled but never read, so it is
  left out.
- An uncaught exception is modelled as an error value that ends the
  operation, with the plan as far as it got: a row too short to unpack,
  `int()` of a bad size, a one-cell Metadata row, or a row too short for
  an import column.
- The documentation says reassigning a guest to its own table should not
  count it twice; the code counts it twice, and the model follows the code.
- Plan.SeatingPlan.AddGuest: preserves `Valid()` only for `size >= 0`.
  `Valid()` includes non-negative sizes, because a negative party would
  let a table hold more members than its capacity. The source does not
  reject negative sizes.
- Plan.SeatingPlan.AddTable: preserves `Valid()` only for
  `capacity >= 0`.
- Gui.EditGuestKeepsValid: excludes a guest at table 0, where the source
  skips the recheck and can overfill the table (`Gui.EditGuestAtTableZero`).
- ExcelRoundTrip.SaveLoadRoundTrip: needs no table with id 0, since the
  save writes `""` for a guest at table 0. It also needs `PlainTexts`:
  no guest name or category starts with "=". The spreadsheet application
  would read such text as a formula, which `Recalculated` does not
  evaluate.
- ExcelIO.ImportAddsGuests: requires a valid plan, where the source runs
  on any plan.
- Plan.SeatingPlan.AssignGuestToTable, Gui.EditTableId,
  Gui.EditGuestProperties, Gui.AddGuestToTableDialog, Gui.UpdateStats,
  Gui.Seats and Gui.Chairs: each requires that every guest the table
  lists is in the guests dictionary, wherever that code looks a listed
  guest up.
  - The source raises `KeyError` there (models.py:91, gui.py:259,
    gui.py:971-972, gui.py:1055, gui.py:387, gui.py:426-427).
  - The dialog handlers demand it only for an answer that reaches the
    lookup: a new free table id, an applied guest edit, or a given name.
    A cancelled or unchanged answer needs nothing.
  - A valid plan never lists a missing guest, but a merging load can
    lead to one. Take a plan with guest 1, table 5 and the guest counter
    at 2, and merge the Guests rows `[2, "X", "c", 1, 5]` and
    `[1, "Y", "c", 1, 7]`.
    - The first row is stored as guest 2, listed at table 5.
    - The second row collides with guest 1 and takes the counter's id 2.
      It overwrites guest 2 with a guest at table 7, which does not exist.
    - Deleting guest 2 then unseats it from table 7 only, so table 5
      still lists the missing id 2.
  - The model does not describe the state after such a `KeyError`.
    `edit_guest_properties` has already written the new name, category
    and size when it raises at gui.py:1054-1055.
