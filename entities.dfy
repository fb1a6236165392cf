/** The two records of the seating model, Guest and Table (the dataclasses
    of wedding_planner/models.py), and their conversion to and from a flat
    key-value record (`to_dict` / `from_dict`). */
module Entities {
  import opened Common

  /** A guest entry; `size` is the number of seats it takes (a party, not
      one person) and `tableId` the table it sits at, if any. */
  datatype Guest = Guest(id: int, name: string, category: string, tableId: Option<int>, size: int)

  /** A table; `guestIds` lists the guests sitting there in seating order. */
  datatype Table = Table(id: int, name: string, capacity: int, guestIds: seq<int>, x: int, y: int)

  /** A primitive value of a flat record (what `json` would hold). */
  datatype Value = VNone | VInt(i: int) | VStr(s: string) | VIds(ids: seq<int>)

  type Record = map<string, Value>

  const GuestFields: set<string> := {"id", "name", "category", "table_id", "size"}
  const TableFields: set<string> := {"id", "name", "capacity", "guest_ids", "x", "y"}

  function GuestToDict(g: Guest): Record
  {
    map["id" := VInt(g.id), "name" := VStr(g.name), "category" := VStr(g.category),
        "table_id" := (match g.tableId case None => VNone case Some(t) => VInt(t)),
        "size" := VInt(g.size)]
  }

  function TableToDict(t: Table): Record
  {
    map["id" := VInt(t.id), "name" := VStr(t.name), "capacity" := VInt(t.capacity),
        "guest_ids" := VIds(t.guestIds), "x" := VInt(t.x), "y" := VInt(t.y)]
  }

  /** The value under `key`, or the dataclass default when it is missing. */
  function FieldOr(d: Record, key: string, default: Value): Value
  {
    if key in d then d[key] else default
  }

  /** `Guest(**d)`: None where the constructor raises (an unknown key, or
      a missing `id` or `name`). A value not of the field's kind is also
      None here; the dataclass does not check types and would keep it.
      Missing optional fields take their defaults: category "General",
      no table, size 1. */
  function GuestFromDict(d: Record): Option<Guest>
  {
    if !(d.Keys <= GuestFields) || "id" !in d || "name" !in d then None
    else
      match (d["id"], d["name"], FieldOr(d, "category", VStr("General")),
             FieldOr(d, "table_id", VNone), FieldOr(d, "size", VInt(1)))
      case (VInt(id), VStr(name), VStr(category), VNone, VInt(size)) =>
        Some(Guest(id, name, category, None, size))
      case (VInt(id), VStr(name), VStr(category), VInt(t), VInt(size)) =>
        Some(Guest(id, name, category, Some(t), size))
      case _ => None
  }

  /** `Table(**d)`: None where the constructor raises (an unknown key, or a
      missing `id`, `name` or `capacity`). A value not of the field's kind
      is also None here, where the dataclass would keep it. Missing optional fields take their defaults: no guests,
      x = y = 0. */
  function TableFromDict(d: Record): Option<Table>
  {
    if !(d.Keys <= TableFields) || "id" !in d || "name" !in d || "capacity" !in d then None
    else
      match (d["id"], d["name"], d["capacity"], FieldOr(d, "guest_ids", VIds([])),
             FieldOr(d, "x", VInt(0)), FieldOr(d, "y", VInt(0)))
      case (VInt(id), VStr(name), VInt(capacity), VIds(ids), VInt(x), VInt(y)) =>
        Some(Table(id, name, capacity, ids, x, y))
      case _ => None
  }

  /** `Guest.from_dict(g.to_dict()) == g`. */
  lemma GuestDictRoundTrip(g: Guest)
    ensures GuestToDict(g).Keys == GuestFields
    ensures GuestFromDict(GuestToDict(g)) == Some(g)
  {
    var d := GuestToDict(g);
    assert d.Keys == GuestFields;
    assert d["id"] == VInt(g.id) && d["name"] == VStr(g.name);
  }

  /** `Table.from_dict(t.to_dict()) == t`. */
  lemma TableDictRoundTrip(t: Table)
    ensures TableToDict(t).Keys == TableFields
    ensures TableFromDict(TableToDict(t)) == Some(t)
  {
    var d := TableToDict(t);
    assert d.Keys == TableFields;
  }

  /** A record with only the required fields gets the dataclass defaults. */
  lemma FromDictDefaults(id: int, name: string, capacity: int)
    ensures GuestFromDict(map["id" := VInt(id), "name" := VStr(name)])
         == Some(Guest(id, name, "General", None, 1))
    ensures TableFromDict(map["id" := VInt(id), "name" := VStr(name), "capacity" := VInt(capacity)])
         == Some(Table(id, name, capacity, [], 0, 0))
  {
    var d := map["id" := VInt(id), "name" := VStr(name)];
    assert d.Keys == {"id", "name"};
    var e := map["id" := VInt(id), "name" := VStr(name), "capacity" := VInt(capacity)];
    assert e.Keys == {"id", "name", "capacity"};
  }

  /** An unknown key makes the constructor raise. */
  lemma FromDictRejectsUnknownKey(d: Record, key: string)
    requires key in d
    ensures key !in GuestFields ==> GuestFromDict(d) == None
    ensures key !in TableFields ==> TableFromDict(d) == None
  {
  }
}
