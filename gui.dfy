/** The plan edits that the user interface (wedding_planner/gui.py) makes
    directly on a plan's dictionaries, bypassing `SeatingPlan`, with the
    dialog answers as parameters: renaming a table's id, editing a guest
    (with the capacity recheck after a size change), editing a table's
    name and capacity, and adding a new guest straight to a table. Also
    the figures of the status bar and the seat list of a drawn table.

    A dialog answer is an `Option`: None when the dialog is cancelled. */
module Gui {
  import opened Common
  import opened Entities
  import opened Plan

  // =======================================================================
  // Occupancy over guest maps that agree on the listed guests

  lemma {:induction false} OccupancyAgree(a: map<int, Guest>, b: map<int, Guest>, ids: seq<int>)
    requires MembersKnown(a, ids)
    requires forall k :: k in ids ==> k in b && b[k].size == a[k].size
    ensures MembersKnown(b, ids)
    ensures Occupancy(a, ids) == Occupancy(b, ids)
  {
    if |ids| > 0 {
      assert ids[0] in ids;
      assert forall k :: k in ids[1..] ==> k in ids;
      OccupancyAgree(a, b, ids[1..]);
    }
  }

  // =======================================================================
  // Renaming a table's id (`edit_table_id`)

  /** Points every listed guest at table `n`, in list order. */
  function Repoint(guests: map<int, Guest>, ids: seq<int>, n: int): (r: map<int, Guest>)
    requires MembersKnown(guests, ids)
    ensures r.Keys == guests.Keys
    ensures forall k :: k in guests ==> r[k] == if k in ids then guests[k].(tableId := Some(n)) else guests[k]
  {
    if |ids| == 0 then guests
    else
      var init := ids[..|ids| - 1];
      var last := ids[|ids| - 1];
      assert last in ids;
      assert forall k :: k in ids <==> k in init || k == last;
      var m := Repoint(guests, init, n);
      m[last := m[last].(tableId := Some(n))]
  }

  datatype RenameOutcome = Unchanged | IdTaken | Renamed

  /** The table under `tid` moved to the key `n`: its guests point at `n`,
      it is stored under `n` (a new dictionary key, so at the end of the
      order), the old key is deleted and the counter passes `n`. */
  function Rekey(s: PlanState, tid: int, n: int): PlanState
    requires tid in s.tables && MembersKnown(s.guests, s.tables[tid].guestIds)
  {
    var table := s.tables[tid];
    var tables := s.tables[n := table.(id := n)];
    s.(guests := Repoint(s.guests, table.guestIds, n),
       tables := tables - {tid},
       tableOrder := RemoveFirst(Put(s.tableOrder, n), tid),
       nextTableId := if n >= s.nextTableId then n + 1 else s.nextTableId)
  }

  /** What `edit_table_id` demands: the table exists, and when the answer
      is a new id that is free, every guest the table lists is known (each
      is re-pointed at the new id). A cancelled, zero, unchanged or taken
      answer looks up no guest. */
  predicate CanRename(s: PlanState, tid: int, newId: Option<int>)
  {
    tid in s.tables &&
    (newId.Some? && newId.value != 0 && newId.value != s.tables[tid].id && newId.value !in s.tables ==>
       MembersKnown(s.guests, s.tables[tid].guestIds))
  }

  /** `edit_table_id(table_id)` with the dialog's answer `newId`. Nothing
      happens for a cancelled or zero answer or the table's own id; an id
      that is already a table key is refused; otherwise the table is
      re-keyed. */
  function RenameTableSpec(s: PlanState, tid: int, newId: Option<int>): (PlanState, RenameOutcome)
    requires CanRename(s, tid, newId)
  {
    var table := s.tables[tid];
    if newId.None? || newId.value == 0 || newId.value == table.id then (s, Unchanged)
    else if newId.value in s.tables then (s, IdTaken)
    else (Rekey(s, tid, newId.value), Renamed)
  }

  /** The rename is refused exactly for a taken id, and only a completed
      rename changes anything: the table, with its id changed, is stored
      under the new key at the end of the order, its guests point at it,
      every other table is untouched and the counter exceeds the new id. */
  lemma RenameOutcomes(s: PlanState, tid: int, newId: Option<int>)
    requires s.Ordered() && CanRename(s, tid, newId)
    ensures var (r, outcome) := RenameTableSpec(s, tid, newId);
      && (outcome == IdTaken <==>
            newId.Some? && newId.value != 0 && newId.value != s.tables[tid].id && newId.value in s.tables)
      && (outcome != Renamed ==> r == s)
      && (outcome == Renamed ==>
            var n := newId.value;
            && n != tid
            && r.tables.Keys == s.tables.Keys - {tid} + {n}
            && r.tables[n] == s.tables[tid].(id := n)
            && (forall u :: u in s.tables && u != tid ==> r.tables[u] == s.tables[u])
            && r.tableOrder == RemoveFirst(s.tableOrder, tid) + [n]
            && (forall k :: k in s.tables[tid].guestIds ==> r.guests[k].tableId == Some(n))
            && r.guests.Keys == s.guests.Keys && r.guestOrder == s.guestOrder
            && r.nextTableId > n && r.nextTableId >= s.nextTableId && r.nextGuestId == s.nextGuestId)
  {
    var (r, outcome) := RenameTableSpec(s, tid, newId);
    if outcome == Renamed {
      var n := newId.value;
      assert n !in s.tableOrder;
      RemoveFirstAppend(s.tableOrder, tid, n);
    }
  }

  /** Re-keying keeps the two-way links between guests and tables. */
  lemma RekeyKeepsLinks(s: PlanState, tid: int, n: int)
    requires s.Consistent() && tid in s.tables && n !in s.tables
    ensures Rekey(s, tid, n).Linked()
  {
    var table := s.tables[tid];
    var ids := table.guestIds;
    var r := Rekey(s, tid, n);
    assert r.tables == s.tables[n := table.(id := n)] - {tid};
    assert r.SeatedAreListed() by {
      forall k | k in r.guests && r.guests[k].tableId.Some?
        ensures r.guests[k].tableId.value in r.tables && k in r.tables[r.guests[k].tableId.value].guestIds
      {
        if k !in ids {
          var u := s.guests[k].tableId.value;
          assert u != tid;
        }
      }
    }
    assert r.ListedAreSeated() by {
      forall u, g | u in r.tables && g in r.tables[u].guestIds
        ensures g in r.guests && r.guests[g].tableId == Some(u)
      {
        if u != n {
          assert g in s.tables[u].guestIds;
          assert s.guests[g].tableId == Some(u);
          assert g !in ids;
        }
      }
    }
  }

  /** Re-keying changes no list and no size, so no occupancy. */
  lemma RekeyKeepsCapacity(s: PlanState, tid: int, n: int)
    requires s.Valid() && tid in s.tables && n !in s.tables
    ensures Rekey(s, tid, n).WithinCapacity()
  {
    var table := s.tables[tid];
    var ids := table.guestIds;
    var r := Rekey(s, tid, n);
    assert r.tables == s.tables[n := table.(id := n)] - {tid};
    assert SameSizes(s.guests, r.guests);
    forall u | u in r.tables && MembersKnown(r.guests, r.tables[u].guestIds)
      ensures Occupancy(r.guests, r.tables[u].guestIds) <= r.tables[u].capacity
    {
      var us := if u == n then ids else s.tables[u].guestIds;
      assert MembersKnown(s.guests, us);
      OccupancyFrame(s.guests, r.guests, us);
    }
  }

  /** A completed rename keeps a valid plan valid. */
  lemma RenameKeepsValid(s: PlanState, tid: int, newId: Option<int>)
    requires s.Valid() && tid in s.tables
    requires RenameTableSpec(s, tid, newId).1 == Renamed
    ensures RenameTableSpec(s, tid, newId).0.Valid()
  {
    var n := newId.value;
    var table := s.tables[tid];
    var r := Rekey(s, tid, n);
    PutEnumerates(s.tableOrder, s.tables, n, table.(id := n));
    RemoveEnumerates(Put(s.tableOrder, n), s.tables[n := table.(id := n)], tid);
    assert r.tables == s.tables[n := table.(id := n)] - {tid};
    assert r.Ordered();
    assert r.KeysMatch();
    RekeyKeepsLinks(s, tid, n);
    RekeyKeepsCapacity(s, tid, n);
  }

  /** The guest loop of `edit_table_id`. */
  method RepointGuests(plan: SeatingPlan, ids: seq<int>, n: int)
    requires MembersKnown(plan.guests, ids)
    modifies plan
    ensures plan.State() == old(plan.State()).(guests := Repoint(old(plan.guests), ids, n))
  {
    ghost var before := plan.State();
    var i := 0;
    while i < |ids|
      invariant 0 <= i <= |ids|
      invariant MembersKnown(before.guests, ids[..i])
      invariant plan.State() == before.(guests := Repoint(before.guests, ids[..i], n))
    {
      assert ids[..i + 1][..i] == ids[..i];
      assert ids[i] in ids;
      var guestId := ids[i];
      plan.guests := plan.guests[guestId := plan.guests[guestId].(tableId := Some(n))];
      i := i + 1;
    }
    assert ids[..i] == ids;
  }

  /** `edit_table_id(table_id)` with the dialog's answer `newId`. */
  method EditTableId(plan: SeatingPlan, tableId: int, newId: Option<int>) returns (outcome: RenameOutcome)
    requires plan.Ordered() && CanRename(plan.State(), tableId, newId)
    modifies plan
    ensures (plan.State(), outcome) == RenameTableSpec(old(plan.State()), tableId, newId)
    ensures plan.Ordered()
    ensures old(plan.Valid()) ==> plan.Valid()
  {
    ghost var before := plan.State();
    var table := plan.tables[tableId];
    if newId.None? || newId.value == 0 || newId.value == table.id {
      return Unchanged;
    }
    var n := newId.value;
    if n in plan.tables {
      return IdTaken;
    }
    RepointGuests(plan, table.guestIds, n);
    var tables := plan.tables[n := table.(id := n)];
    var order := Put(plan.tableOrder, n);
    PutEnumerates(plan.tableOrder, plan.tables, n, table.(id := n));
    RemoveEnumerates(order, tables, tableId);
    plan.tables := tables - {tableId};
    plan.tableOrder := RemoveFirst(order, tableId);
    if n >= plan.nextTableId {
      plan.nextTableId := n + 1;
    }
    assert plan.State() == Rekey(before, tableId, n);
    outcome := Renamed;
    if before.Valid() {
      RenameKeepsValid(before, tableId, newId);
    }
  }

  // =======================================================================
  // Editing a guest (`edit_guest_properties`)

  /** What the capacity recheck demands: a guest seated at a table id that
      is true (not 0) sits at a known table whose guests are all known. */
  predicate CanRecheck(s: PlanState, gid: int)
  {
    gid in s.guests &&
    var t := s.guests[gid].tableId;
    t.Some? && t.value != 0 ==> t.value in s.tables && MembersKnown(s.guests, s.tables[t.value].guestIds)
  }

  /** The answers of the three dialogs of `edit_guest_properties` are
      applied: a non-empty name, a category that was not cancelled (the
      empty one is kept) and a non-zero size. */
  predicate EditAccepted(newName: Option<string>, newCategory: Option<string>, newSize: Option<int>)
  {
    newName.Some? && newName.value != "" && newCategory.Some? && newSize.Some? && newSize.value != 0
  }

  /** What `edit_guest_properties` demands: the guest exists, and the
      recheck's lookups succeed when the answers are applied. */
  predicate CanEdit(s: PlanState, gid: int, newName: Option<string>, newCategory: Option<string>,
                    newSize: Option<int>)
  {
    gid in s.guests && (EditAccepted(newName, newCategory, newSize) ==> CanRecheck(s, gid))
  }

  /** The guest with its three edited fields. */
  function Edited(g: Guest, name: string, category: string, size: int): Guest
  {
    g.(name := name, category := category, size := size)
  }

  /** `edit_guest_properties(guest_id)` with the answers of its three
      dialogs; the flag says whether the guest was unseated. The edit is
      applied only for a non-empty name, a category that was not cancelled
      (the empty one is kept) and a non-zero size. Then, when the guest's
      table id is true, the table's occupancy is measured with the new size
      and the guest is unseated if it exceeds the capacity. */
  function EditGuestSpec(s: PlanState, gid: int, newName: Option<string>, newCategory: Option<string>,
                         newSize: Option<int>): (PlanState, bool)
    requires CanEdit(s, gid, newName, newCategory, newSize)
  {
    if !EditAccepted(newName, newCategory, newSize) then (s, false)
    else
      var g := Edited(s.guests[gid], newName.value, newCategory.value, newSize.value);
      var s1 := s.(guests := s.guests[gid := g]);
      if g.tableId.Some? && g.tableId.value != 0 then
        var t := g.tableId.value;
        assert s1.guests.Keys == s.guests.Keys;
        if Occupancy(s1.guests, s1.tables[t].guestIds) > s1.tables[t].capacity then (UnseatSpec(s1, gid), true)
        else (s1, false)
      else (s1, false)
  }

  /** Changing the name, category and size of a guest that no table lists
      keeps the plan valid. */
  lemma EditUnlistedKeepsValid(s: PlanState, gid: int, name: string, category: string, size: int)
    requires s.Valid() && gid in s.guests && s.guests[gid].tableId.None? && size >= 0
    ensures s.(guests := s.guests[gid := Edited(s.guests[gid], name, category, size)]).Valid()
  {
    var r := s.(guests := s.guests[gid := Edited(s.guests[gid], name, category, size)]);
    forall u | u in s.tables ensures gid !in s.tables[u].guestIds {
    }
    forall u | u in r.tables && MembersKnown(r.guests, r.tables[u].guestIds)
      ensures Occupancy(r.guests, r.tables[u].guestIds) <= r.tables[u].capacity
    {
      assert MembersKnown(s.guests, s.tables[u].guestIds);
      OccupancyAgree(s.guests, r.guests, s.tables[u].guestIds);
    }
  }

  /** Resizing a seated guest whose table still has room keeps the plan
      valid. */
  lemma EditSeatedKeepsValid(s: PlanState, gid: int, name: string, category: string, size: int)
    requires s.Valid() && gid in s.guests && s.guests[gid].tableId.Some? && size >= 0
    requires var r := s.(guests := s.guests[gid := Edited(s.guests[gid], name, category, size)]);
      var t := s.guests[gid].tableId.value;
      MembersKnown(r.guests, r.tables[t].guestIds) &&
      Occupancy(r.guests, r.tables[t].guestIds) <= r.tables[t].capacity
    ensures s.(guests := s.guests[gid := Edited(s.guests[gid], name, category, size)]).Valid()
  {
    var r := s.(guests := s.guests[gid := Edited(s.guests[gid], name, category, size)]);
    var t := s.guests[gid].tableId.value;
    forall u | u in r.tables && MembersKnown(r.guests, r.tables[u].guestIds)
      ensures Occupancy(r.guests, r.tables[u].guestIds) <= r.tables[u].capacity
    {
      if u != t {
        assert gid !in s.tables[u].guestIds;
        assert MembersKnown(s.guests, s.tables[u].guestIds);
        OccupancyAgree(s.guests, r.guests, s.tables[u].guestIds);
      }
    }
  }

  /** Except at a table with id 0 (which is false, so no recheck happens),
      a size edit keeps a valid plan valid: the guest stays seated only
      when its table still has room. */
  lemma EditGuestKeepsValid(s: PlanState, gid: int, newName: Option<string>, newCategory: Option<string>,
                            newSize: Option<int>)
    requires s.Valid() && gid in s.guests && s.guests[gid].tableId != Some(0)
    requires newSize.Some? ==> newSize.value >= 0
    ensures CanRecheck(s, gid)
    ensures EditGuestSpec(s, gid, newName, newCategory, newSize).0.Valid()
  {
    var (r, unseated) := EditGuestSpec(s, gid, newName, newCategory, newSize);
    if r != s {
      var g := s.guests[gid];
      var e := Edited(g, newName.value, newCategory.value, newSize.value);
      if g.tableId.None? {
        EditUnlistedKeepsValid(s, gid, newName.value, newCategory.value, newSize.value);
      } else if !unseated {
        EditSeatedKeepsValid(s, gid, newName.value, newCategory.value, newSize.value);
      } else {
        var u := UnseatSpec(s, gid);
        UnseatKeepsValid(s, gid);
        UnseatEffect(s, gid);
        EditUnlistedKeepsValid(u, gid, newName.value, newCategory.value, newSize.value);
        assert r == u.(guests := u.guests[gid := Edited(u.guests[gid], newName.value, newCategory.value, newSize.value)]);
      }
    }
  }

  /** For a guest of a valid plan seated at a table with a true id, the
      edit unseats it exactly when the others at its table plus its new
      size exceed the capacity; the guest keeps the new name, category and
      size either way. */
  lemma EditGuestRecheck(s: PlanState, gid: int, name: string, category: string, size: int)
    requires s.Valid() && gid in s.guests && s.guests[gid].tableId.Some? && s.guests[gid].tableId.value != 0
    requires name != "" && size != 0
    ensures CanRecheck(s, gid)
    ensures var t := s.guests[gid].tableId.value;
      var (r, unseated) := EditGuestSpec(s, gid, Some(name), Some(category), Some(size));
      && MembersKnown(s.guests, RemoveFirst(s.tables[t].guestIds, gid))
      && (unseated <==> Occupancy(s.guests, RemoveFirst(s.tables[t].guestIds, gid)) + size > s.tables[t].capacity)
      && r.guests[gid] == Guest(gid, name, category, if unseated then None else Some(t), size)
      && (!unseated ==> r.tables == s.tables)
      && (unseated ==> r.tables == s.tables[t := s.tables[t].(guestIds := RemoveFirst(s.tables[t].guestIds, gid))])
  {
    var t := s.guests[gid].tableId.value;
    var ids := s.tables[t].guestIds;
    var e := Edited(s.guests[gid], name, category, size);
    var guests1 := s.guests[gid := e];
    assert MembersKnown(guests1, ids);
    OccupancyRemoveFirst(s.guests, ids, gid);
    OccupancyRemoveFirst(guests1, ids, gid);
    RemoveFirstNoDup(ids, gid);
    OccupancyAgree(s.guests, guests1, RemoveFirst(ids, gid));
  }

  /** The allow-then-correct policy fails at table 0: no recheck happens
      there, so a size edit can overfill that table. */
  lemma EditGuestAtTableZero()
    ensures var s := PlanState(map[1 := Guest(1, "Cohen", "Family", Some(0), 2)],
                               map[0 := Table(0, "Zero", 2, [1], 0, 0)], [1], [0], 2, 1);
      var (r, unseated) := EditGuestSpec(s, 1, Some("Cohen"), Some("Family"), Some(3));
      s.Valid() && !unseated && !r.WithinCapacity()
  {
    var s := PlanState(map[1 := Guest(1, "Cohen", "Family", Some(0), 2)],
                       map[0 := Table(0, "Zero", 2, [1], 0, 0)], [1], [0], 2, 1);
    var r := EditGuestSpec(s, 1, Some("Cohen"), Some("Family"), Some(3)).0;
    assert [1][1..] == [];
    assert Occupancy(s.guests, [1]) == 2;
    assert Occupancy(r.guests, [1]) == 3;
    assert s.ListedAreSeated() by {
      forall t, g | t in s.tables && g in s.tables[t].guestIds ensures g in s.guests && s.guests[g].tableId == Some(t) {
        assert t == 0 && g == 1;
      }
    }
  }

  /** `edit_guest_properties(guest_id)` with the answers of its three
      dialogs; returns whether the guest was unseated. */
  method EditGuestProperties(plan: SeatingPlan, guestId: int, newName: Option<string>,
                             newCategory: Option<string>, newSize: Option<int>) returns (unseated: bool)
    requires plan.Ordered() && CanEdit(plan.State(), guestId, newName, newCategory, newSize)
    modifies plan
    ensures (plan.State(), unseated) == EditGuestSpec(old(plan.State()), guestId, newName, newCategory, newSize)
    ensures plan.Ordered()
  {
    ghost var before := plan.State();
    var guest := plan.guests[guestId];
    unseated := false;
    if EditAccepted(newName, newCategory, newSize) {
      var edited := Edited(guest, newName.value, newCategory.value, newSize.value);
      plan.guests := plan.guests[guestId := edited];
      if edited.tableId.Some? && edited.tableId.value != 0 {
        var table := plan.tables[edited.tableId.value];
        var occupancy := Occupancy(plan.guests, table.guestIds);
        if occupancy > table.capacity {
          plan.UnseatGuest(guestId);
          unseated := true;
        }
      }
    }
  }

  // =======================================================================
  // Editing a table (`edit_table_properties`)

  /** `edit_table_properties(table_id)` with the answers of its two
      dialogs: for a non-empty name and a non-zero capacity both are set,
      with no look at the table's occupancy. */
  function EditTableSpec(s: PlanState, tid: int, newName: Option<string>, newCapacity: Option<int>): PlanState
    requires tid in s.tables
  {
    if newName.Some? && newName.value != "" && newCapacity.Some? && newCapacity.value != 0 then
      s.(tables := s.tables[tid := s.tables[tid].(name := newName.value, capacity := newCapacity.value)])
    else s
  }

  /** The edit keeps the links, and keeps the plan valid exactly when the
      table's occupancy fits the new capacity. */
  lemma EditTableCapacity(s: PlanState, tid: int, name: string, capacity: int)
    requires s.Valid() && tid in s.tables && name != "" && capacity != 0
    ensures MembersKnown(s.guests, s.tables[tid].guestIds)
    ensures var r := EditTableSpec(s, tid, Some(name), Some(capacity));
      && r.Consistent()
      && r.tables[tid] == s.tables[tid].(name := name, capacity := capacity)
      && (r.Valid() <==> Occupancy(s.guests, s.tables[tid].guestIds) <= capacity)
  {
    var ids := s.tables[tid].guestIds;
    assert MembersKnown(s.guests, ids);
    var r := EditTableSpec(s, tid, Some(name), Some(capacity));
    RetableKeepsConsistent(s, tid, r);
    RetableFits(s, tid, r);
  }

  /** Changing a table's name and capacity keeps every invariant but the
      capacity bound. */
  lemma RetableKeepsConsistent(s: PlanState, tid: int, r: PlanState)
    requires s.Consistent() && tid in s.tables
    requires r.guests == s.guests && r.guestOrder == s.guestOrder && r.tableOrder == s.tableOrder
    requires r.nextGuestId == s.nextGuestId && r.nextTableId == s.nextTableId
    requires r.tables.Keys == s.tables.Keys
    requires forall t :: t in s.tables ==> r.tables[t].id == s.tables[t].id && r.tables[t].guestIds == s.tables[t].guestIds
    ensures r.Consistent()
  {
    assert r.Ordered();
    assert r.KeysMatch();
    assert r.CountersAbove();
    assert r.SizesNonNegative();
    assert r.SeatedAreListed() by {
      forall k | k in r.guests && r.guests[k].tableId.Some?
        ensures r.guests[k].tableId.value in r.tables && k in r.tables[r.guests[k].tableId.value].guestIds
      {
        var t := s.guests[k].tableId.value;
        assert t in s.tables && r.tables[t].guestIds == s.tables[t].guestIds;
      }
    }
    assert r.NoDupMembers();
    assert r.ListedAreSeated() by {
      forall t, g | t in r.tables && g in r.tables[t].guestIds ensures g in r.guests && r.guests[g].tableId == Some(t) {
        assert g in s.tables[t].guestIds;
      }
    }
  }

  /** After a capacity change the bound holds exactly when the changed
      table's guests fit its new capacity. */
  lemma RetableFits(s: PlanState, tid: int, r: PlanState)
    requires s.WithinCapacity() && tid in s.tables && MembersKnown(s.guests, s.tables[tid].guestIds)
    requires r.guests == s.guests && r.tables.Keys == s.tables.Keys
    requires forall t :: t in s.tables && t != tid ==> r.tables[t] == s.tables[t]
    requires r.tables[tid].guestIds == s.tables[tid].guestIds
    ensures r.WithinCapacity() <==> Occupancy(s.guests, s.tables[tid].guestIds) <= r.tables[tid].capacity
  {
  }

  /** A capacity edit can leave a table holding more than it seats. */
  lemma EditTableCanOverfill()
    ensures var s := PlanState(map[1 := Guest(1, "Levi", "Friends", Some(1), 3)],
                               map[1 := Table(1, "Table 1", 10, [1], 100, 100)], [1], [1], 2, 2);
      var r := EditTableSpec(s, 1, Some("Table 1"), Some(2));
      s.Valid() && !r.WithinCapacity()
  {
    var s := PlanState(map[1 := Guest(1, "Levi", "Friends", Some(1), 3)],
                       map[1 := Table(1, "Table 1", 10, [1], 100, 100)], [1], [1], 2, 2);
    assert [1][1..] == [];
    assert Occupancy(s.guests, [1]) == 3;
    assert s.Ordered() && s.KeysMatch() && s.CountersAbove() && s.SizesNonNegative();
    assert s.SeatedAreListed() && s.NoDupMembers();
    assert s.ListedAreSeated() by {
      forall t, g | t in s.tables && g in s.tables[t].guestIds ensures g in s.guests && s.guests[g].tableId == Some(t) {
        assert t == 1 && g == 1;
      }
    }
    assert s.WithinCapacity();
    var r := EditTableSpec(s, 1, Some("Table 1"), Some(2));
    assert r.tables[1].guestIds == [1] && r.tables[1].capacity == 2;
    assert MembersKnown(r.guests, [1]) && Occupancy(r.guests, [1]) == 3;
  }

  method EditTableProperties(plan: SeatingPlan, tableId: int, newName: Option<string>, newCapacity: Option<int>)
    requires plan.Ordered() && tableId in plan.tables
    modifies plan
    ensures plan.State() == EditTableSpec(old(plan.State()), tableId, newName, newCapacity)
    ensures plan.Ordered()
  {
    var table := plan.tables[tableId];
    if newName.Some? && newName.value != "" {
      if newCapacity.Some? && newCapacity.value != 0 {
        plan.tables := plan.tables[tableId := table.(name := newName.value, capacity := newCapacity.value)];
      }
    }
  }

  // =======================================================================
  // Adding a guest straight to a table (`add_guest_to_table_dialog`)

  datatype DialogOutcome = Cancelled | Seated | LeftUnseated

  /** The category and size the dialog passes on: an empty or cancelled
      category is "General", a zero or cancelled size is 1. */
  function DialogCategory(category: Option<string>): string
  {
    if category.Some? && category.value != "" then category.value else "General"
  }

  function DialogSize(size: Option<int>): int
  {
    if size.Some? && size.value != 0 then size.value else 1
  }

  /** What `add_guest_to_table_dialog` demands: when a name is given and
      the table exists, every guest it lists is known (the new guest's
      placement measures the table). */
  predicate CanAddToTable(s: PlanState, tid: int, name: Option<string>)
  {
    name.Some? && name.value != "" && tid in s.tables ==> MembersKnown(s.guests, s.tables[tid].guestIds)
  }

  /** `add_guest_to_table_dialog(table_id)` with the answers of its three
      dialogs: for a non-empty name the guest is created, then seated at
      the table if it has room; a guest that does not fit stays in the
      plan, unseated. */
  function AddToTableSpec(s: PlanState, tid: int, name: Option<string>, category: Option<string>,
                          size: Option<int>): (PlanState, DialogOutcome)
    requires CanAddToTable(s, tid, name)
  {
    if name.None? || name.value == "" then (s, Cancelled)
    else
      var s1 := AddGuestSpec(s, name.value, DialogCategory(category), DialogSize(size));
      assert s1.guests.Keys >= s.guests.Keys;
      var (r, ok) := AssignSpec(s1, s.nextGuestId, tid);
      (r, if ok then Seated else LeftUnseated)
  }

  /** The dialog always creates the guest. It is seated, at the end of the
      table's list, exactly when the table exists and has room for it; any
      other time the plan is just the plan with the new unseated guest. A
      valid plan stays valid. */
  lemma AddToTableOutcome(s: PlanState, tid: int, name: string, category: Option<string>, size: Option<int>)
    requires s.Valid() && name != ""
    requires size.Some? ==> size.value >= 0
    ensures tid in s.tables ==> MembersKnown(s.guests, s.tables[tid].guestIds)
    ensures var (r, outcome) := AddToTableSpec(s, tid, Some(name), category, size);
      var id := s.nextGuestId;
      var sz := DialogSize(size);
      && id !in s.guests && id in r.guests
      && r.guests[id].name == name && r.guests[id].category == DialogCategory(category) && r.guests[id].size == sz
      && r.Valid()
      && (outcome == Seated <==>
            tid in s.tables && Occupancy(s.guests, s.tables[tid].guestIds) + sz <= s.tables[tid].capacity)
      && (outcome == Seated ==>
            r.guests[id].tableId == Some(tid) && r.tables[tid].guestIds == s.tables[tid].guestIds + [id])
      && (outcome == LeftUnseated ==> r == AddGuestSpec(s, name, DialogCategory(category), sz))
  {
    var id := s.nextGuestId;
    var sz := DialogSize(size);
    var s1 := AddGuestSpec(s, name, DialogCategory(category), sz);
    AddGuestAllocates(s, name, DialogCategory(category), sz);
    AddGuestKeepsValid(s, name, DialogCategory(category), sz);
    if tid in s.tables {
      NewGuestAddsNoLoad(s, s1, id, tid);
    }
    AssignOutcome(s1, id, tid);
    AssignKeepsValid(s1, id, tid);
    var (r, ok) := AssignSpec(s1, id, tid);
    assert AddToTableSpec(s, tid, Some(name), category, size) == (r, if ok then Seated else LeftUnseated);
    if ok {
      AssignMovesTarget(s1, id, tid);
    }
  }

  /** A guest just created is at no table, so no table's occupancy counts
      it. */
  lemma NewGuestAddsNoLoad(s: PlanState, s1: PlanState, id: int, tid: int)
    requires s.Linked() && tid in s.tables && MembersKnown(s.guests, s.tables[tid].guestIds)
    requires id !in s.guests && s1.guests.Keys == s.guests.Keys + {id}
    requires forall k :: k in s.guests ==> s1.guests[k] == s.guests[k]
    ensures id !in s.tables[tid].guestIds
    ensures Occupancy(s1.guests, s.tables[tid].guestIds) == Occupancy(s.guests, s.tables[tid].guestIds)
  {
    var ids := s.tables[tid].guestIds;
    forall g | g in ids ensures g != id {
      assert g in s.guests;
    }
    assert MembersKnown(s1.guests, ids);
    OccupancyDropUnlisted(s1.guests, id, ids);
    var rest := s1.guests - {id};
    assert rest.Keys == s.guests.Keys;
    forall k | k in rest ensures rest[k] == s.guests[k] {
      assert k in s.guests;
    }
    assert rest == s.guests;
  }

  method AddGuestToTableDialog(plan: SeatingPlan, tableId: int, name: Option<string>, category: Option<string>,
                               size: Option<int>) returns (outcome: DialogOutcome)
    requires plan.Ordered() && CanAddToTable(plan.State(), tableId, name)
    modifies plan
    ensures (plan.State(), outcome) == AddToTableSpec(old(plan.State()), tableId, name, category, size)
    ensures plan.Ordered()
    ensures old(plan.Valid()) && (size.Some? ==> size.value >= 0) ==> plan.Valid()
  {
    ghost var before := plan.State();
    if name.None? || name.value == "" {
      return Cancelled;
    }
    var groupCategory := if category.Some? && category.value != "" then category.value else "General";
    var groupSize := if size.Some? && size.value != 0 then size.value else 1;
    var guest := plan.AddGuest(name.value, groupCategory, groupSize);
    var success := plan.AssignGuestToTable(guest.id, tableId);
    outcome := if success then Seated else LeftUnseated;
    if before.Valid() && (size.Some? ==> size.value >= 0) {
      AddToTableOutcome(before, tableId, name.value, category, size);
    }
  }

  // =======================================================================
  // The status bar (`update_stats`)

  /** The total size of the listed guests. */
  function SizeTotal(guests: map<int, Guest>, order: seq<int>): int
    requires MembersKnown(guests, order)
  {
    if |order| == 0 then 0
    else
      var head := order[0];
      assert head in order;
      assert forall k :: k in order[1..] ==> k in order;
      guests[head].size + SizeTotal(guests, order[1..])
  }

  /** The total size of the listed guests that sit at a table. */
  function SeatedTotal(guests: map<int, Guest>, order: seq<int>): int
    requires MembersKnown(guests, order)
  {
    if |order| == 0 then 0
    else
      var head := order[0];
      assert head in order;
      assert forall k :: k in order[1..] ==> k in order;
      (if guests[head].tableId.Some? then guests[head].size else 0) + SeatedTotal(guests, order[1..])
  }

  /** The total size of the listed guests that sit nowhere. */
  function UnseatedTotal(guests: map<int, Guest>, order: seq<int>): int
    requires MembersKnown(guests, order)
  {
    if |order| == 0 then 0
    else
      var head := order[0];
      assert head in order;
      assert forall k :: k in order[1..] ==> k in order;
      (if guests[head].tableId.None? then guests[head].size else 0) + UnseatedTotal(guests, order[1..])
  }

  /** Every table's guests can be looked up. */
  predicate TablesKnown(guests: map<int, Guest>, tables: map<int, Table>, order: seq<int>)
  {
    forall t :: t in order ==> t in tables && MembersKnown(guests, tables[t].guestIds)
  }

  /** The total capacity of the listed tables. */
  function CapacityTotal(tables: map<int, Table>, order: seq<int>): int
    requires forall t :: t in order ==> t in tables
  {
    if |order| == 0 then 0
    else
      var head := order[0];
      assert head in order;
      tables[head].capacity + CapacityTotal(tables, order[1..])
  }

  /** The total occupancy of the listed tables. */
  function UsedTotal(guests: map<int, Guest>, tables: map<int, Table>, order: seq<int>): int
    requires TablesKnown(guests, tables, order)
  {
    if |order| == 0 then 0
    else
      var head := order[0];
      assert head in order;
      Occupancy(guests, tables[head].guestIds) + UsedTotal(guests, tables, order[1..])
  }

  datatype Stats = Stats(seatedGuests: int, totalGuests: int, unseated: int,
                         totalTables: int, totalOccupancy: int, totalCapacity: int)

  /** What demands `update_stats` makes of the plan: its orders enumerate
      the dictionaries and every table's guests can be looked up. */
  predicate CanCount(s: PlanState)
  {
    s.Ordered() && TablesKnown(s.guests, s.tables, s.tableOrder)
  }

  /** The figures `update_stats` shows. */
  function UpdateStats(s: PlanState): (r: Stats)
    requires CanCount(s)
    ensures r.totalTables == |s.tables|
    ensures r.unseated == UnseatedTotal(s.guests, s.guestOrder)
    ensures r.seatedGuests + r.unseated == r.totalGuests
  {
    SizeSplit(s.guests, s.guestOrder);
    var total := SizeTotal(s.guests, s.guestOrder);
    var seated := SeatedTotal(s.guests, s.guestOrder);
    Stats(seated, total, total - seated, |s.tables|,
          UsedTotal(s.guests, s.tables, s.tableOrder), CapacityTotal(s.tables, s.tableOrder))
  }

  lemma {:induction false} SizeSplit(guests: map<int, Guest>, order: seq<int>)
    requires MembersKnown(guests, order)
    ensures SizeTotal(guests, order) == SeatedTotal(guests, order) + UnseatedTotal(guests, order)
  {
    if |order| > 0 {
      assert forall k :: k in order[1..] ==> k in order;
      SizeSplit(guests, order[1..]);
    }
  }

  lemma {:induction false} SeatedBounds(guests: map<int, Guest>, order: seq<int>)
    requires MembersKnown(guests, order) && forall k :: k in guests ==> guests[k].size >= 0
    ensures 0 <= SeatedTotal(guests, order) && 0 <= UnseatedTotal(guests, order)
  {
    if |order| > 0 {
      assert order[0] in order;
      assert forall k :: k in order[1..] ==> k in order;
      SeatedBounds(guests, order[1..]);
    }
  }

  /** The waiting figure is the total size of the unseated guests; with no
      negative sizes, seated and waiting are both between 0 and the total. */
  lemma StatsWaiting(s: PlanState)
    requires CanCount(s)
    ensures UpdateStats(s).unseated == UnseatedTotal(s.guests, s.guestOrder)
    ensures UpdateStats(s).seatedGuests + UpdateStats(s).unseated == UpdateStats(s).totalGuests
    ensures s.SizesNonNegative() ==>
      0 <= UpdateStats(s).seatedGuests <= UpdateStats(s).totalGuests &&
      0 <= UpdateStats(s).unseated <= UpdateStats(s).totalGuests
  {
    SizeSplit(s.guests, s.guestOrder);
    if s.SizesNonNegative() {
      SeatedBounds(s.guests, s.guestOrder);
    }
  }

  lemma {:induction false} UsedWithinCapacity(s: PlanState, order: seq<int>)
    requires s.WithinCapacity() && TablesKnown(s.guests, s.tables, order)
    ensures UsedTotal(s.guests, s.tables, order) <= CapacityTotal(s.tables, order)
  {
    if |order| > 0 {
      assert order[0] in order;
      UsedWithinCapacity(s, order[1..]);
    }
  }

  /** In a valid plan the seats used never exceed the total capacity. */
  lemma StatsUsedWithinCapacity(s: PlanState)
    requires s.Valid()
    ensures CanCount(s)
    ensures UpdateStats(s).totalOccupancy <= UpdateStats(s).totalCapacity
  {
    UsedWithinCapacity(s, s.tableOrder);
  }

  /** Where the listed guests agree, so do the seated totals. */
  lemma {:induction false} SeatedAgree(a: map<int, Guest>, b: map<int, Guest>, order: seq<int>)
    requires MembersKnown(a, order) && forall k :: k in order ==> k in b && b[k] == a[k]
    ensures MembersKnown(b, order) && SeatedTotal(a, order) == SeatedTotal(b, order)
  {
    if |order| > 0 {
      assert order[0] in order;
      assert forall k :: k in order[1..] ==> k in order;
      SeatedAgree(a, b, order[1..]);
    }
  }

  /** The used total after one table's occupancy dropped by `d`. */
  lemma {:induction false} UsedChange(ga: map<int, Guest>, ta: map<int, Table>, gb: map<int, Guest>,
                                      tb: map<int, Table>, order: seq<int>, t0: int, d: int)
    requires NoDup(order) && TablesKnown(ga, ta, order) && TablesKnown(gb, tb, order)
    requires forall t :: t in order && t != t0 ==> Occupancy(gb, tb[t].guestIds) == Occupancy(ga, ta[t].guestIds)
    requires t0 in ta && t0 in tb && MembersKnown(ga, ta[t0].guestIds) && MembersKnown(gb, tb[t0].guestIds)
    requires Occupancy(gb, tb[t0].guestIds) == Occupancy(ga, ta[t0].guestIds) - d
    ensures UsedTotal(gb, tb, order) == UsedTotal(ga, ta, order) - (if t0 in order then d else 0)
  {
    if |order| > 0 {
      assert order[0] in order;
      assert NoDup(order[1..]) by {
        forall i, j | 0 <= i < j < |order[1..]| ensures order[1..][i] != order[1..][j] {
          assert order[1..][i] == order[i + 1] && order[1..][j] == order[j + 1];
        }
      }
      assert order[0] == t0 ==> t0 !in order[1..] by {
        forall j | 0 <= j < |order[1..]| ensures order[0] != order[1..][j] {
          assert order[1..][j] == order[j + 1];
        }
      }
      assert t0 in order <==> order[0] == t0 || t0 in order[1..];
      UsedChange(ga, ta, gb, tb, order[1..], t0, d);
    }
  }

  /** With all lists empty, nothing is used. */
  lemma {:induction false} UsedOfEmptyTables(guests: map<int, Guest>, tables: map<int, Table>, order: seq<int>)
    requires TablesKnown(guests, tables, order) && forall t :: t in tables ==> tables[t].guestIds == []
    ensures UsedTotal(guests, tables, order) == 0
  {
    if |order| > 0 {
      assert order[0] in order;
      UsedOfEmptyTables(guests, tables, order[1..]);
    }
  }

  /** What removing a guest leaves: every other guest, the other guests'
      order, and every table that it does not sit at. */
  lemma RemoveGuestFrame(s: PlanState, g: int)
    requires g in s.guests
    ensures var r := RemoveGuestSpec(s, g);
      && r.guests.Keys == s.guests.Keys - {g}
      && (forall k :: k in r.guests ==> r.guests[k] == s.guests[k])
      && r.guestOrder == RemoveFirst(s.guestOrder, g)
      && r.tables.Keys == s.tables.Keys && r.tableOrder == s.tableOrder
      && (forall t :: t in s.tables && s.guests[g].tableId != Some(t) ==> r.tables[t] == s.tables[t])
  {
  }

  /** Removing a guest takes its size off the used total when it was
      seated, and leaves the used total otherwise. */
  lemma RemoveGuestUsed(s: PlanState, g: int)
    requires s.Valid() && g in s.guests
    ensures var r := RemoveGuestSpec(s, g);
      && CanCount(s) && CanCount(r)
      && UsedTotal(r.guests, r.tables, r.tableOrder) ==
         UsedTotal(s.guests, s.tables, s.tableOrder) - (if s.guests[g].tableId.Some? then s.guests[g].size else 0)
  {
    var r := RemoveGuestSpec(s, g);
    RemoveGuestKeepsValid(s, g);
    if s.guests[g].tableId.Some? {
      var t0 := s.guests[g].tableId.value;
      var u := UnseatSpec(s, g);
      UnseatEffect(s, g);
      OccupancyDropUnlisted(u.guests, g, u.tables[t0].guestIds);
      RemoveGuestOthers(s, g, t0);
      UsedChange(s.guests, s.tables, r.guests, r.tables, s.tableOrder, t0, s.guests[g].size);
    } else if |s.tableOrder| > 0 {
      var t0 := s.tableOrder[0];
      assert t0 in s.tableOrder;
      RemoveGuestOthers(s, g, t0);
      RemoveGuestFrame(s, g);
      assert g !in s.tables[t0].guestIds;
      OccupancyAgree(s.guests, r.guests, s.tables[t0].guestIds);
      UsedChange(s.guests, s.tables, r.guests, r.tables, s.tableOrder, t0, 0);
    }
  }

  /** Removing a guest leaves the occupancy of every table it does not sit
      at. */
  lemma RemoveGuestOthers(s: PlanState, g: int, t0: int)
    requires s.Consistent() && g in s.guests && (s.guests[g].tableId.Some? ==> s.guests[g].tableId.value == t0)
    ensures var r := RemoveGuestSpec(s, g);
      forall t :: t in s.tableOrder && t != t0 ==>
        && t in s.tables && t in r.tables
        && MembersKnown(s.guests, s.tables[t].guestIds) && MembersKnown(r.guests, r.tables[t].guestIds)
        && Occupancy(r.guests, r.tables[t].guestIds) == Occupancy(s.guests, s.tables[t].guestIds)
  {
    var r := RemoveGuestSpec(s, g);
    RemoveGuestFrame(s, g);
    forall t | t in s.tableOrder && t != t0
      ensures && t in s.tables && t in r.tables
        && MembersKnown(s.guests, s.tables[t].guestIds) && MembersKnown(r.guests, r.tables[t].guestIds)
        && Occupancy(r.guests, r.tables[t].guestIds) == Occupancy(s.guests, s.tables[t].guestIds)
    {
      assert g !in s.tables[t].guestIds;
      OccupancyAgree(s.guests, r.guests, s.tables[t].guestIds);
    }
  }

  /** Removing the first guest of the order takes its size off the seated
      total when it was seated. */
  lemma RemoveFirstGuestSeated(s: PlanState)
    requires s.Ordered() && |s.guestOrder| > 0
    ensures var g := s.guestOrder[0];
      var r := RemoveGuestSpec(s, g);
      && g in s.guests && r.guestOrder == s.guestOrder[1..]
      && MembersKnown(s.guests, s.guestOrder) && MembersKnown(r.guests, r.guestOrder)
      && SeatedTotal(r.guests, r.guestOrder) ==
         SeatedTotal(s.guests, s.guestOrder) - (if s.guests[g].tableId.Some? then s.guests[g].size else 0)
  {
    var g := s.guestOrder[0];
    assert g in s.guestOrder;
    var r := RemoveGuestSpec(s, g);
    RemoveGuestFrame(s, g);
    var rest := s.guestOrder[1..];
    assert g !in rest by {
      forall j | 0 <= j < |rest| ensures rest[j] != g {
        assert rest[j] == s.guestOrder[j + 1];
      }
    }
    assert r.guestOrder == rest;
    assert forall k :: k in rest ==> k in s.guestOrder;
    SeatedAgree(s.guests, r.guests, rest);
  }

  /** In a valid plan the seats used are the seated guests' total: each
      seated guest is counted once, at its own table. */
  lemma {:induction false} StatsUsedIsSeated(s: PlanState)
    requires s.Valid()
    decreases |s.guestOrder|
    ensures CanCount(s)
    ensures UpdateStats(s).totalOccupancy == UpdateStats(s).seatedGuests
  {
    if |s.guestOrder| == 0 {
      assert forall t :: t in s.tables ==> s.tables[t].guestIds == [] by {
        forall t | t in s.tables ensures s.tables[t].guestIds == [] {
        }
      }
      UsedOfEmptyTables(s.guests, s.tables, s.tableOrder);
    } else {
      var g := s.guestOrder[0];
      var r := RemoveGuestSpec(s, g);
      RemoveFirstGuestSeated(s);
      RemoveGuestUsed(s, g);
      RemoveGuestKeepsValid(s, g);
      StatsUsedIsSeated(r);
    }
  }

  /** A plan whose one guest, a party of three, sits nowhere shows 0 of 3
      seated. */
  lemma StatsExample()
    ensures var s := AddGuestSpec(EmptyPlan(), "Family Cohen", "Friends", 3);
      CanCount(s) && UpdateStats(s) == Stats(0, 3, 3, 0, 0, 0)
  {
    var s := AddGuestSpec(EmptyPlan(), "Family Cohen", "Friends", 3);
    assert s.guestOrder == [1] && [1][1..] == [];
  }

  // =======================================================================
  // The seats of a drawn table (`draw_table`)

  /** `n` copies of `g`; none when `n` is not positive (`range(n)`). */
  function Repeat(g: int, n: int): (r: seq<int>)
    ensures |r| == (if n > 0 then n else 0)
    ensures forall i :: 0 <= i < |r| ==> r[i] == g
  {
    seq(if n > 0 then n else 0, _ => g)
  }

  /** The seat list of a table: each listed guest, in list order, repeated
      once per seat of its party. */
  function Seats(guests: map<int, Guest>, ids: seq<int>): (r: seq<int>)
    requires MembersKnown(guests, ids)
    ensures forall j :: 0 <= j < |r| ==> r[j] in ids
  {
    if |ids| == 0 then []
    else
      var head := ids[0];
      assert head in ids;
      assert forall k :: k in ids[1..] ==> k in ids;
      Repeat(head, guests[head].size) + Seats(guests, ids[1..])
  }

  /** With no negative sizes, there are as many seat entries as the
      table's occupancy, and each names a listed guest. */
  lemma {:induction false} SeatsCount(guests: map<int, Guest>, ids: seq<int>)
    requires MembersKnown(guests, ids) && forall k :: k in guests ==> guests[k].size >= 0
    ensures |Seats(guests, ids)| == Occupancy(guests, ids)
    ensures forall j :: 0 <= j < |Seats(guests, ids)| ==> Seats(guests, ids)[j] in ids
  {
    if |ids| > 0 {
      var head := ids[0];
      assert head in ids;
      assert forall k :: k in ids[1..] ==> k in ids;
      SeatsCount(guests, ids[1..]);
      var rep := Repeat(head, guests[head].size);
      forall j | 0 <= j < |Seats(guests, ids)| ensures Seats(guests, ids)[j] in ids {
        if j >= |rep| {
          assert Seats(guests, ids)[j] == Seats(guests, ids[1..])[j - |rep|];
        }
      }
    }
  }

  /** A guest appended to the list takes the seats right after the others,
      so each party sits in consecutive seats, in list order. */
  lemma {:induction false} SeatsAppend(guests: map<int, Guest>, ids: seq<int>, g: int)
    requires MembersKnown(guests, ids) && g in guests
    ensures MembersKnown(guests, ids + [g])
    ensures Seats(guests, ids + [g]) == Seats(guests, ids) + Repeat(g, guests[g].size)
  {
    if |ids| == 0 {
      assert ids + [g] == [g] && [g][1..] == [];
    } else {
      assert ids[0] in ids;
      assert (ids + [g])[0] == ids[0] && (ids + [g])[1..] == ids[1..] + [g];
      assert forall k :: k in ids[1..] ==> k in ids;
      SeatsAppend(guests, ids[1..], g);
    }
  }

  /** A guest listed once holds exactly as many seats as its size. */
  lemma {:induction false} SeatsPerGuest(guests: map<int, Guest>, ids: seq<int>, g: int)
    requires MembersKnown(guests, ids) && NoDup(ids) && forall k :: k in guests ==> guests[k].size >= 0
    ensures multiset(Seats(guests, ids))[g] == if g in ids then guests[g].size else 0
  {
    if |ids| > 0 {
      var head := ids[0];
      assert head in ids;
      assert forall k :: k in ids[1..] ==> k in ids;
      assert NoDup(ids[1..]) by {
        forall i, j | 0 <= i < j < |ids[1..]| ensures ids[1..][i] != ids[1..][j] {
          assert ids[1..][i] == ids[i + 1] && ids[1..][j] == ids[j + 1];
        }
      }
      assert head !in ids[1..] by {
        forall j | 0 <= j < |ids[1..]| ensures ids[1..][j] != head {
          assert ids[1..][j] == ids[j + 1];
        }
      }
      SeatsPerGuest(guests, ids[1..], g);
      RepeatCount(head, guests[head].size, g);
      assert g in ids <==> g == head || g in ids[1..];
    }
  }

  lemma {:induction false} RepeatCount(h: int, n: int, g: int)
    requires n >= 0
    ensures multiset(Repeat(h, n))[g] == if g == h then n else 0
  {
    if n > 0 {
      assert Repeat(h, n) == Repeat(h, n - 1) + [h];
      RepeatCount(h, n - 1, g);
    } else {
      assert Repeat(h, n) == [];
    }
  }

  /** The drawn chairs of a table: one per seat of its capacity, each
      holding the guest of that seat entry, if there is one. A table with
      no positive capacity has no chairs. */
  function Chairs(guests: map<int, Guest>, table: Table): (r: seq<Option<int>>)
    requires MembersKnown(guests, table.guestIds)
    ensures |r| == if table.capacity > 0 then table.capacity else 0
    ensures forall i :: 0 <= i < |r| && r[i].Some? ==> r[i].value in table.guestIds
  {
    var seats := Seats(guests, table.guestIds);
    if table.capacity > 0 then seq(table.capacity, i => if 0 <= i < |seats| then Some(seats[i]) else None) else []
  }

  /** Chair `i` is occupied exactly when `i` is below the table's
      occupancy, and then by a listed guest. */
  lemma ChairOccupied(guests: map<int, Guest>, table: Table, i: int)
    requires MembersKnown(guests, table.guestIds) && forall k :: k in guests ==> guests[k].size >= 0
    requires 0 <= i < table.capacity
    ensures Chairs(guests, table)[i].Some? <==> i < Occupancy(guests, table.guestIds)
    ensures Chairs(guests, table)[i].Some? ==> Chairs(guests, table)[i].value in table.guestIds
  {
    SeatsCount(guests, table.guestIds);
  }

  /** How a table is drawn: full (with the error border when over
      capacity), partly taken, or vacant. */
  datatype Fill = Overfull | Full | Partial | Vacant

  function TableFill(occupancy: int, capacity: int): (r: Fill)
    ensures r == Overfull <==> occupancy > capacity
    ensures r == Full <==> occupancy == capacity
    ensures r == Partial <==> 0 < occupancy < capacity
    ensures r == Vacant <==> occupancy <= 0 && occupancy < capacity
  {
    if occupancy >= capacity then (if occupancy > capacity then Overfull else Full)
    else if occupancy > 0 then Partial
    else Vacant
  }

  /** No table of a valid plan is drawn over capacity; a capacity edit can
      make one so. */
  lemma FillOfValidPlan(s: PlanState, t: int)
    requires s.Valid() && t in s.tables
    ensures MembersKnown(s.guests, s.tables[t].guestIds)
    ensures TableFill(Occupancy(s.guests, s.tables[t].guestIds), s.tables[t].capacity) != Overfull
  {
  }
}
