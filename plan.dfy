/** The seating plan aggregate (`SeatingPlan` of wedding_planner/models.py).

    `PlanState` is the value of a plan: the guest and table dictionaries
    (with their iteration orders, since Python dictionaries iterate in
    insertion order) and the two id counters. Each operation is specified
    by a function on `PlanState`; class `SeatingPlan` holds the same state
    in mutable fields and its methods update them in place. */
module Plan {
  import opened Common
  import opened Entities

  function Occupancy(guests: map<int, Guest>, ids: seq<int>): int
    requires MembersKnown(guests, ids)
  {
    if |ids| == 0 then 0
    else
      var head := ids[0];
      assert head in ids && head in guests;
      assert forall g :: g in ids[1..] ==> g in ids;
      guests[head].size + Occupancy(guests, ids[1..])
  }

  /** Every listed id is a guest key: `self.guests[g_id]` cannot raise. */
  predicate MembersKnown(guests: map<int, Guest>, ids: seq<int>)
  {
    forall g :: g in ids ==> g in guests
  }

  /** Same keys and the same size under every key. */
  predicate SameSizes(a: map<int, Guest>, b: map<int, Guest>)
  {
    a.Keys == b.Keys && forall k :: k in a ==> a[k].size == b[k].size
  }

  datatype PlanState = PlanState(
    guests: map<int, Guest>,
    tables: map<int, Table>,
    guestOrder: seq<int>,
    tableOrder: seq<int>,
    nextGuestId: int,
    nextTableId: int)
  {
    /** The orders enumerate the keys (true of every Python dict). */
    predicate Ordered()
    {
      Enumerates(guestOrder, guests) && Enumerates(tableOrder, tables)
    }

    /** Every entity is stored under its own id. */
    predicate KeysMatch()
    {
      (forall k :: k in guests ==> guests[k].id == k) &&
      (forall k :: k in tables ==> tables[k].id == k)
    }

    /** Each counter is strictly greater than every id of its collection. */
    predicate CountersAbove()
    {
      (forall k :: k in guests ==> k < nextGuestId) &&
      (forall k :: k in tables ==> k < nextTableId)
    }

    predicate SizesNonNegative()
    {
      forall k :: k in guests ==> guests[k].size >= 0
    }

    /** A seated guest is listed by its table. */
    predicate SeatedAreListed()
    {
      forall k :: k in guests && guests[k].tableId.Some? ==>
        guests[k].tableId.value in tables && k in tables[guests[k].tableId.value].guestIds
    }

    /** A listed guest exists and points back at the table that lists it. */
    predicate ListedAreSeated()
    {
      forall t, g :: t in tables && g in tables[t].guestIds ==>
        g in guests && guests[g].tableId == Some(t)
    }

    predicate NoDupMembers()
    {
      forall t :: t in tables ==> NoDup(tables[t].guestIds)
    }

    /** `Guest.table_id` and `Table.guest_ids` agree both ways. */
    predicate Linked()
    {
      SeatedAreListed() && ListedAreSeated() && NoDupMembers()
    }

    predicate Consistent()
    {
      Ordered() && KeysMatch() && CountersAbove() && SizesNonNegative() && Linked()
    }

    /** No table holds more seats than its capacity. */
    predicate WithinCapacity()
    {
      forall t :: t in tables && MembersKnown(guests, tables[t].guestIds) ==>
        Occupancy(guests, tables[t].guestIds) <= tables[t].capacity
    }

    predicate Valid()
    {
      Consistent() && WithinCapacity()
    }
  }

  /** `SeatingPlan()`: no guests, no tables, both counters at 1. */
  function EmptyPlan(): PlanState
  {
    PlanState(map[], map[], [], [], 1, 1)
  }

  // =======================================================================
  // The operations, as functions of the plan's state

  /** `add_guest`: a new unseated guest under the next guest id. */
  function AddGuestSpec(s: PlanState, name: string, category: string, size: int): PlanState
  {
    var id := s.nextGuestId;
    s.(guests := s.guests[id := Guest(id, name, category, None, size)],
       guestOrder := Put(s.guestOrder, id),
       nextGuestId := id + 1)
  }

  /** `add_table`: a new empty table under the next table id. */
  function AddTableSpec(s: PlanState, name: string, capacity: int, x: int, y: int): PlanState
  {
    var id := s.nextTableId;
    s.(tables := s.tables[id := Table(id, name, capacity, [], x, y)],
       tableOrder := Put(s.tableOrder, id),
       nextTableId := id + 1)
  }

  /** `unseat_guest`: for a known seated guest, drop its id from its
      table's list when both are there, and clear its table reference. */
  function UnseatSpec(s: PlanState, gid: int): (r: PlanState)
    ensures r.guests.Keys == s.guests.Keys && r.tables.Keys == s.tables.Keys
    ensures r.guestOrder == s.guestOrder && r.tableOrder == s.tableOrder
    ensures r.nextGuestId == s.nextGuestId && r.nextTableId == s.nextTableId
    ensures SameSizes(s.guests, r.guests)
  {
    if gid in s.guests && s.guests[gid].tableId.Some? then
      var t := s.guests[gid].tableId.value;
      var tables :=
        if t in s.tables && gid in s.tables[t].guestIds
        then s.tables[t := s.tables[t].(guestIds := RemoveFirst(s.tables[t].guestIds, gid))]
        else s.tables;
      s.(guests := s.guests[gid := s.guests[gid].(tableId := None)], tables := tables)
    else s
  }

  /** What a seating attempt demands: summing the sizes of the target
      table's guests must not meet an unknown id. */
  predicate CanMeasure(s: PlanState, gid: int, tid: int)
  {
    gid in s.guests && tid in s.tables ==> MembersKnown(s.guests, s.tables[tid].guestIds)
  }

  /** The last step of a seating: point the guest at the table and append
      it to the table's list. */
  function Seat(s: PlanState, gid: int, tid: int): PlanState
    requires gid in s.guests && tid in s.tables
  {
    s.(guests := s.guests[gid := s.guests[gid].(tableId := Some(tid))],
       tables := s.tables[tid := s.tables[tid].(guestIds := s.tables[tid].guestIds + [gid])])
  }

  /** `assign_guest_to_table`: the new state and the returned flag. */
  function AssignSpec(s: PlanState, gid: int, tid: int): (PlanState, bool)
    requires CanMeasure(s, gid, tid)
  {
    if gid !in s.guests || tid !in s.tables then (s, false)
    else if Occupancy(s.guests, s.tables[tid].guestIds) + s.guests[gid].size > s.tables[tid].capacity then (s, false)
    else
      var s1 := if s.guests[gid].tableId.Some? then UnseatSpec(s, gid) else s;
      (Seat(s1, gid, tid), true)
  }

  /** `remove_guest`: unseat, then delete. */
  function RemoveGuestSpec(s: PlanState, gid: int): PlanState
  {
    if gid in s.guests then
      var s1 := if s.guests[gid].tableId.Some? then UnseatSpec(s, gid) else s;
      s1.(guests := s1.guests - {gid}, guestOrder := RemoveFirst(s1.guestOrder, gid))
    else s
  }

  /** `unseat_guest` applied to each id in turn. */
  function UnseatAll(s: PlanState, ids: seq<int>): (r: PlanState)
    decreases |ids|
    ensures r.guests.Keys == s.guests.Keys && r.tables.Keys == s.tables.Keys
    ensures r.guestOrder == s.guestOrder && r.tableOrder == s.tableOrder
    ensures r.nextGuestId == s.nextGuestId && r.nextTableId == s.nextTableId
  {
    if |ids| == 0 then s else UnseatAll(UnseatSpec(s, ids[0]), ids[1..])
  }

  /** `remove_table`: unseat every listed guest, then delete the table. */
  function RemoveTableSpec(s: PlanState, tid: int): PlanState
  {
    if tid in s.tables then
      var s1 := UnseatAll(s, s.tables[tid].guestIds);
      s1.(tables := s1.tables - {tid}, tableOrder := RemoveFirst(s1.tableOrder, tid))
    else s
  }

  // =======================================================================
  // Occupancy arithmetic

  lemma {:induction false} OccupancyAppend(guests: map<int, Guest>, ids: seq<int>, g: int)
    requires MembersKnown(guests, ids) && g in guests
    ensures MembersKnown(guests, ids + [g])
    ensures Occupancy(guests, ids + [g]) == Occupancy(guests, ids) + guests[g].size
  {
    if |ids| > 0 {
      assert (ids + [g])[1..] == ids[1..] + [g];
      OccupancyAppend(guests, ids[1..], g);
    } else {
      assert ids + [g] == [g];
    }
  }

  lemma {:induction false} OccupancyRemoveFirst(guests: map<int, Guest>, ids: seq<int>, g: int)
    requires MembersKnown(guests, ids) && g in ids
    ensures MembersKnown(guests, RemoveFirst(ids, g))
    ensures Occupancy(guests, RemoveFirst(ids, g)) == Occupancy(guests, ids) - guests[g].size
  {
    RemoveFirstFacts(ids, g);
    if ids[0] != g {
      assert g in ids[1..];
      OccupancyRemoveFirst(guests, ids[1..], g);
      var r := RemoveFirst(ids, g);
      assert r == [ids[0]] + RemoveFirst(ids[1..], g);
      assert r[1..] == RemoveFirst(ids[1..], g);
    }
  }

  lemma {:induction false} OccupancyFrame(a: map<int, Guest>, b: map<int, Guest>, ids: seq<int>)
    requires SameSizes(a, b) && MembersKnown(a, ids)
    ensures MembersKnown(b, ids)
    ensures Occupancy(a, ids) == Occupancy(b, ids)
  {
    if |ids| > 0 {
      assert ids[0] in ids;
      OccupancyFrame(a, b, ids[1..]);
    }
  }

  lemma {:induction false} OccupancyNonNegative(guests: map<int, Guest>, ids: seq<int>)
    requires MembersKnown(guests, ids)
    requires forall k :: k in guests ==> guests[k].size >= 0
    ensures Occupancy(guests, ids) >= 0
  {
    if |ids| > 0 {
      assert ids[0] in ids;
      OccupancyNonNegative(guests, ids[1..]);
    }
  }

  /** A guest listed at the table counts towards its occupancy. */
  lemma {:induction false} OccupancyCountsMember(guests: map<int, Guest>, ids: seq<int>, g: int)
    requires MembersKnown(guests, ids) && g in ids
    requires forall k :: k in guests ==> guests[k].size >= 0
    ensures Occupancy(guests, ids) >= guests[g].size
  {
    OccupancyRemoveFirst(guests, ids, g);
    OccupancyNonNegative(guests, RemoveFirst(ids, g));
  }

  // =======================================================================
  // Each operation keeps the plan valid

  lemma AddGuestKeepsValid(s: PlanState, name: string, category: string, size: int)
    requires s.Valid() && size >= 0
    ensures AddGuestSpec(s, name, category, size).Valid()
  {
    var id := s.nextGuestId;
    var g := Guest(id, name, category, None, size);
    var r := AddGuestSpec(s, name, category, size);
    assert id !in s.guests;
    PutEnumerates(s.guestOrder, s.guests, id, g);
    forall t | t in r.tables && MembersKnown(r.guests, r.tables[t].guestIds)
      ensures Occupancy(r.guests, r.tables[t].guestIds) <= r.tables[t].capacity
    {
      var ids := r.tables[t].guestIds;
      var restricted := r.guests - {id};
      assert restricted == s.guests;
      assert id !in ids;
      OccupancyDropUnlisted(r.guests, id, ids);
    }
  }

  /** Removing a key that the list does not mention leaves its occupancy. */
  lemma {:induction false} OccupancyDropUnlisted(guests: map<int, Guest>, k: int, ids: seq<int>)
    requires MembersKnown(guests, ids) && k !in ids
    ensures MembersKnown(guests - {k}, ids)
    ensures Occupancy(guests - {k}, ids) == Occupancy(guests, ids)
  {
    if |ids| > 0 {
      assert ids[0] in ids;
      OccupancyDropUnlisted(guests, k, ids[1..]);
    }
  }

  lemma AddTableKeepsValid(s: PlanState, name: string, capacity: int, x: int, y: int)
    requires s.Valid() && capacity >= 0
    ensures AddTableSpec(s, name, capacity, x, y).Valid()
  {
    var id := s.nextTableId;
    assert id !in s.tables;
    PutEnumerates(s.tableOrder, s.tables, id, Table(id, name, capacity, [], x, y));
  }

  lemma UnseatKeepsValid(s: PlanState, gid: int)
    requires s.Valid()
    ensures UnseatSpec(s, gid).Valid()
  {
    if gid in s.guests && s.guests[gid].tableId.Some? {
      var t := s.guests[gid].tableId.value;
      var r := UnseatSpec(s, gid);
      UnseatLinks(s, gid, t, r);
      UnseatCapacity(s, gid, t, r);
      assert r.Ordered() && r.KeysMatch() && r.CountersAbove() && r.SizesNonNegative();
    }
  }

  /** Unseating a listed guest keeps the two-way links between guests and
      tables. */
  lemma UnseatLinks(s: PlanState, gid: int, t: int, r: PlanState)
    requires s.Linked() && gid in s.guests && s.guests[gid].tableId == Some(t)
    requires r.guests == s.guests[gid := s.guests[gid].(tableId := None)]
    requires r.tables == s.tables[t := s.tables[t].(guestIds := RemoveFirst(s.tables[t].guestIds, gid))]
    ensures r.Linked()
  {
    RemoveFirstNoDup(s.tables[t].guestIds, gid);
    forall u, g | u in r.tables && g in r.tables[u].guestIds
      ensures g in r.guests && r.guests[g].tableId == Some(u)
    {
      assert g in s.tables[u].guestIds;
    }
  }

  /** Unseating a guest frees its seats and never overfills a table. */
  lemma UnseatCapacity(s: PlanState, gid: int, t: int, r: PlanState)
    requires s.WithinCapacity() && s.NoDupMembers() && s.SizesNonNegative()
    requires gid in s.guests && t in s.tables
    requires gid in s.tables[t].guestIds
    requires r.guests == s.guests[gid := s.guests[gid].(tableId := None)]
    requires r.tables == s.tables[t := s.tables[t].(guestIds := RemoveFirst(s.tables[t].guestIds, gid))]
    ensures r.WithinCapacity()
  {
    var ids := s.tables[t].guestIds;
    RemoveFirstNoDup(ids, gid);
    forall u | u in r.tables && MembersKnown(r.guests, r.tables[u].guestIds)
      ensures Occupancy(r.guests, r.tables[u].guestIds) <= r.tables[u].capacity
    {
      var us := s.tables[u].guestIds;
      assert MembersKnown(s.guests, us);
      if u == t {
        OccupancyRemoveFirst(s.guests, ids, gid);
        OccupancyFrame(s.guests, r.guests, RemoveFirst(ids, gid));
      } else {
        OccupancyFrame(s.guests, r.guests, us);
      }
    }
  }

  /** Under a valid plan, unseating a seated guest takes exactly its id out
      of its table's list and clears its reference; all else is unchanged. */
  lemma UnseatEffect(s: PlanState, gid: int)
    requires s.Valid() && gid in s.guests && s.guests[gid].tableId.Some?
    ensures var t := s.guests[gid].tableId.value;
      var r := UnseatSpec(s, gid);
      && r.guests == s.guests[gid := s.guests[gid].(tableId := None)]
      && r.tables == s.tables[t := s.tables[t].(guestIds := RemoveFirst(s.tables[t].guestIds, gid))]
      && gid !in r.tables[t].guestIds
      && MembersKnown(s.guests, s.tables[t].guestIds)
      && MembersKnown(r.guests, r.tables[t].guestIds)
      && Occupancy(r.guests, r.tables[t].guestIds) == Occupancy(s.guests, s.tables[t].guestIds) - s.guests[gid].size
  {
    var t := s.guests[gid].tableId.value;
    var ids := s.tables[t].guestIds;
    var r := UnseatSpec(s, gid);
    RemoveFirstNoDup(ids, gid);
    OccupancyRemoveFirst(s.guests, ids, gid);
    OccupancyFrame(s.guests, r.guests, RemoveFirst(ids, gid));
  }

  /** `unseat_guest` does nothing for an unknown or unseated guest, and a
      second call changes nothing more. */
  lemma UnseatIdempotent(s: PlanState, gid: int)
    ensures gid !in s.guests || s.guests[gid].tableId.None? ==> UnseatSpec(s, gid) == s
    ensures UnseatSpec(UnseatSpec(s, gid), gid) == UnseatSpec(s, gid)
  {
  }

  /** The seating attempt fails exactly for an unknown id or a full table,
      and a failed attempt changes nothing. */
  lemma AssignOutcome(s: PlanState, gid: int, tid: int)
    requires CanMeasure(s, gid, tid)
    ensures AssignSpec(s, gid, tid).1 <==>
      gid in s.guests && tid in s.tables &&
      Occupancy(s.guests, s.tables[tid].guestIds) + s.guests[gid].size <= s.tables[tid].capacity
    ensures !AssignSpec(s, gid, tid).1 ==> AssignSpec(s, gid, tid).0 == s
  {
  }

  /** A successful seating points the guest at the target table and leaves
      every other guest, every other table and the counters as they were;
      only the guest's previous table and the target change. */
  lemma AssignMovesGuest(s: PlanState, gid: int, tid: int)
    requires s.Valid() && CanMeasure(s, gid, tid) && AssignSpec(s, gid, tid).1
    ensures var r := AssignSpec(s, gid, tid).0;
      var g := s.guests[gid];
      && r.guests == s.guests[gid := g.(tableId := Some(tid))]
      && r.tables.Keys == s.tables.Keys
      && (forall u :: u in s.tables && u != tid && Some(u) != g.tableId ==> r.tables[u] == s.tables[u])
      && r.guestOrder == s.guestOrder && r.tableOrder == s.tableOrder
      && r.nextGuestId == s.nextGuestId && r.nextTableId == s.nextTableId
  {
    if s.guests[gid].tableId.Some? {
      UnseatEffect(s, gid);
    }
  }

  /** A successful seating appends the guest to the target's list (after
      taking it out of that list if it already sat there); a guest coming
      from elsewhere adds its size to the target's occupancy. */
  lemma AssignMovesTarget(s: PlanState, gid: int, tid: int)
    requires s.Valid() && CanMeasure(s, gid, tid) && AssignSpec(s, gid, tid).1
    ensures var r := AssignSpec(s, gid, tid).0;
      var g := s.guests[gid];
      && r.tables[tid].guestIds == RemoveFirst(s.tables[tid].guestIds, gid) + [gid]
      && MembersKnown(r.guests, r.tables[tid].guestIds)
      && (g.tableId != Some(tid) ==>
            r.tables[tid].guestIds == s.tables[tid].guestIds + [gid] &&
            Occupancy(r.guests, r.tables[tid].guestIds) == Occupancy(s.guests, s.tables[tid].guestIds) + g.size)
  {
    var g := s.guests[gid];
    var r := AssignSpec(s, gid, tid).0;
    var s1 := if g.tableId.Some? then UnseatSpec(s, gid) else s;
    var ids := s.tables[tid].guestIds;
    if g.tableId.Some? {
      UnseatEffect(s, gid);
    }
    if g.tableId != Some(tid) {
      assert gid !in ids;
      RemoveFirstFacts(ids, gid);
      assert s1.tables[tid] == s.tables[tid];
    }
    assert SameSizes(s.guests, s1.guests);
    assert MembersKnown(s1.guests, s1.tables[tid].guestIds);
    OccupancyFrame(s1.guests, r.guests, s1.tables[tid].guestIds);
    OccupancyAppend(r.guests, s1.tables[tid].guestIds, gid);
    OccupancyFrame(s.guests, s1.guests, ids);
  }

  /** A successful seating of a guest who sat at another table takes it out
      of that table's list and takes its size off that table's occupancy. */
  lemma AssignMovesSource(s: PlanState, gid: int, tid: int)
    requires s.Valid() && CanMeasure(s, gid, tid) && AssignSpec(s, gid, tid).1
    requires s.guests[gid].tableId.Some? && s.guests[gid].tableId.value != tid
    ensures var r := AssignSpec(s, gid, tid).0;
      var g := s.guests[gid];
      var o := g.tableId.value;
      && o in r.tables && MembersKnown(r.guests, r.tables[o].guestIds)
      && r.tables[o].guestIds == RemoveFirst(s.tables[o].guestIds, gid)
      && gid !in r.tables[o].guestIds
      && Occupancy(r.guests, r.tables[o].guestIds) == Occupancy(s.guests, s.tables[o].guestIds) - g.size
  {
    var o := s.guests[gid].tableId.value;
    var s1 := UnseatSpec(s, gid);
    var r := AssignSpec(s, gid, tid).0;
    UnseatEffect(s, gid);
    assert r.tables[o] == s1.tables[o];
    assert SameSizes(s1.guests, r.guests);
    OccupancyFrame(s1.guests, r.guests, s1.tables[o].guestIds);
  }

  /** Quirk of the source: occupancy is measured before the guest leaves its
      old table, so seating a guest again at the table it sits at counts it
      twice, and fails as soon as the others plus twice its size exceed the
      capacity. */
  lemma AssignSameTableCountsTwice(s: PlanState, gid: int, tid: int)
    requires s.Valid() && gid in s.guests && s.guests[gid].tableId == Some(tid)
    ensures CanMeasure(s, gid, tid)
    ensures MembersKnown(s.guests, RemoveFirst(s.tables[tid].guestIds, gid))
    ensures AssignSpec(s, gid, tid).1 <==>
      Occupancy(s.guests, RemoveFirst(s.tables[tid].guestIds, gid)) + 2 * s.guests[gid].size
        <= s.tables[tid].capacity
  {
    OccupancyRemoveFirst(s.guests, s.tables[tid].guestIds, gid);
  }

  /** Seating an unseated guest at a table keeps the links consistent. */
  lemma SeatKeepsConsistent(s: PlanState, gid: int, tid: int)
    requires s.Consistent() && gid in s.guests && tid in s.tables && s.guests[gid].tableId.None?
    ensures Seat(s, gid, tid).Consistent()
  {
    var r := Seat(s, gid, tid);
    var ids := s.tables[tid].guestIds;
    assert gid !in ids;
    assert NoDup(ids + [gid]) by {
      var n := ids + [gid];
      forall i, j | 0 <= i < j < |n| ensures n[i] != n[j] {
        if j == |ids| { assert n[i] == ids[i]; assert ids[i] in ids; }
        else { assert n[i] == ids[i] && n[j] == ids[j]; }
      }
    }
    assert r.SeatedAreListed() by {
      forall k | k in r.guests && r.guests[k].tableId.Some?
        ensures r.guests[k].tableId.value in r.tables && k in r.tables[r.guests[k].tableId.value].guestIds
      {
        if k != gid {
          var u := s.guests[k].tableId.value;
          assert k in s.tables[u].guestIds;
          if u == tid { assert k in ids + [gid]; }
        } else {
          assert gid in ids + [gid];
        }
      }
    }
    assert r.ListedAreSeated() by {
      forall u, k | u in r.tables && k in r.tables[u].guestIds
        ensures k in r.guests && r.guests[k].tableId == Some(u)
      {
        if u == tid {
          if k != gid { assert k in ids; }
        } else {
          assert k in s.tables[u].guestIds;
        }
      }
    }
  }

  /** Seating an unseated guest where its size still fits keeps every
      table within capacity. */
  lemma SeatKeepsCapacity(s: PlanState, gid: int, tid: int)
    requires s.Valid() && gid in s.guests && tid in s.tables && s.guests[gid].tableId.None?
    requires Occupancy(s.guests, s.tables[tid].guestIds) + s.guests[gid].size <= s.tables[tid].capacity
    ensures Seat(s, gid, tid).WithinCapacity()
  {
    var r := Seat(s, gid, tid);
    assert SameSizes(s.guests, r.guests);
    forall u | u in r.tables && MembersKnown(r.guests, r.tables[u].guestIds)
      ensures Occupancy(r.guests, r.tables[u].guestIds) <= r.tables[u].capacity
    {
      var us := s.tables[u].guestIds;
      assert MembersKnown(s.guests, us);
      OccupancyFrame(s.guests, r.guests, us);
      if u == tid {
        OccupancyAppend(r.guests, us, gid);
      }
    }
  }

  lemma AssignKeepsValid(s: PlanState, gid: int, tid: int)
    requires s.Valid() && CanMeasure(s, gid, tid)
    ensures AssignSpec(s, gid, tid).0.Valid()
  {
    if AssignSpec(s, gid, tid).1 {
      var g := s.guests[gid];
      var ids := s.tables[tid].guestIds;
      var s1 := if g.tableId.Some? then UnseatSpec(s, gid) else s;
      if g.tableId.Some? {
        UnseatKeepsValid(s, gid);
        UnseatEffect(s, gid);
      }
      assert s1.Valid() && s1.guests[gid].tableId.None?;
      // the list measured before the unseat holds at least what s1 lists
      assert MembersKnown(s1.guests, s1.tables[tid].guestIds);
      assert Occupancy(s1.guests, s1.tables[tid].guestIds) <= Occupancy(s.guests, ids) by {
        OccupancyFrame(s.guests, s1.guests, ids);
        if g.tableId == Some(tid) {
          OccupancyRemoveFirst(s.guests, ids, gid);
          OccupancyFrame(s.guests, s1.guests, RemoveFirst(ids, gid));
        } else {
          assert s1.tables[tid] == s.tables[tid];
        }
      }
      SeatKeepsConsistent(s1, gid, tid);
      SeatKeepsCapacity(s1, gid, tid);
    }
  }

  /** Deleting a guest that sits nowhere keeps the plan valid; no table
      lists it. */
  lemma DeleteUnseatedKeepsValid(s: PlanState, gid: int)
    requires s.Valid() && gid in s.guests && s.guests[gid].tableId.None?
    ensures var r := s.(guests := s.guests - {gid}, guestOrder := RemoveFirst(s.guestOrder, gid));
      r.Valid() && forall t :: t in r.tables ==> gid !in r.tables[t].guestIds
  {
    var r := s.(guests := s.guests - {gid}, guestOrder := RemoveFirst(s.guestOrder, gid));
    RemoveEnumerates(s.guestOrder, s.guests, gid);
    assert forall t :: t in s.tables ==> gid !in s.tables[t].guestIds;
    assert r.Linked();
    forall t | t in r.tables && MembersKnown(r.guests, r.tables[t].guestIds)
      ensures Occupancy(r.guests, r.tables[t].guestIds) <= r.tables[t].capacity
    {
      assert MembersKnown(s.guests, s.tables[t].guestIds);
      OccupancyDropUnlisted(s.guests, gid, s.tables[t].guestIds);
    }
  }

  lemma RemoveGuestKeepsValid(s: PlanState, gid: int)
    requires s.Valid()
    ensures RemoveGuestSpec(s, gid).Valid()
    ensures gid !in RemoveGuestSpec(s, gid).guests
    ensures forall t :: t in RemoveGuestSpec(s, gid).tables ==> gid !in RemoveGuestSpec(s, gid).tables[t].guestIds
  {
    if gid in s.guests {
      var s1 := if s.guests[gid].tableId.Some? then UnseatSpec(s, gid) else s;
      if s.guests[gid].tableId.Some? {
        UnseatKeepsValid(s, gid);
        UnseatEffect(s, gid);
      }
      DeleteUnseatedKeepsValid(s1, gid);
    }
  }

  /** Unseating every guest listed at a table, in list order, empties its
      list, clears their references and keeps the plan valid. */
  lemma {:induction false} UnseatAllEmpties(s: PlanState, tid: int, ids: seq<int>)
    requires s.Valid() && tid in s.tables && s.tables[tid].guestIds == ids
    decreases |ids|
    ensures UnseatAll(s, ids).Valid()
    ensures UnseatAll(s, ids).tables[tid].guestIds == []
    ensures forall u :: u in s.tables && u != tid ==> UnseatAll(s, ids).tables[u] == s.tables[u]
    ensures forall k :: k in s.guests ==>
      UnseatAll(s, ids).guests[k] == (if k in ids then s.guests[k].(tableId := None) else s.guests[k])
  {
    if |ids| > 0 {
      var g := ids[0];
      assert g in s.tables[tid].guestIds;
      assert s.guests[g].tableId == Some(tid);
      UnseatEffect(s, g);
      UnseatKeepsValid(s, g);
      var s1 := UnseatSpec(s, g);
      assert s1.tables[tid].guestIds == ids[1..];
      UnseatAllEmpties(s1, tid, ids[1..]);
      assert NoDup(ids);
      forall k | k in s.guests
        ensures UnseatAll(s, ids).guests[k] == (if k in ids then s.guests[k].(tableId := None) else s.guests[k])
      {
        if k == g {
          assert k !in ids[1..] by {
            forall j | 1 <= j < |ids| ensures ids[j] != g { }
          }
        } else {
          assert k in ids <==> k in ids[1..];
        }
      }
    }
  }

  lemma RemoveTableKeepsValid(s: PlanState, tid: int)
    requires s.Valid()
    ensures RemoveTableSpec(s, tid).Valid()
    ensures tid !in RemoveTableSpec(s, tid).tables
    ensures forall k :: k in RemoveTableSpec(s, tid).guests ==> RemoveTableSpec(s, tid).guests[k].tableId != Some(tid)
  {
    if tid in s.tables {
      var ids := s.tables[tid].guestIds;
      UnseatAllEmpties(s, tid, ids);
      var s1 := UnseatAll(s, ids);
      forall k | k in s1.guests ensures s1.guests[k].tableId != Some(tid) {
      }
      DropEmptyTableKeepsValid(s1, tid);
    }
  }

  /** Deleting a table that lists nobody, and that nobody points at,
      keeps the plan valid. */
  lemma DropEmptyTableKeepsValid(s: PlanState, tid: int)
    requires s.Valid() && tid in s.tables && s.tables[tid].guestIds == []
    requires forall k :: k in s.guests ==> s.guests[k].tableId != Some(tid)
    ensures s.(tables := s.tables - {tid}, tableOrder := RemoveFirst(s.tableOrder, tid)).Valid()
  {
    var r := s.(tables := s.tables - {tid}, tableOrder := RemoveFirst(s.tableOrder, tid));
    RemoveEnumerates(s.tableOrder, s.tables, tid);
    DropTableLinks(s, tid, r);
    DropTableCapacity(s, tid, r);
    assert r.Ordered() && r.KeysMatch() && r.CountersAbove() && r.SizesNonNegative();
  }

  lemma DropTableLinks(s: PlanState, tid: int, r: PlanState)
    requires s.Linked() && r.guests == s.guests && r.tables == s.tables - {tid}
    requires forall k :: k in s.guests ==> s.guests[k].tableId != Some(tid)
    ensures r.Linked()
  {
    forall k | k in r.guests && r.guests[k].tableId.Some?
      ensures r.guests[k].tableId.value in r.tables && k in r.tables[r.guests[k].tableId.value].guestIds
    {
      assert s.guests[k].tableId.value != tid;
    }
  }

  lemma DropTableCapacity(s: PlanState, tid: int, r: PlanState)
    requires s.WithinCapacity() && r.guests == s.guests && r.tables == s.tables - {tid}
    ensures r.WithinCapacity()
  {
  }

  /** Removing a table unseats exactly the guests it listed. */
  lemma RemoveTableUnseatsMembers(s: PlanState, tid: int)
    requires s.Valid() && tid in s.tables
    ensures forall k :: k in s.guests ==>
      RemoveTableSpec(s, tid).guests[k] ==
        (if s.guests[k].tableId == Some(tid) then s.guests[k].(tableId := None) else s.guests[k])
  {
    var ids := s.tables[tid].guestIds;
    UnseatAllEmpties(s, tid, ids);
    forall k | k in s.guests ensures k in ids <==> s.guests[k].tableId == Some(tid) { }
  }

  /** A new guest takes the old counter value as its id. */
  lemma AddGuestAllocates(s: PlanState, name: string, category: string, size: int)
    requires s.CountersAbove()
    ensures var r := AddGuestSpec(s, name, category, size);
      && s.nextGuestId !in s.guests
      && r.guests.Keys == s.guests.Keys + {s.nextGuestId}
      && r.guests[s.nextGuestId] == Guest(s.nextGuestId, name, category, None, size)
      && r.nextGuestId == s.nextGuestId + 1
      && (forall k :: k in s.guests ==> r.guests[k] == s.guests[k])
      && r.tables == s.tables
  {
  }

  // =======================================================================
  // The plan object

  class SeatingPlan {
    var guests: map<int, Guest>
    var tables: map<int, Table>
    var guestOrder: seq<int>
    var tableOrder: seq<int>
    var nextGuestId: int
    var nextTableId: int

    function State(): PlanState
      reads this
    {
      PlanState(guests, tables, guestOrder, tableOrder, nextGuestId, nextTableId)
    }

    predicate Ordered()
      reads this
    {
      State().Ordered()
    }

    predicate Valid()
      reads this
    {
      State().Valid()
    }

    constructor ()
      ensures State() == EmptyPlan() && Valid()
    {
      guests, tables := map[], map[];
      guestOrder, tableOrder := [], [];
      nextGuestId, nextTableId := 1, 1;
    }

    method AddGuest(name: string, category: string := "General", size: int := 1) returns (guest: Guest)
      requires Ordered()
      modifies this
      ensures State() == AddGuestSpec(old(State()), name, category, size)
      ensures guest == Guest(old(nextGuestId), name, category, None, size) && guests[guest.id] == guest
      ensures Ordered()
      ensures old(Valid()) && size >= 0 ==> Valid()
    {
      ghost var before := State();
      guest := Guest(nextGuestId, name, category, None, size);
      if guest.id !in guests {
        guestOrder := guestOrder + [guest.id];
      }
      guests := guests[guest.id := guest];
      nextGuestId := nextGuestId + 1;
      PutEnumerates(before.guestOrder, before.guests, guest.id, guest);
      if before.Valid() && size >= 0 {
        AddGuestKeepsValid(before, name, category, size);
      }
    }

    method AddTable(name: string, capacity: int, x: int := 100, y: int := 100) returns (table: Table)
      requires Ordered()
      modifies this
      ensures State() == AddTableSpec(old(State()), name, capacity, x, y)
      ensures table == Table(old(nextTableId), name, capacity, [], x, y) && tables[table.id] == table
      ensures Ordered()
      ensures old(Valid()) && capacity >= 0 ==> Valid()
    {
      ghost var before := State();
      table := Table(nextTableId, name, capacity, [], x, y);
      if table.id !in tables {
        tableOrder := tableOrder + [table.id];
      }
      tables := tables[table.id := table];
      nextTableId := nextTableId + 1;
      PutEnumerates(before.tableOrder, before.tables, table.id, table);
      if before.Valid() && capacity >= 0 {
        AddTableKeepsValid(before, name, capacity, x, y);
      }
    }

    method UnseatGuest(guestId: int)
      requires Ordered()
      modifies this
      ensures State() == UnseatSpec(old(State()), guestId)
      ensures Ordered()
      ensures old(Valid()) ==> Valid()
    {
      ghost var before := State();
      if guestId in guests {
        var guest := guests[guestId];
        if guest.tableId.Some? {
          var t := guest.tableId.value;
          if t in tables {
            var table := tables[t];
            if guestId in table.guestIds {
              tables := tables[t := table.(guestIds := RemoveFirst(table.guestIds, guestId))];
            }
          }
          guests := guests[guestId := guest.(tableId := None)];
        }
      }
      if before.Valid() {
        UnseatKeepsValid(before, guestId);
      }
    }

    method RemoveGuest(guestId: int)
      requires Ordered()
      modifies this
      ensures State() == RemoveGuestSpec(old(State()), guestId)
      ensures Ordered()
      ensures old(Valid()) ==> Valid()
    {
      ghost var before := State();
      if guestId in guests {
        var guest := guests[guestId];
        if guest.tableId.Some? {
          UnseatGuest(guestId);
        }
        RemoveEnumerates(guestOrder, guests, guestId);
        guests := guests - {guestId};
        guestOrder := RemoveFirst(guestOrder, guestId);
      }
      if before.Valid() {
        RemoveGuestKeepsValid(before, guestId);
      }
    }

    method AssignGuestToTable(guestId: int, tableId: int) returns (ok: bool)
      requires Ordered() && CanMeasure(State(), guestId, tableId)
      modifies this
      ensures (State(), ok) == AssignSpec(old(State()), guestId, tableId)
      ensures Ordered()
      ensures old(Valid()) ==> Valid()
    {
      ghost var before := State();
      if guestId !in guests || tableId !in tables {
        return false;
      }
      var guest := guests[guestId];
      var table := tables[tableId];
      var currentOccupancy := Occupancy(guests, table.guestIds);
      if currentOccupancy + guest.size > table.capacity {
        return false;
      }
      if guest.tableId.Some? {
        UnseatGuest(guestId);
      }
      guests := guests[guestId := guests[guestId].(tableId := Some(tableId))];
      tables := tables[tableId := tables[tableId].(guestIds := tables[tableId].guestIds + [guestId])];
      ok := true;
      if before.Valid() {
        AssignKeepsValid(before, guestId, tableId);
      }
    }

    method RemoveTable(tableId: int)
      requires Ordered()
      modifies this
      ensures State() == RemoveTableSpec(old(State()), tableId)
      ensures Ordered()
      ensures old(Valid()) ==> Valid()
    {
      ghost var before := State();
      if tableId in tables {
        var ids := tables[tableId].guestIds;
        var i := 0;
        while i < |ids|
          invariant 0 <= i <= |ids|
          invariant Ordered()
          invariant UnseatAll(State(), ids[i..]) == UnseatAll(before, ids)
          invariant before.Valid() ==> Valid()
        {
          assert ids[i..][0] == ids[i] && ids[i..][1..] == ids[i + 1..];
          UnseatGuest(ids[i]);
          i := i + 1;
        }
        assert ids[i..] == [];
        RemoveEnumerates(tableOrder, tables, tableId);
        tables := tables - {tableId};
        tableOrder := RemoveFirst(tableOrder, tableId);
      }
      if before.Valid() {
        RemoveTableKeepsValid(before, tableId);
      }
    }
  }
}
