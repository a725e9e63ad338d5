/**
 wl_map: two wl_arrays of tagged words and the head of a free list.
 */
module Maps {
  import opened Sequences
  import opened Words
  import opened FreeList
  import opened IdMap
  import opened MapWords
  import opened Iteration
  import opened Arrays

  /** A wl_array used as a table of map entries. */
  ghost predicate EntryTable(entries: WlArray, n: WordSize)
    reads entries, entries.data
  {
    entries.n == n && entries.Valid() && Whole(entries.size, n)
  }

  /** `entry->data = data; entry->next |= (flags & 1) << 1` */
  method StoreEntry(n: WordSize, entries: WlArray, i: nat, flags: uint32, ptr: nat)
    requires EntryTable(entries, n) && i < Count(entries.size, n) && IsPointer(ptr, n)
    modifies entries.data
    ensures EntryTable(entries, n)
    ensures entries.Elems(n) == old(entries.Elems(n))[i := OrFlag(ptr, flags)]
  {
    entries.Store(n, i, ptr);
    var w := entries.Load(n, i);
    TagRoundTrip(ptr, flags, n);
    entries.Store(n, i, OrFlag(w, flags));
  }

  /** What an insertion puts in the entry it took, and what it returns. */
  method FillSlot(n: WordSize, entries: WlArray, base: nat, slot: nat, flags: uint32, ptr: nat)
    returns (id: uint32, err: Errno)
    requires EntryTable(entries, n) && IsPointer(ptr, n)
    requires slot < Count(entries.size, n) && base <= SERVER_ID_START
    modifies entries.data
    ensures EntryTable(entries, n)
    ensures entries.Elems(n) ==
            old(entries.Elems(n))[slot := if slot % 0x1_0000_0000 > MAX_OBJECTS then 0 else OrFlag(ptr, flags)]
    ensures if slot % 0x1_0000_0000 > MAX_OBJECTS then err == NoSpace && id == 0
            else err == Success && id == base + slot % 0x1_0000_0000
  {
    var count := slot % 0x1_0000_0000;
    if count > MAX_OBJECTS {
      entries.Store(n, slot, 0);
      return 0, NoSpace;
    }
    StoreEntry(n, entries, slot, flags, ptr);
    return count + base, Success;
  }

  /** The entry an insertion will use, the first freed one or a new one, and the head after that. */
  method TakeSlot(n: WordSize, entries: WlArray, head: uint32, granted: bool, ghost free: seq<nat>)
    returns (ok: bool, slot: nat, head': uint32)
    requires EntryTable(entries, n) && LeadsTo(head, free, entries.Elems(n))
    requires head == 0 ==> entries.size + n <= Half(n)
    modifies entries
    ensures EntryTable(entries, n) && (entries.data == old(entries.data) || fresh(entries.data))
    ensures head != 0 ==>
              ok && slot == free[0] && entries.Elems(n) == old(entries.Elems(n)) &&
              head' == entries.Elems(n)[slot]
    ensures head == 0 ==> head' == head && slot == old(Count(entries.size, n))
    ensures ok <==> head != 0 || old(entries.CanAdd(n, granted))
    ensures !ok ==> entries.Elems(n) == old(entries.Elems(n))
    ensures head == 0 && ok ==>
              Count(entries.size, n) == slot + 1 && entries.Elems(n)[..slot] == old(entries.Elems(n))
  {
    if head != 0 {
      ok, slot := true, head / 2;
      var next := entries.Load(n, slot);
      head' := next % 0x1_0000_0000;
    } else {
      slot, head' := Count(entries.size, n), 0;
      ok := entries.AddElement(n, granted);
    }
  }

  /** wl_map_insert_new on the map's own table. */
  method InsertWord(n: WordSize, entries: WlArray, base: nat, head: uint32, flags: uint32, ptr: nat,
                    granted: bool, ghost free: seq<nat>)
    returns (id: uint32, err: Errno, head': uint32)
    requires EntryTable(entries, n) && LeadsTo(head, free, entries.Elems(n))
    requires head == 0 ==> entries.size + n <= Half(n)
    requires IsPointer(ptr, n) && base <= SERVER_ID_START
    modifies entries, entries.data
    ensures EntryTable(entries, n) && (entries.data == old(entries.data) || fresh(entries.data))
    ensures InsertsWord(base, OrFlag(ptr, flags), old(entries.Elems(n)), head, free,
                        entries.Elems(n), head', id, err)
    ensures err == NoMemory <==> head == 0 && !old(entries.CanAdd(n, granted))
  {
    ghost var own := entries.Elems(n);
    var ok, slot;
    ok, slot, head' := TakeSlot(n, entries, head, granted, free);
    if !ok {
      return 0, NoMemory, head';
    }
    ghost var own' := entries.Elems(n);
    id, err := FillSlot(n, entries, base, slot, flags, ptr);
    SetLast(own, own', if slot % 0x1_0000_0000 > MAX_OBJECTS then 0 else OrFlag(ptr, flags));
  }

  /** wl_map_insert_at on the table that `i` belongs to. */
  method StoreWord(n: WordSize, entries: WlArray, i: nat, flags: uint32, ptr: nat, granted: bool)
    returns (err: Errno)
    requires EntryTable(entries, n) && IsPointer(ptr, n) && Count(entries.size, n) < 0x1_0000_0000
    modifies entries, entries.data
    ensures EntryTable(entries, n) && (entries.data == old(entries.data) || fresh(entries.data))
    ensures Stored(entries.Elems(n), err) ==
            StoredWord(i, OrFlag(ptr, flags), old(entries.Elems(n)), old(entries.CanAdd(n, granted)))
  {
    if i > MAX_OBJECTS {
      return NoSpace;
    }
    ghost var words := entries.Elems(n);
    var count := Count(entries.size, n) % 0x1_0000_0000;
    if count < i {
      return Invalid;
    }
    if count == i {
      var ok := entries.AddElement(n, granted);
      if !ok {
        return NoMemory;
      }
      SetLast(words, entries.Elems(n), OrFlag(ptr, flags));
    }
    StoreEntry(n, entries, i, flags, ptr);
    return Success;
  }

  /** Where a reservation adds an entry, it is NULL. */
  method AppendEmpty(n: WordSize, entries: WlArray, granted: bool) returns (ok: bool)
    requires EntryTable(entries, n) && entries.size + n <= Half(n)
    modifies entries, entries.data
    ensures EntryTable(entries, n) && (entries.data == old(entries.data) || fresh(entries.data))
    ensures ok <==> old(entries.CanAdd(n, granted))
    ensures entries.Elems(n) == if ok then old(entries.Elems(n)) + [0] else old(entries.Elems(n))
  {
    ghost var words := entries.Elems(n);
    ok := entries.AddElement(n, granted);
    if ok {
      ghost var grown := entries.Elems(n);
      entries.Store(n, Count(entries.size, n) - 1, 0);
      SetLast(words, grown, 0);
    }
  }

  /** wl_map_reserve_new on the peer's table. */
  method ReserveWord(n: WordSize, entries: WlArray, i: nat, granted: bool) returns (err: Errno)
    requires EntryTable(entries, n) && Count(entries.size, n) < 0x1_0000_0000
    modifies entries, entries.data
    ensures EntryTable(entries, n) && (entries.data == old(entries.data) || fresh(entries.data))
    ensures Stored(entries.Elems(n), err) == ReservedWord(i, old(entries.Elems(n)), old(entries.CanAdd(n, granted)))
  {
    if i > MAX_OBJECTS {
      return NoSpace;
    }
    var count := Count(entries.size, n) % 0x1_0000_0000;
    if count < i {
      return Invalid;
    }
    if count == i {
      var ok := AppendEmpty(n, entries, granted);
      if !ok {
        return NoMemory;
      }
    } else {
      var entry := entries.Load(n, i);
      if entry != 0 {
        return Invalid;
      }
    }
    return Success;
  }

  /** for_each_helper: `func` maps an entry and the caller's data to new data and CONTINUE. */
  method ForEachHelper<S>(n: WordSize, entries: WlArray, func: (Entry, S) -> (S, bool), data: S,
                          ghost slots: seq<Slot>)
    returns (data': S, goOn: bool)
    requires EntryTable(entries, n) && SeesShown(slots, entries.Elems(n))
    ensures (data', goOn) == Fold(ShownEntries(slots, 0), func, data)
  {
    data', goOn := data, true;
    var count := Count(entries.size, n);
    var idx := 0;
    while idx < count
      invariant idx <= count && goOn
      invariant Fold(ShownEntries(slots, 0), func, data) == Fold(ShownEntries(slots, idx), func, data')
    {
      var entry := entries.Load(n, idx);
      assert Sees(slots[idx], entry);
      FoldStep(slots, idx, func, data');
      if Visible(entry) {
        var r := func(Entry(PointerOf(entry), FlagOf(entry)), data');
        data', goOn := r.0, r.1;
        if !goOn {
          break;
        }
      }
      idx := idx + 1;
    }
  }

  class WlMap {
    const n: WordSize
    const side: Side
    const clientEntries: WlArray
    const serverEntries: WlArray
    var freeList: uint32
    /** The slots and the free list that the words represent. */
    ghost var ids: Ids

    ghost function Own(): WlArray {
      if side.ClientSide? then clientEntries else serverEntries
    }

    ghost function Other(): WlArray {
      if side.ClientSide? then serverEntries else clientEntries
    }

    ghost function Repr(): set<object>
      reads Own(), Other()
    {
      {this, Own(), Own().data, Other(), Other().data}
    }

    ghost predicate Separate()
      reads Own(), Own().data, Other(), Other().data
    {
      Own() != Other() && Own().data != Other().data &&
      EntryTable(Own(), n) && EntryTable(Other(), n)
    }

    /** The words represent `ids`. */
    ghost predicate Intact()
      reads this, Own(), Own().data, Other(), Other().data
    {
      Separate() && ids.side == side &&
      ids in StatesOf(Own().Elems(n), Other().Elems(n), freeList)
    }

    /** The number of entries in each table fits in the 32 bits it is computed in. */
    ghost predicate Countable()
      reads Own(), Other()
    {
      Count(Own().size, n) < 0x1_0000_0000 && Count(Other().size, n) < 0x1_0000_0000
    }

    ghost predicate Valid()
      reads this, Own(), Own().data, Other(), Other().data
    {
      Intact() && Countable()
    }

    /** wl_map_init */
    constructor Init(n: WordSize, side: Side)
      ensures Valid() && fresh(Repr()) && this.n == n && this.side == side
      ensures ids == Empty(side) && Own().alloc == 0 && Other().alloc == 0
    {
      this.n, this.side := n, side;
      clientEntries := new WlArray.Init(n);
      serverEntries := new WlArray.Init(n);
      freeList, ids := 0, Empty(side);
    }

    /** The words now represent `t`. */
    ghost method Restate(t: Ids)
      requires Separate() && t.side == side
      requires t in StatesOf(Own().Elems(n), Other().Elems(n), freeList)
      modifies `ids
      ensures Intact() && ids == t
    {
      ids := t;
    }

    /** An insertion returns: it finds a freed entry, or the table can grow by one. */
    ghost predicate Room()
      reads this, Own()
    {
      freeList != 0 || Own().size + n <= Half(n)
    }

    /** And the number of entries still fits in 32 bits afterwards. */
    ghost predicate RoomToCount()
      reads this, Own()
    {
      freeList != 0 || Count(Own().size, n) < 0xffff_ffff
    }

    /** wl_map_insert_new on the words of the own table. */
    method InsertOwn(flags: uint32, ptr: nat, granted: bool, ghost free: seq<nat>)
      returns (id: uint32, err: Errno)
      requires Separate() && IsPointer(ptr, n) && Room()
      requires LeadsTo(freeList, free, Own().Elems(n))
      modifies `freeList, Own(), Own().data
      ensures old(Countable() && RoomToCount()) ==> Countable()
      ensures Separate() && (Own().data == old(Own().data) || fresh(Own().data))
      ensures Other().Elems(n) == old(Other().Elems(n))
      ensures InsertsWord(Base(side), OrFlag(ptr, flags), old(Own().Elems(n)), old(freeList), free,
                          Own().Elems(n), freeList, id, err)
      ensures err == NoMemory <==> old(freeList == 0 && !Own().CanAdd(n, granted))
    {
      var entries, base := serverEntries, SERVER_ID_START;
      if side.ClientSide? {
        entries, base := clientEntries, 0;
      }
      id, err, freeList := InsertWord(n, entries, base, freeList, flags, ptr, granted, free);
    }

    /** The words now represent what an insertion makes of the state that they represented before. */
    ghost method RestateInserted(own: seq<nat>, other: seq<nat>, head: uint32, flags: uint32, ptr: nat,
                                 id: uint32, err: Errno, ok: bool)
      requires Separate() && IsPointer(ptr, n) && ids.side == side && |own| < 0x1_0000_0000
      requires ids in StatesOf(own, other, head) && Other().Elems(n) == other
      requires err == NoMemory <==> head == 0 && !ok
      requires InsertsWord(Base(side), OrFlag(ptr, flags), own, head, ids.free,
                           Own().Elems(n), freeList, id, err)
      modifies `ids
      ensures Intact() && Inserted(ids, id, err) == IdMap.InsertNew(old(ids), flags, ptr, ok)
    {
      InsertsWordMeans(ids, flags, ptr, n, other, own, head, Own().Elems(n), freeList, id, err, ok);
      Restate(IdMap.InsertNew(ids, flags, ptr, ok).ids);
    }

    /** wl_map_insert_new */
    method InsertNew(flags: uint32, ptr: nat, granted: bool) returns (id: uint32, err: Errno)
      requires Valid() && IsPointer(ptr, n) && Room()
      modifies Repr()
      ensures Intact() && (old(RoomToCount()) ==> Valid()) && fresh(Repr() - old(Repr()))
      ensures Inserted(ids, id, err) ==
              IdMap.InsertNew(old(ids), flags, ptr, old(Own().CanAdd(n, granted)))
    {
      ghost var own, other, head := Own().Elems(n), Other().Elems(n), freeList;
      ghost var ok := Own().CanAdd(n, granted);
      HeadLeads(ids, own, other, head);
      id, err := InsertOwn(flags, ptr, granted, ids.free);
      RestateInserted(own, other, head, flags, ptr, id, err, ok);
    }

    /** The entry array an id belongs to. */
    function Table(id: uint32): WlArray {
      if id < SERVER_ID_START then clientEntries else serverEntries
    }

    /** The other one. */
    ghost function PeerTable(id: uint32): WlArray {
      if id < SERVER_ID_START then serverEntries else clientEntries
    }

    /** wl_map_insert_at on the words of the table the id belongs to. */
    method StoreTable(id: uint32, flags: uint32, ptr: nat, granted: bool) returns (err: Errno)
      requires Separate() && Countable() && IsPointer(ptr, n)
      modifies Table(id), Table(id).data
      ensures Separate() && Countable() && PeerTable(id).Elems(n) == old(PeerTable(id).Elems(n))
      ensures Table(id).data == old(Table(id).data) || fresh(Table(id).data)
      ensures Stored(Table(id).Elems(n), err) ==
              StoredWord(Index(id), OrFlag(ptr, flags), old(Table(id).Elems(n)),
                         old(Table(id).CanAdd(n, granted)))
    {
      err := StoreWord(n, Table(id), Index(id), flags, ptr, granted);
    }

    /**
     The words now represent what a store at `id` makes of the state that `own` and `other`
     represent, unless it is a freed own one.
     */
    ghost method RestateStored(own: seq<nat>, other: seq<nat>, flags: uint32, id: uint32, ptr: nat,
                               err: Errno, ok: bool)
      requires Separate() && IsPointer(ptr, n) && ids.side == side
      requires ids in StatesOf(own, other, freeList)
      requires var w := OrFlag(ptr, flags);
               if ids.Owns(id) then
                 Stored(Own().Elems(n), err) == StoredWord(Index(id), w, own, ok) && Other().Elems(n) == other
               else
                 Stored(Other().Elems(n), err) == StoredWord(Index(id), w, other, ok) && Own().Elems(n) == own
      modifies `ids
      ensures Own().Elems(n) == old(Own().Elems(n)) && Other().Elems(n) == old(Other().Elems(n))
      ensures old(CanInsertAt(ids, id)) ==>
                Intact() && Changed(ids, err) == IdMap.InsertAt(old(ids), flags, id, ptr, ok)
    {
      if CanInsertAt(ids, id) {
        StoresWordMeans(ids, own, other, freeList, flags, id, ptr, n, Own().Elems(n), Other().Elems(n), err, ok);
        Restate(IdMap.InsertAt(ids, flags, id, ptr, ok).ids);
      }
    }

    /**
     wl_map_insert_at. At a freed id of the own side the words change like at any other; what
     they then represent, if anything, is what StoreRepresentsIff says.
     */
    method InsertAt(flags: uint32, id: uint32, ptr: nat, granted: bool) returns (err: Errno)
      requires Valid() && IsPointer(ptr, n)
      modifies Repr()
      ensures Separate() && Countable() && fresh(Repr() - old(Repr())) && freeList == old(freeList)
      ensures Stored(Table(id).Elems(n), err) ==
              StoredWord(Index(id), OrFlag(ptr, flags), old(Table(id).Elems(n)),
                         old(Table(id).CanAdd(n, granted)))
      ensures PeerTable(id).Elems(n) == old(PeerTable(id).Elems(n))
      ensures old(CanInsertAt(ids, id)) ==>
                Valid() && Changed(ids, err) ==
                           IdMap.InsertAt(old(ids), flags, id, ptr, old(Table(id).CanAdd(n, granted)))
    {
      ghost var own, other, ok := Own().Elems(n), Other().Elems(n), Table(id).CanAdd(n, granted);
      assert Table(id) == if ids.Owns(id) then Own() else Other();
      assert PeerTable(id) == if ids.Owns(id) then Other() else Own();
      err := StoreTable(id, flags, ptr, granted);
      RestateStored(own, other, flags, id, ptr, err, ok);
    }

    /** wl_map_reserve_new */
    method ReserveNew(id: uint32, granted: bool) returns (err: Errno)
      requires Valid()
      modifies Repr()
      ensures Valid() && fresh(Repr() - old(Repr()))
      ensures Changed(ids, err) == IdMap.ReserveNew(old(ids), id, old(Table(id).CanAdd(n, granted)))
    {
      ghost var own, other, ok := Own().Elems(n), Other().Elems(n), Table(id).CanAdd(n, granted);
      if side.ClientSide? == (id < SERVER_ID_START) {
        err := Invalid;
      } else {
        err := ReserveWord(n, Table(id), Index(id), granted);
      }
      ReservesWordMeans(ids, own, other, freeList, id, Other().Elems(n), err, ok);
      Restate(IdMap.ReserveNew(ids, id, ok).ids);
    }

    /** The peer's ids are not removed here; an own one names an entry of the table. */
    ghost predicate InTable(id: uint32)
      reads this, Own()
    {
      ids.Owns(id) ==> Index(id) < Count(Own().size, n)
    }

    /**
     wl_map_remove. The words change alike whether or not the id is in use; what they then
     represent, if anything, is what RemoveRepresentsIff says.
     */
    method Remove(id: uint32)
      requires Valid() && InTable(id)
      modifies Repr()
      ensures Separate() && Countable() && Repr() == old(Repr())
      ensures Other().Elems(n) == old(Other().Elems(n))
      ensures if old(ids.Owns(id)) then
                Own().Elems(n) == old(Own().Elems(n))[Index(id) := old(freeList)] &&
                freeList == LinkWord(Index(id))
              else Own().Elems(n) == old(Own().Elems(n)) && freeList == old(freeList)
      ensures old(CanRemove(ids, id)) ==> Valid() && ids == IdMap.Remove(old(ids), id)
    {
      if side.ClientSide? != (id < SERVER_ID_START) {
        return;
      }
      ghost var own, other, head := Own().Elems(n), Other().Elems(n), freeList;
      Table(id).Store(n, Index(id), freeList);
      freeList := LinkWord(Index(id));
      if CanRemove(ids, id) {
        RemoveMeans(ids, own, other, head, id);
        Restate(IdMap.Remove(ids, id));
      }
    }

    /** An id in use names an entry. */
    lemma BoundIsInTable(id: uint32)
      requires Intact() && CanRemove(ids, id)
      ensures InTable(id)
    {
    }

    /** The word a lookup reads. */
    method EntryOf(id: uint32) returns (w: nat)
      requires Separate() && Countable()
      ensures w == ReadAt(Table(id).Elems(n), Index(id))
    {
      var entries, i := Table(id), Index(id);
      var count := Count(entries.size, n) % 0x1_0000_0000;
      w := 1;
      if i < count {
        w := entries.Load(n, i);
      }
    }

    /** wl_map_lookup */
    method LookUp(id: uint32) returns (ptr: nat)
      requires Valid()
      ensures ptr == Lookup(ids, id)
    {
      ReadsAsBinding(ids, Own().Elems(n), Other().Elems(n), freeList, id);
      var entry := EntryOf(id);
      if !TaggedFree(entry) {
        return PointerOf(entry);
      }
      return 0;
    }

    /** wl_map_lookup_flags */
    method LookUpFlags(id: uint32) returns (flags: nat)
      requires Valid()
      ensures flags == LookupFlags(ids, id) < 2
    {
      ReadsAsBinding(ids, Own().Elems(n), Other().Elems(n), freeList, id);
      var entry := EntryOf(id);
      if !TaggedFree(entry) {
        return FlagOf(entry);
      }
      return 0;
    }

    /** wl_map_for_each, for callbacks that leave the map alone */
    method ForEach<S>(func: (Entry, S) -> (S, bool), data: S) returns (data': S)
      requires Valid()
      ensures data' == Fold(VisitedEntries(ids), func, data).0
    {
      VisibleIffShown(ids, Own().Elems(n), Other().Elems(n), freeList);
      var ret;
      data', ret := ForEachHelper(n, clientEntries, func, data, ids.client);
      FoldSplit(ShownEntries(ids.client, 0), ShownEntries(ids.server, 0), func, data);
      if ret {
        data', ret := ForEachHelper(n, serverEntries, func, data', ids.server);
      }
    }
  }
}
