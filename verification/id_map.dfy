/**
 What an id map means: two tables of slots and a stack of freed indices.

 Ids below SERVER_ID_START index the client table, the others the server table. Each side
 of a connection hands out ids of its own table only and keeps a stack of those it took
 back; the other table mirrors what the peer handed out.
 */
module IdMap {
  import opened Sequences
  import opened Words
  import opened FreeList

  const SERVER_ID_START: nat := 0xff00_0000

  datatype Option<+T> = None | Some(value: T)

  datatype Errno = Success | NoMemory | NoSpace | Invalid

  datatype Side = ServerSide | ClientSide

  datatype Entry = Entry(ptr: nat, flag: nat)

  /** `Wasted`: a slot past the limit, added by an insertion that then failed. */
  datatype Slot = Live(entry: Entry) | Free | Wasted

  datatype Ids = Ids(side: Side, client: seq<Slot>, server: seq<Slot>, free: seq<nat>) {
    function Own(): seq<Slot> {
      if side.ClientSide? then client else server
    }

    function Other(): seq<Slot> {
      if side.ClientSide? then server else client
    }

    function WithOwn(slots: seq<Slot>, free: seq<nat>): Ids {
      if side.ClientSide? then Ids(side, slots, server, free) else Ids(side, client, slots, free)
    }

    function Table(id: uint32): seq<Slot> {
      if IsClientId(id) then client else server
    }

    function WithTable(id: uint32, slots: seq<Slot>): Ids {
      if IsClientId(id) then this.(client := slots) else this.(server := slots)
    }

    predicate Owns(id: uint32) {
      side.ClientSide? <==> IsClientId(id)
    }

    ghost predicate WellFormed() {
      Distinct(free) &&
      (forall i :: i in free ==> i < |Own()| && Own()[i] == Free) &&
      (forall i :: 0 <= i < |Own()| && Own()[i] == Free ==> i in free) &&
      (forall i :: 0 <= i < |Own()| ==> (Own()[i] == Wasted <==> i > MAX_OBJECTS)) &&
      (forall i :: 0 <= i < |Other()| ==> Other()[i].Live?) &&
      |Other()| <= MAX_OBJECTS + 1
    }

    /** The partial map from ids to entries that the structure stands for. */
    function Binding(id: uint32): Option<Entry> {
      var i := Index(id);
      if i < |Table(id)| && Table(id)[i].Live? then Some(Table(id)[i].entry) else None
    }
  }

  predicate IsClientId(id: uint32) {
    id < SERVER_ID_START
  }

  function Index(id: uint32): nat {
    if IsClientId(id) then id else id - SERVER_ID_START
  }

  function Base(side: Side): nat {
    if side.ClientSide? then 0 else SERVER_ID_START
  }

  function Empty(side: Side): Ids {
    Ids(side, [], [], [])
  }

  // ---------- the operations ----------
  // `ok` says whether memory is available, should the operation need any.

  datatype Inserted = Inserted(ids: Ids, id: uint32, err: Errno)

  datatype Changed = Changed(ids: Ids, err: Errno)

  ghost function InsertNew(s: Ids, flags: nat, ptr: nat, ok: bool): Inserted
    requires s.WellFormed()
  {
    var slot, own := Live(Entry(ptr, flags % 2)), s.Own();
    if s.free != [] then
      var i := s.free[0];
      assert i in s.free;
      Inserted(s.WithOwn(own[i := slot], s.free[1..]), Base(s.side) + i, Success)
    else if !ok then Inserted(s, 0, NoMemory)
    else if |own| > MAX_OBJECTS then Inserted(s.WithOwn(own + [Wasted], []), 0, NoSpace)
    else Inserted(s.WithOwn(own + [slot], []), Base(s.side) + |own|, Success)
  }

  function InsertAt(s: Ids, flags: nat, id: uint32, ptr: nat, ok: bool): Changed {
    var slot, table, i := Live(Entry(ptr, flags % 2)), s.Table(id), Index(id);
    if i > MAX_OBJECTS then Changed(s, NoSpace)
    else if |table| < i then Changed(s, Invalid)
    else if i < |table| then Changed(s.WithTable(id, table[i := slot]), Success)
    else if !ok then Changed(s, NoMemory)
    else Changed(s.WithTable(id, table + [slot]), Success)
  }

  const NULL_SLOT := Live(Entry(0, 0))

  function ReserveNew(s: Ids, id: uint32, ok: bool): Changed {
    var table, i := s.Table(id), Index(id);
    if s.Owns(id) then Changed(s, Invalid)
    else if i > MAX_OBJECTS then Changed(s, NoSpace)
    else if |table| < i then Changed(s, Invalid)
    else if i < |table| then Changed(s, if table[i] == NULL_SLOT then Success else Invalid)
    else if !ok then Changed(s, NoMemory)
    else Changed(s.WithTable(id, table + [NULL_SLOT]), Success)
  }

  /** How a side takes in an object that the peer named: it reserves the id, then stores there. */
  function ReserveAndInsert(s: Ids, flags: nat, id: uint32, ptr: nat, ok: bool): Changed {
    var r := ReserveNew(s, id, ok);
    if r.err != Success then r else Changed(InsertAt(r.ids, flags, id, ptr, true).ids, Success)
  }

  /** A reserved id has an entry, so storing there needs no memory; only the outcome of the reservation counts. */
  lemma StoreAfterReserve(s: Ids, flags: nat, id: uint32, ptr: nat, ok: bool, granted: bool)
    ensures var r := ReserveNew(s, id, ok);
            ReserveAndInsert(s, flags, id, ptr, r.err != NoMemory) ==
            if r.err == Success then InsertAt(r.ids, flags, id, ptr, granted) else r
    ensures var r := ReserveNew(s, id, ok); r.err == Success ==> CanInsertAt(r.ids, id)
  {
  }

  /** The caller gives back an id it was given, and once. */
  predicate CanRemove(s: Ids, id: uint32) {
    s.Owns(id) ==> s.Binding(id).Some?
  }

  function Remove(s: Ids, id: uint32): Ids
    requires CanRemove(s, id)
  {
    if s.Owns(id) then s.WithOwn(s.Own()[Index(id) := Free], [Index(id)] + s.free) else s
  }

  /**
   The end of wl_resource_destroy: a client's id is cleared in place and waits for the
   client, a server's id is freed.
   */
  function Unbound(s: Ids, id: uint32): Ids
    requires CanRemove(s, id)
  {
    if IsClientId(id) then InsertAt(s, 0, id, 0, true).ids else Remove(s, id)
  }

  /** On its own side a caller stores only at ids that are not free. */
  predicate CanInsertAt(s: Ids, id: uint32) {
    s.Owns(id) && Index(id) < |s.Own()| ==> s.Own()[Index(id)] != Free
  }

  function Lookup(s: Ids, id: uint32): nat {
    if s.Binding(id).Some? then s.Binding(id).value.ptr else 0
  }

  function LookupFlags(s: Ids, id: uint32): nat {
    if s.Binding(id).Some? then s.Binding(id).value.flag else 0
  }

  // ---------- every operation keeps the structure and touches one id ----------

  /** `t` binds `id` to `e` and every other id as `s` does. */
  ghost predicate Rebinds(s: Ids, t: Ids, id: uint32, e: Option<Entry>) {
    t.Binding(id) == e && forall j: uint32 :: j != id ==> t.Binding(j) == s.Binding(j)
  }

  ghost predicate SameBindings(s: Ids, t: Ids) {
    forall j: uint32 :: t.Binding(j) == s.Binding(j)
  }

  lemma InsertNewKeeps(s: Ids, flags: nat, ptr: nat, ok: bool)
    requires s.WellFormed()
    ensures InsertNew(s, flags, ptr, ok).ids.WellFormed()
  {
    var t := InsertNew(s, flags, ptr, ok).ids;
    assert t.Other() == s.Other();
    if s.free != [] {
      assert s.free[0] in s.free;
      assert t.Own() == s.Own()[s.free[0] := Live(Entry(ptr, flags % 2))];
      assert t.free == s.free[1..];
      forall i | i in t.free
        ensures i in s.free && i != s.free[0]
      {
        var k :| 0 <= k < |t.free| && t.free[k] == i;
        assert s.free[k + 1] == i;
      }
      forall i | i in s.free && i != s.free[0]
        ensures i in t.free
      {
        var k :| 0 <= k < |s.free| && s.free[k] == i;
        assert t.free[k - 1] == i;
      }
    } else {
      assert t.free == [] && s.Own() <= t.Own();
      assert forall i :: 0 <= i < |s.Own()| ==> t.Own()[i] == s.Own()[i] && s.Own()[i] != Free;
    }
  }

  /** A successful insertion binds an id of the map's own range that was not bound before. */
  lemma InsertNewBinds(s: Ids, flags: nat, ptr: nat, ok: bool)
    requires s.WellFormed()
    ensures var r := InsertNew(s, flags, ptr, ok);
            r.err == Success ==>
              s.Owns(r.id) && Index(r.id) <= MAX_OBJECTS && s.Binding(r.id) == None &&
              Rebinds(s, r.ids, r.id, Some(Entry(ptr, flags % 2)))
    ensures var r := InsertNew(s, flags, ptr, ok);
            r.err != Success ==> r.id == 0 && SameBindings(s, r.ids)
  {
    if s.free != [] {
      assert s.free[0] in s.free;
    }
  }

  lemma InsertAtKeeps(s: Ids, flags: nat, id: uint32, ptr: nat, ok: bool)
    requires s.WellFormed() && CanInsertAt(s, id)
    ensures InsertAt(s, flags, id, ptr, ok).ids.WellFormed()
    ensures InsertAt(s, flags, id, ptr, ok).ids.free == s.free
  {
  }

  /** On slots, marking a freed id of the own side as in use is what breaks the structure, and nothing else. */
  lemma InsertAtKeepsIff(s: Ids, flags: nat, id: uint32, ptr: nat, ok: bool)
    requires s.WellFormed()
    ensures InsertAt(s, flags, id, ptr, ok).ids.WellFormed() <==> CanInsertAt(s, id)
  {
    var t := InsertAt(s, flags, id, ptr, ok).ids;
    if CanInsertAt(s, id) {
      InsertAtKeeps(s, flags, id, ptr, ok);
    } else {
      assert Index(id) in s.free && t.free == s.free;
      assert t.Own()[Index(id)].Live?;
    }
  }

  /**
   A store succeeds only within the limit and with every lower index of the table present.
   It never touches the free list, and at a peer's id not the own table either.
   */
  lemma InsertAtBinds(s: Ids, flags: nat, id: uint32, ptr: nat, ok: bool)
    ensures var r := InsertAt(s, flags, id, ptr, ok);
            if r.err != Success then r.ids == s else
              Index(id) <= MAX_OBJECTS && Index(id) <= |s.Table(id)| &&
              r.ids.free == s.free && (!s.Owns(id) ==> r.ids.Own() == s.Own()) &&
              Rebinds(s, r.ids, id, Some(Entry(ptr, flags % 2)))
  {
  }

  lemma ReserveNewKeeps(s: Ids, id: uint32, ok: bool)
    requires s.WellFormed()
    ensures ReserveNew(s, id, ok).ids.WellFormed()
  {
  }

  /**
   A reservation succeeds only for the peer's ids, only with every lower id of the peer in
   use already, and only where nothing is stored.
   */
  lemma ReserveNewBinds(s: Ids, id: uint32, ok: bool)
    requires s.WellFormed()
    ensures var r := ReserveNew(s, id, ok);
            if r.err != Success then r.ids == s else
              !s.Owns(id) && Index(id) <= MAX_OBJECTS && Index(id) <= |s.Other()| &&
              (s.Binding(id) == None || s.Binding(id) == Some(Entry(0, 0))) &&
              r.ids.Own() == s.Own() && r.ids.free == s.free &&
              Rebinds(s, r.ids, id, Some(Entry(0, 0)))
    ensures ReserveNew(s, id, ok).err == Success ==>
              forall j: uint32 :: !s.Owns(j) && Index(j) < Index(id) ==> s.Binding(j).Some?
  {
  }

  lemma RemoveKeeps(s: Ids, id: uint32)
    requires s.WellFormed() && CanRemove(s, id)
    ensures Remove(s, id).WellFormed()
  {
    var t := Remove(s, id);
    if s.Owns(id) {
      assert Index(id) !in s.free;
      forall i | i in s.free
        ensures i in t.free
      {
        assert t.free[1..] == s.free;
      }
      assert t.free[0] == Index(id);
    }
  }

  lemma RemoveBinds(s: Ids, id: uint32)
    requires CanRemove(s, id)
    ensures s.Owns(id) ==> Rebinds(s, Remove(s, id), id, None)
    ensures !s.Owns(id) ==> Remove(s, id) == s
  {
  }

  // ---------- when each operation succeeds, and how it fails ----------

  /** There is an entry for the id: it is in use, or it was and is waiting to be used again. */
  ghost predicate HasEntry(s: Ids, id: uint32) {
    s.Binding(id).Some? || (s.Owns(id) && Index(id) in s.free)
  }

  predicate SameTable(id: uint32, j: uint32) {
    IsClientId(id) <==> IsClientId(j)
  }

  /** Every lower id of the same table has an entry. */
  ghost predicate NoGapBelow(s: Ids, id: uint32) {
    forall j: uint32 :: SameTable(id, j) && Index(j) < Index(id) ==> HasEntry(s, j)
  }

  lemma EntryIff(s: Ids, id: uint32)
    requires s.WellFormed() && Index(id) <= MAX_OBJECTS
    ensures HasEntry(s, id) <==> Index(id) < |s.Table(id)|
  {
    var i := Index(id);
    if s.Owns(id) && i < |s.Own()| {
      assert s.Own()[i] == Free ==> i in s.free;
    }
  }

  lemma GapIff(s: Ids, id: uint32)
    requires s.WellFormed() && Index(id) <= MAX_OBJECTS
    ensures NoGapBelow(s, id) <==> Index(id) <= |s.Table(id)|
  {
    forall j: uint32 | SameTable(id, j) && Index(j) < Index(id)
      ensures HasEntry(s, j) <==> Index(j) < |s.Table(id)|
    {
      EntryIff(s, j);
    }
    if |s.Table(id)| < Index(id) {
      var j: uint32 := id - Index(id) + |s.Table(id)|;
      assert SameTable(id, j) && Index(j) == |s.Table(id)|;
    }
  }

  /** A store at an id meets one of these four cases, whatever it stores. */
  lemma InsertAtOutcome(s: Ids, flags: nat, id: uint32, ptr: nat, ok: bool)
    requires s.WellFormed()
    ensures var err := InsertAt(s, flags, id, ptr, ok).err;
            (err == NoSpace <==> Index(id) > MAX_OBJECTS) &&
            (err == Invalid <==> Index(id) <= MAX_OBJECTS && !NoGapBelow(s, id)) &&
            (err == NoMemory <==>
               Index(id) <= MAX_OBJECTS && NoGapBelow(s, id) && !HasEntry(s, id) && !ok) &&
            (err == Success <==>
               Index(id) <= MAX_OBJECTS && NoGapBelow(s, id) && (HasEntry(s, id) || ok))
  {
    if Index(id) <= MAX_OBJECTS {
      GapIff(s, id);
      EntryIff(s, id);
    }
  }

  /** Every lower id of the peer is in use. */
  ghost predicate LowerIdsBound(s: Ids, id: uint32) {
    forall j: uint32 :: !s.Owns(j) && Index(j) < Index(id) ==> s.Binding(j).Some?
  }

  /** A reservation meets one of these four cases. */
  lemma ReserveNewOutcome(s: Ids, id: uint32, ok: bool)
    requires s.WellFormed()
    ensures var err, taken := ReserveNew(s, id, ok).err, Lookup(s, id) != 0 || LookupFlags(s, id) != 0;
            (err == NoSpace <==> !s.Owns(id) && Index(id) > MAX_OBJECTS) &&
            (err == Invalid <==>
               s.Owns(id) || (Index(id) <= MAX_OBJECTS && (!LowerIdsBound(s, id) || taken))) &&
            (err == NoMemory <==>
               !s.Owns(id) && Index(id) <= MAX_OBJECTS && LowerIdsBound(s, id) &&
               s.Binding(id) == None && !ok) &&
            (err == Success <==>
               !s.Owns(id) && Index(id) <= MAX_OBJECTS && LowerIdsBound(s, id) && !taken &&
               (s.Binding(id).Some? || ok))
  {
    if !s.Owns(id) && Index(id) <= MAX_OBJECTS {
      GapIff(s, id);
      assert NoGapBelow(s, id) <==> LowerIdsBound(s, id) by {
        assert forall j: uint32 :: SameTable(id, j) <==> !s.Owns(j);
      }
    }
  }

  /** Only an insertion without freed ids asks for a slot, and a full map gets one in vain. */
  lemma InsertNewGrowsIff(s: Ids, flags: nat, ptr: nat, ok: bool)
    requires s.WellFormed()
    ensures var t := InsertNew(s, flags, ptr, ok).ids;
            t.Other() == s.Other() && |s.Own()| <= |t.Own()| <= |s.Own()| + 1 &&
            (|t.Own()| > |s.Own()| <==> ok && forall i :: 0 <= i < |s.Own()| ==> s.Own()[i] != Free)
  {
    if s.free != [] {
      assert s.free[0] in s.free;
      assert s.Own()[s.free[0]] == Free;
    }
  }

  // ---------- completeness of the allocator ----------

  /** Insertion runs out of ids if and only if every id of the own side is in use. */
  lemma NoSpaceIff(s: Ids, flags: nat, ptr: nat, ok: bool)
    requires s.WellFormed()
    ensures var r := InsertNew(s, flags, ptr, ok);
            r.err == NoSpace <==> ok && |s.Own()| > MAX_OBJECTS &&
                                  forall i :: 0 <= i <= MAX_OBJECTS ==> s.Own()[i].Live?
    ensures var r := InsertNew(s, flags, ptr, ok);
            r.err == NoMemory <==> !ok && forall i :: 0 <= i < |s.Own()| ==> s.Own()[i] != Free
    ensures InsertNew(s, flags, ptr, ok).err != Invalid
  {
    if s.free != [] {
      assert s.free[0] in s.free;
      assert s.Own()[s.free[0]] == Free;
    }
  }

  /** A failed insertion and a legitimate id 0 look alike exactly while slot 0 is not taken. */
  lemma ZeroMeansFailureIff(s: Ids, flags: nat, ptr: nat, ok: bool)
    requires s.WellFormed()
    ensures var r := InsertNew(s, flags, ptr, ok);
            r.id == 0 && r.err == Success <==>
              s.side.ClientSide? && ((s.free != [] && s.free[0] == 0) || (ok && s.client == []))
    ensures s.side.ServerSide? || s.Binding(0).Some? ==>
              var r := InsertNew(s, flags, ptr, ok); r.id == 0 <==> r.err != Success
  {
    if s.free != [] {
      assert s.free[0] in s.free;
    }
  }

  /**
   The index of a fresh slot is truncated to 32 bits before it becomes an id. For a slot
   that passes the limit check, the id leads back to the slot if and only if nothing was
   dropped, that is, the slot is within the limit.
   */
  lemma FreshIdRoutesIff(side: Side, slot: nat)
    requires slot % 0x1_0000_0000 <= MAX_OBJECTS
    ensures var id := Base(side) + slot % 0x1_0000_0000;
            id < 0x1_0000_0000 &&
            (IsClientId(id) <==> side.ClientSide?) &&
            (Index(id) == slot <==> slot <= MAX_OBJECTS)
  {
  }

  // ---------- the free list is a stack ----------

  function RemoveAll(s: Ids, ids: seq<uint32>): (t: Ids)
    requires AllOwnBound(s, ids)
    decreases |ids|
  {
    if ids == [] then s else
      RemovedStillBound(s, ids);
      RemoveAll(Remove(s, ids[0]), ids[1..])
  }

  /** `ids` are distinct ids of the own side, all in use. */
  predicate AllOwnBound(s: Ids, ids: seq<uint32>) {
    (forall k :: 0 <= k < |ids| ==> s.Owns(ids[k]) && s.Binding(ids[k]).Some?) &&
    Distinct(ids)
  }

  lemma RemovedStillBound(s: Ids, ids: seq<uint32>)
    requires AllOwnBound(s, ids) && ids != []
    ensures AllOwnBound(Remove(s, ids[0]), ids[1..])
  {
    RemoveBinds(s, ids[0]);
    forall k | 0 <= k < |ids| - 1
      ensures Remove(s, ids[0]).Binding(ids[1..][k]) == s.Binding(ids[k + 1])
    {
      assert ids[0] != ids[k + 1];
    }
  }

  /** The ids that `|entries|` insertions in a row return; none may fail. */
  ghost function InsertEach(s: Ids, entries: seq<Entry>): (r: (Ids, seq<uint32>, bool))
    requires s.WellFormed()
    ensures r.0.WellFormed()
    decreases |entries|
  {
    if entries == [] then (s, [], true) else
      var k := |entries| - 1;
      var r := InsertEach(s, entries[..k]);
      var last := InsertNew(r.0, entries[k].flag, entries[k].ptr, false);
      InsertNewKeeps(r.0, entries[k].flag, entries[k].ptr, false);
      (last.ids, r.1 + [last.id], r.2 && last.err == Success)
  }

  function Reverse(ids: seq<uint32>): (r: seq<uint32>)
    ensures |r| == |ids|
  {
    if ids == [] then [] else Reverse(ids[1..]) + [ids[0]]
  }

  lemma {:induction false} RemoveAllKeeps(s: Ids, ids: seq<uint32>)
    requires s.WellFormed() && AllOwnBound(s, ids)
    ensures RemoveAll(s, ids).WellFormed()
    decreases |ids|
  {
    if ids != [] {
      RemovedStillBound(s, ids);
      RemoveKeeps(s, ids[0]);
      RemoveAllKeeps(Remove(s, ids[0]), ids[1..]);
    }
  }

  /** `r` inserted at `ids`, last first, and left the free list and the tables' sizes as in `s`. */
  ghost predicate Restores(s: Ids, ids: seq<uint32>, r: (Ids, seq<uint32>, bool)) {
    r.2 && r.1 == Reverse(ids) &&
    r.0.free == s.free && r.0.side == s.side &&
    |r.0.Own()| == |s.Own()| && r.0.Other() == s.Other()
  }

  /**
   Removing k distinct ids and then inserting k times, without any memory to allocate,
   returns the ids in reverse order, restores the free list and grows no table.
   */
  lemma {:induction false} StackLaw(s: Ids, ids: seq<uint32>, entries: seq<Entry>)
    requires s.WellFormed() && AllOwnBound(s, ids) && |entries| == |ids|
    ensures RemoveAll(s, ids).WellFormed()
    ensures Restores(s, ids, InsertEach(RemoveAll(s, ids), entries))
  {
    RemoveAllKeeps(s, ids);
    StackLawStep(s, ids, entries);
  }

  lemma {:induction false} StackLawStep(s: Ids, ids: seq<uint32>, entries: seq<Entry>)
    requires s.WellFormed() && AllOwnBound(s, ids) && |entries| == |ids|
    requires RemoveAll(s, ids).WellFormed()
    ensures Restores(s, ids, InsertEach(RemoveAll(s, ids), entries))
    decreases |ids|
  {
    if ids != [] {
      var k := |entries| - 1;
      var t := Remove(s, ids[0]);
      RemovedStillBound(s, ids);
      RemoveKeeps(s, ids[0]);
      StackLawStep(t, ids[1..], entries[..k]);
      var u := InsertEach(RemoveAll(t, ids[1..]), entries[..k]).0;
      LastInsert(s, ids[0], u, entries[k]);
    }
  }

  /** The step at the bottom of the stack: `u` still has `id`, removed from `s`, on top. */
  lemma LastInsert(s: Ids, id: uint32, u: Ids, e: Entry)
    requires s.WellFormed() && s.Owns(id) && s.Binding(id).Some?
    requires u.WellFormed() && u.free == Remove(s, id).free && u.side == s.side
    requires |u.Own()| == |s.Own()| && u.Other() == s.Other()
    ensures var r := InsertNew(u, e.flag, e.ptr, false);
            r.err == Success && r.id == id && r.ids.free == s.free && r.ids.side == s.side &&
            |r.ids.Own()| == |s.Own()| && r.ids.Other() == s.Other()
  {
    assert u.free[1..] == s.free;
  }

  // ---------- every run ----------

  datatype Op =
    | NewId(flags: nat, ptr: nat, ok: bool)
    | StoreAt(flags: nat, id: uint32, ptr: nat, ok: bool)
    | Reserve(id: uint32, ok: bool)
    | Release(id: uint32)

  predicate Allowed(s: Ids, op: Op) {
    match op
    case StoreAt(_, id, _, _) => CanInsertAt(s, id)
    case Release(id) => CanRemove(s, id)
    case _ => true
  }

  /** What the caller sees of an operation: the id and the error. */
  datatype Reply = Reply(id: uint32, err: Errno)

  ghost function Apply(s: Ids, op: Op): (r: (Ids, Reply))
    requires s.WellFormed() && Allowed(s, op)
  {
    match op
    case NewId(flags, ptr, ok) =>
      var r := InsertNew(s, flags, ptr, ok); (r.ids, Reply(r.id, r.err))
    case StoreAt(flags, id, ptr, ok) =>
      var r := InsertAt(s, flags, id, ptr, ok); (r.ids, Reply(id, r.err))
    case Reserve(id, ok) =>
      var r := ReserveNew(s, id, ok); (r.ids, Reply(id, r.err))
    case Release(id) => (Remove(s, id), Reply(id, Success))
  }

  /** The caller's own record of a run, kept from the replies alone. */
  function Record(side: Side, m: map<uint32, Entry>, op: Op, reply: Reply): map<uint32, Entry> {
    if reply.err != Success then m else
      match op
      case NewId(flags, ptr, _) => m[reply.id := Entry(ptr, flags % 2)]
      case StoreAt(flags, id, ptr, _) => m[id := Entry(ptr, flags % 2)]
      case Reserve(id, _) => m[id := Entry(0, 0)]
      case Release(id) => if Empty(side).Owns(id) then m - {id} else m
  }

  ghost predicate Agree(s: Ids, m: map<uint32, Entry>) {
    forall id: uint32 :: s.Binding(id) == if id in m then Some(m[id]) else None
  }

  lemma ApplyKeeps(s: Ids, op: Op)
    requires s.WellFormed() && Allowed(s, op)
    ensures Apply(s, op).0.WellFormed() && Apply(s, op).0.side == s.side
  {
    match op
    case NewId(flags, ptr, ok) => InsertNewKeeps(s, flags, ptr, ok);
    case StoreAt(flags, id, ptr, ok) => InsertAtKeeps(s, flags, id, ptr, ok);
    case Reserve(id, ok) => ReserveNewKeeps(s, id, ok);
    case Release(id) => RemoveKeeps(s, id);
  }

  lemma ApplyAgrees(s: Ids, m: map<uint32, Entry>, op: Op)
    requires s.WellFormed() && Allowed(s, op) && Agree(s, m)
    ensures var (t, reply) := Apply(s, op);
            Agree(t, Record(s.side, m, op, reply)) &&
            (op.NewId? && reply.err == Success ==> reply.id !in m)
  {
    match op
    case NewId(flags, ptr, ok) => InsertNewBinds(s, flags, ptr, ok);
    case StoreAt(flags, id, ptr, ok) => InsertAtBinds(s, flags, id, ptr, ok);
    case Reserve(id, ok) => ReserveNewBinds(s, id, ok);
    case Release(id) => RemoveBinds(s, id);
  }

  /** Step `k` of a run leads from one state and record to the next. */
  ghost predicate Follows(states: seq<Ids>, records: seq<map<uint32, Entry>>, ops: seq<Op>, k: nat)
    requires k < |ops| && k + 1 < |states| && k + 1 < |records|
  {
    states[k].WellFormed() && Allowed(states[k], ops[k]) &&
    var (t, reply) := Apply(states[k], ops[k]);
    states[k + 1] == t && records[k + 1] == Record(states[k].side, records[k], ops[k], reply)
  }

  /** A run from an empty map, with the record its caller keeps. */
  ghost predicate IsRun(side: Side, states: seq<Ids>, records: seq<map<uint32, Entry>>, ops: seq<Op>) {
    |states| == |records| == |ops| + 1 && states[0] == Empty(side) && records[0] == map[] &&
    forall k :: 0 <= k < |ops| ==> Follows(states, records, ops, k)
  }

  /**
   Refinement: at every point of every run the map answers as the caller's record does,
   for every id, and an id that is handed out is one the record does not hold.
   */
  lemma RunsRefinePartialMap(side: Side, states: seq<Ids>, records: seq<map<uint32, Entry>>, ops: seq<Op>,
                             k: nat)
    requires IsRun(side, states, records, ops) && k < |states|
    ensures var s, m := states[k], records[k];
            s.WellFormed() && s.side == side &&
            (forall id: uint32 :: Lookup(s, id) == if id in m then m[id].ptr else 0) &&
            (forall id: uint32 :: LookupFlags(s, id) == if id in m then m[id].flag else 0) &&
            (forall op :: Allowed(s, op) && op.NewId? && Apply(s, op).1.err == Success ==>
               Apply(s, op).1.id !in m)
  {
    RunAgrees(side, states, records, ops, k);
    var s, m := states[k], records[k];
    forall op | Allowed(s, op) && op.NewId?
      ensures Apply(s, op).1.err == Success ==> Apply(s, op).1.id !in m
    {
      ApplyAgrees(s, m, op);
    }
  }

  lemma {:induction false} RunAgrees(side: Side, states: seq<Ids>, records: seq<map<uint32, Entry>>,
                                     ops: seq<Op>, k: nat)
    requires IsRun(side, states, records, ops) && k < |states|
    ensures states[k].WellFormed() && states[k].side == side && Agree(states[k], records[k])
  {
    if k > 0 {
      RunAgrees(side, states, records, ops, k - 1);
      assert Follows(states, records, ops, k - 1);
      ApplyKeeps(states[k - 1], ops[k - 1]);
      ApplyAgrees(states[k - 1], records[k - 1], ops[k - 1]);
    }
  }
}
