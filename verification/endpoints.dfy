/**
 The two ends of a connection, each working on its own wl_map.

 A method does what one end does in a step of module Protocol, and its contract says that
 the whole system takes just that step: for any state `s` of the system that this end is
 part of, whatever the other end and the channels hold.
 */
module Endpoints {
  import opened Words
  import opened IdMap
  import opened Maps
  import Clients
  import opened Protocol

  /** A client's map with id 0 taken, if there was memory for that. */
  method StartClient(n: WordSize, granted: bool) returns (m: WlMap)
    ensures m.Valid() && fresh(m.Repr()) && m.n == n
    ensures granted <==> m.ids.client != []
    ensures granted ==> m.ids == InsertNew(Empty(ClientSide), 0, 0, true).ids
  {
    m := new WlMap.Init(n, ClientSide);
    var id, err := m.InsertNew(0, 0, granted);
  }

  /** A server's map with nothing stored at id 0, if there was memory for that. */
  method StartServer(n: WordSize, granted: bool) returns (m: WlMap, ok: bool)
    ensures m.Valid() && fresh(m.Repr()) && m.n == n && m.side == ServerSide
    ensures ok == granted
    ensures ok ==> m.ids == InsertAt(Empty(ServerSide), 0, 0, 0, true).ids
  {
    m := new WlMap.Init(n, ServerSide);
    var err := m.InsertAt(0, 0, 0, granted);
    ok := err == Success;
  }

  class ClientEnd {
    const objects: WlMap
    var meant: map<uint32, nat>
    var tags: nat

    ghost function Repr(): set<object>
      reads objects.Own(), objects.Other()
    {
      {this} + objects.Repr()
    }

    ghost predicate Valid()
      reads objects, objects.Own(), objects.Own().data, objects.Other(), objects.Other().data
    {
      this !in objects.Repr() && objects.Valid()
    }

    ghost predicate PartOf(s: System)
      reads this, objects
    {
      s.client == objects.ids && s.meant == meant && s.tags == tags && s.open
    }

    /** `s` with what this end has now, and `sent` under way to the server. */
    ghost function Update(s: System, sent: seq<Msg>): System
      reads this, objects
    {
      s.(client := objects.ids, meant := meant, tags := tags, up := s.up + sent)
    }

    /** The client takes id 0 for itself. */
    constructor (n: WordSize, granted: bool)
      ensures Valid() && fresh(Repr()) && objects.n == n
      ensures granted <==> objects.ids.client != []
      ensures granted ==> PartOf(Start())
    {
      var m := StartClient(n, granted);
      objects, meant, tags := m, map[], 0;
    }

    method Take(ptr: nat, granted: bool) returns (id: uint32, err: Errno)
      requires Valid() && IsPointer(ptr, objects.n) && objects.Room() && objects.RoomToCount()
      modifies objects.Repr()
      ensures Valid() && fresh(objects.Repr() - old(objects.Repr()))
      ensures Inserted(objects.ids, id, err) == InsertNew(old(objects.ids), 0, ptr, err != NoMemory)
      ensures granted ==> err != NoMemory
    {
      id, err := objects.InsertNew(0, ptr, granted);
    }

    method Create(ptr: nat, granted: bool, ghost s: System) returns (sent: seq<Msg>, err: Errno)
      requires Valid() && PartOf(s) && IsPointer(ptr, objects.n) && objects.Room() && objects.RoomToCount()
      modifies Repr()
      ensures Valid() && fresh(Repr() - old(Repr()))
      ensures Created(s, ptr, err != NoMemory) == Update(s, sent)
      ensures granted ==> err != NoMemory
    {
      var id;
      sent := [];
      id, err := Take(ptr, granted);
      CreatedOutcome(s, ptr, Inserted(objects.ids, id, err));
      if err == Success {
        sent := [New(id, tags)];
        meant, tags := meant[id := tags], tags + 1;
      }
    }

    method Ask(id: uint32, ghost s: System) returns (sent: seq<Msg>)
      requires Valid() && PartOf(s) && Enabled(s, Step.Ask(id)) && Defined(s, Step.Ask(id))
      ensures Next(s, Step.Ask(id)) == Update(s, sent)
    {
      sent := [Request(id, TagAt(meant, id))];
    }

    /** Takes message `m`, the first on its way to the client. */
    method Hear(m: Msg, ghost s: System)
      requires Valid() && PartOf(s) && s.down != [] && s.down[0] == m
      requires Defined(s, Step.Hear)
      modifies objects.Repr()
      ensures Valid() && Repr() == old(Repr())
      ensures Next(s, Step.Hear) == Update(s, []).(down := s.down[1..])
    {
      if m.DeleteId? {
        objects.BoundIsInTable(m.id);
        objects.Remove(m.id);
      }
    }
  }

  class ServerEnd {
    const objects: WlMap
    /** The id of the display resource, if there is one. */
    var display: Option<uint32>
    var bound: map<uint32, nat>
    var open: bool

    ghost function Repr(): set<object>
      reads objects.Own(), objects.Other()
    {
      {this} + objects.Repr()
    }

    ghost predicate Valid()
      reads objects, objects.Own(), objects.Own().data, objects.Other(), objects.Other().data
    {
      this !in objects.Repr() && objects.side == ServerSide && objects.Valid()
    }

    ghost predicate PartOf(s: System)
      reads this, objects
    {
      s.server == objects.ids && s.bound == bound && s.open == open && s.display == display
    }

    ghost function Update(s: System, sent: seq<Msg>): System
      reads this, objects
    {
      s.(server := objects.ids, bound := bound, open := open, display := display, down := s.down + sent)
    }

    /**
     The server keeps id 0 free of objects; without memory for that, or with a client that
     is not ready, there is no connection.
     */
    constructor (n: WordSize, ready: bool, granted: bool)
      ensures Valid() && fresh(Repr()) && objects.n == n
      ensures open <==> ready && granted
      ensures open ==> PartOf(Start())
    {
      var m, ok := StartServer(n, granted);
      objects, bound, open, display := m, map[], ok && ready, None;
    }

    method Admit(id: uint32, ptr: nat, flags: uint32, granted: bool) returns (err: Errno)
      requires Valid() && IsPointer(ptr, objects.n)
      modifies objects.Repr()
      ensures Valid() && fresh(objects.Repr() - old(objects.Repr()))
      ensures Changed(objects.ids, err) ==
              ReserveAndInsert(old(objects.ids), flags, id, ptr, err != NoMemory)
      ensures granted ==> err != NoMemory
    {
      err := Clients.TakeIn(objects, flags, id, ptr, granted);
    }

    /** Takes message `m`, the first on its way to the server; `ptr` is for a new object. */
    method Serve(m: Msg, ptr: nat, flags: uint32, granted: bool, ghost s: System) returns (err: Errno)
      requires Valid() && PartOf(s) && s.up != [] && s.up[0] == m && IsPointer(ptr, objects.n)
      requires open && ptr != 0
      modifies Repr()
      ensures Valid() && fresh(Repr() - old(Repr()))
      ensures Served(s, ptr, flags, err != NoMemory) == Update(s, []).(up := s.up[1..])
      ensures open <==> err == Success
      ensures granted ==> err != NoMemory
    {
      err := Success;
      assert s.down + [] == s.down;
      if m.New? {
        err := Admit(m.id, ptr, flags, granted);
        open := err == Success;
        if open {
          bound := bound[m.id := m.tag];
        }
      }
    }

    method Notify(id: uint32, ghost s: System) returns (sent: seq<Msg>)
      requires Valid() && PartOf(s) && Enabled(s, Step.Notify(id)) && Defined(s, Step.Notify(id))
      ensures Next(s, Step.Notify(id)) == Update(s, sent)
    {
      sent := [Event(id, TagAt(bound, id))];
    }

    /** What bind_display is for: the object at `id` becomes the display resource. */
    method Bind(id: uint32, ghost s: System)
      requires Valid() && PartOf(s) && Enabled(s, Step.Bind(id)) && Defined(s, Step.Bind(id))
      modifies `display
      ensures Next(s, Step.Bind(id)) == Update(s, [])
    {
      display := Some(id);
      assert s.down + [] == s.down;
    }

    /**
     wl_resource_destroy: the destructor of the display resource clears the pointer to it;
     then the slot is cleared in place and delete_id queued if there is a display resource.
     */
    method Destroy(id: uint32, ghost s: System) returns (sent: seq<Msg>)
      requires Valid() && PartOf(s) && Enabled(s, Step.Destroy(id)) && Defined(s, Step.Destroy(id))
      modifies Repr()
      ensures Valid() && fresh(Repr() - old(Repr()))
      ensures Next(s, Step.Destroy(id)) == Update(s, sent)
    {
      if display == Some(id) {
        display := None;
      }
      var tell := Clients.ReleaseId(objects, display.Some?, id);
      sent := if tell then [DeleteId(id)] else [];
    }
  }
}
