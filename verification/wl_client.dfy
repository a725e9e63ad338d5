/**
 A client as the server sees it, with the part of wl_resource_destroy that does something.
 */
module Clients {
  import opened Words
  import opened IdMap
  import opened Maps
  import opened Resources

  /** The server takes in an object at an id that the client chose; only the first call may ask for memory. */
  method TakeIn(objects: WlMap, flags: uint32, id: uint32, ptr: nat, granted: bool) returns (err: Errno)
    requires objects.Valid() && IsPointer(ptr, objects.n)
    modifies objects.Repr()
    ensures objects.Valid() && fresh(objects.Repr() - old(objects.Repr()))
    ensures Changed(objects.ids, err) == ReserveAndInsert(old(objects.ids), flags, id, ptr, err != NoMemory)
    ensures granted ==> err != NoMemory
  {
    ghost var ok := objects.Table(id).CanAdd(objects.n, granted);
    StoreAfterReserve(objects.ids, flags, id, ptr, ok, false);
    err := objects.ReserveNew(id, granted);
    if err == Success {
      StoreAfterReserve(old(objects.ids), flags, id, ptr, ok, objects.Table(id).CanAdd(objects.n, false));
      var stored := objects.InsertAt(flags, id, ptr, false);
    }
  }

  /**
   What wl_resource_destroy does about the id: it clears a client's id in place, and the
   client is to be told of that if there is a display resource; a server's id it frees.
   Neither asks for memory.
   */
  method ReleaseId(objects: WlMap, hasDisplay: bool, id: uint32) returns (tell: bool)
    requires objects.Valid() && objects.side == ServerSide && objects.ids.Binding(id).Some?
    modifies objects.Repr()
    ensures objects.Valid() && fresh(objects.Repr() - old(objects.Repr()))
    ensures objects.ids == Unbound(old(objects.ids), id)
    ensures tell <==> IsClientId(id) && hasDisplay
  {
    tell := false;
    if id < SERVER_ID_START {
      tell := hasDisplay;
      var err := objects.InsertAt(0, id, 0, false);
    } else {
      objects.BoundIsInTable(id);
      objects.Remove(id);
    }
  }

  class WlClient {
    const objects: WlMap
    /** display_resource: its address, or 0 */
    var display: nat
    var memory: map<nat, Resource>
    var log: seq<Action>
    /** About each resource, by serial number. */
    var made: seq<Made>

    ghost predicate Valid()
      reads objects, objects.Own(), objects.Own().data, objects.Other(), objects.Other().data
    {
      this !in objects.Repr() && objects.side == ServerSide && objects.Valid()
    }

    ghost function State(): Client
      reads this, objects
    {
      Client(objects.ids, memory, log, display, made)
    }

    constructor (n: WordSize)
      ensures Valid() && fresh(objects) && State() == NewClient(Empty(ServerSide)) && Blank(State().ids)
    {
      objects := new WlMap.Init(n, ServerSide);
      display, memory, log, made := 0, map[], [], [];
    }

    /** wl_client_get_object */
    method GetObject(id: uint32) returns (p: nat)
      requires Valid()
      ensures p == Lookup(State().ids, id)
    {
      p := objects.LookUp(id);
    }

    /** resource_is_deprecated */
    method IsDeprecated(r: Resource) returns (deprecated: bool)
      requires Valid()
      ensures deprecated <==> LookupFlags(objects.ids, r.id) == 1
    {
      var flags := objects.LookUpFlags(r.id);
      deprecated := flags % 2 == 1;
    }

    /** destroy_resource */
    method DestroyResource(p: nat, flags: nat)
      requires Valid() && p in memory && flags == LookupFlags(objects.ids, memory[p].id) < 2
      modifies `memory, `log, `display
      ensures log == old(log) + Teardown(old(memory[p]), flags == 1)
      ensures memory == Without(old(memory), p, flags == 1)
      ensures display == DisplayAfter(old(display), old(memory[p]))
    {
      var r := memory[p];
      var done := [OldSignal(r.serial)];
      var deprecated := IsDeprecated(r);
      if !deprecated {
        done := done + [FinalSignal(r.serial)];
      }
      if r.onDestroy != NoDestructor {
        done := done + [Destructor(r.serial)];
        if r.onDestroy == ClearsDisplay {
          display := 0;
        }
      }
      if flags % 2 == 0 {
        memory := memory - {p};
        done := done + [Freed(r.serial)];
      } else {
        memory := memory[p := r.(destroyed := true)];
      }
      log := log + done;
    }

    /** A new resource at an id of the server's. */
    method AddOwn(addr: nat, flags: uint32, hasDestructor: bool, granted: bool)
      returns (id: uint32, err: Errno)
      requires Valid() && IsPointer(addr, objects.n) && objects.Room() && objects.RoomToCount()
      requires Enabled(State(), Step.AddOwn(addr, flags, hasDestructor, true))
      modifies this, objects.Repr()
      ensures Valid() && fresh(objects.Repr() - old(objects.Repr()))
      ensures State() == Next(old(State()), Step.AddOwn(addr, flags, hasDestructor, err != NoMemory))
      ensures granted ==> err != NoMemory
    {
      id, err := objects.InsertNew(flags, addr, granted);
      if err == Success {
        memory := memory[addr := NewResource(id, hasDestructor, |made|)];
        made := made + [Made(flags % 2 == 1, hasDestructor)];
      }
    }

    /** A new resource at an id the client chose. */
    method AddPeer(addr: nat, id: uint32, flags: uint32, hasDestructor: bool, granted: bool) returns (err: Errno)
      requires Valid() && IsPointer(addr, objects.n)
      requires Enabled(State(), Step.AddPeer(addr, id, flags, hasDestructor, true))
      modifies this, objects.Repr()
      ensures Valid() && fresh(objects.Repr() - old(objects.Repr()))
      ensures State() == Next(old(State()), Step.AddPeer(addr, id, flags, hasDestructor, err != NoMemory))
      ensures granted ==> err != NoMemory
    {
      err := TakeIn(objects, flags, id, addr, granted);
      if err == Success {
        memory := memory[addr := NewResource(id, hasDestructor, |made|)];
        made := made + [Made(flags % 2 == 1, hasDestructor)];
      }
    }

    /** What bind_display is for: one of the resources becomes the display resource. */
    method BindDisplay(addr: nat)
      requires Valid() && Enabled(State(), Step.BindDisplay(addr))
      modifies `memory, `display, `made
      ensures Valid() && State() == Next(old(State()), Step.BindDisplay(addr))
    {
      made := WithDestructor(made, memory[addr].serial);
      memory := memory[addr := memory[addr].(onDestroy := ClearsDisplay)];
      display := addr;
    }

    /** The owner of a legacy resource frees the block it is part of. */
    method OwnerFrees(addr: nat)
      requires Valid() && Enabled(State(), Step.OwnerFrees(addr))
      modifies `memory
      ensures Valid() && State() == Next(old(State()), Step.OwnerFrees(addr))
    {
      memory := memory - {addr};
    }

    /** wl_resource_destroy */
    method ResourceDestroy(p: nat)
      requires Valid() && p in memory && objects.ids.Binding(memory[p].id).Some?
      modifies this, objects.Repr()
      ensures Valid() && fresh(objects.Repr() - old(objects.Repr()))
      ensures State() == Destroyed(old(State()), p)
    {
      var id := memory[p].id;
      var flags := objects.LookUpFlags(id);
      DestroyResource(p, flags);
      var tell := ReleaseId(objects, display != 0, id);
      log := log + if tell then [SendDeleteId(id)] else [];
    }
  }
}
