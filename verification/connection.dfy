/**
 A whole connection: a client's map and a server's map on the heap, and the messages between
 them. Whatever calls were made, the state is one that a run of module Protocol reaches, so
 everything proved there of every run holds of it.
 */
module Connections {
  import opened Words
  import opened IdMap
  import opened Protocol
  import opened Endpoints

  datatype Connection = Connection(client: ClientEnd, server: ServerEnd, up: seq<Msg>, down: seq<Msg>) {

    ghost function State(): System
      reads client, client.objects, server, server.objects
    {
      System(client.objects.ids, server.objects.ids, up, down, client.meant, server.bound,
             client.tags, server.open, server.display)
    }

    /** The ends share nothing, and each has its map. */
    ghost predicate Valid()
      reads client, client.objects, client.objects.Own(), client.objects.Own().data
      reads client.objects.Other(), client.objects.Other().data
      reads server, server.objects, server.objects.Own(), server.objects.Own().data
      reads server.objects.Other(), server.objects.Other().data
    {
      client.Repr() !! server.Repr() && client.Valid() && server.Valid() &&
      (State().open ==> Reached(State()))
    }

    /** The client's part of a create step. */
    method ClientCreates(ptr: nat, granted: bool, ghost s: System) returns (sent: seq<Msg>, err: Errno)
      requires client.Valid() && client.PartOf(s) && client.Repr() !! server.Repr()
      requires IsPointer(ptr, client.objects.n) && client.objects.Room() && client.objects.RoomToCount()
      modifies client.Repr()
      ensures client.Valid() && fresh(client.Repr() - old(client.Repr())) && client.Repr() !! server.Repr()
      ensures Created(s, ptr, err != NoMemory) == client.Update(s, sent)
      ensures granted ==> err != NoMemory
    {
      sent, err := client.Create(ptr, granted, s);
    }

    method Create(ptr: nat, granted: bool) returns (next: Connection, err: Errno)
      requires Valid() && server.open && IsPointer(ptr, client.objects.n)
      requires client.objects.Room() && client.objects.RoomToCount()
      modifies client.Repr()
      ensures next.Valid() && next.client == client && next.server == server
      ensures fresh(client.Repr() - old(client.Repr()))
      ensures next.State() == Next(old(State()), Step.Create(ptr, err != NoMemory))
      ensures granted ==> err != NoMemory
    {
      ghost var s := State();
      var sent;
      sent, err := ClientCreates(ptr, granted, s);
      next := this.(up := up + sent);
      assert next.State() == Created(s, ptr, err != NoMemory);
      ReachedGoesOn(s, Step.Create(ptr, err != NoMemory));
    }

    method Ask(id: uint32) returns (next: Connection)
      requires Valid() && Enabled(State(), Step.Ask(id))
      ensures next.Valid() && next.client == client && next.server == server
      ensures next.State() == Next(State(), Step.Ask(id))
    {
      ghost var s := State();
      ReachedGoesOn(s, Step.Ask(id));
      var sent := client.Ask(id, s);
      next := this.(up := up + sent);
    }

    /** The server's part of a serve step. */
    method ServerServes(ptr: nat, flags: uint32, granted: bool, ghost s: System) returns (err: Errno)
      requires server.Valid() && server.PartOf(s) && client.Repr() !! server.Repr() && s.up == up && up != []
      requires s.open && ptr != 0 && IsPointer(ptr, server.objects.n)
      modifies server.Repr()
      ensures server.Valid() && fresh(server.Repr() - old(server.Repr())) && client.Repr() !! server.Repr()
      ensures Served(s, ptr, flags, err != NoMemory) == server.Update(s, []).(up := up[1..])
      ensures (server.open <==> err == Success) && (granted ==> err != NoMemory)
    {
      err := server.Serve(up[0], ptr, flags, granted, s);
    }

    /**
     The server takes the next message; `ptr` and `flags` are for a new object, which it can
     only fail to take for lack of memory.
     */
    method Serve(ptr: nat, flags: uint32, granted: bool) returns (next: Connection, err: Errno)
      requires Valid() && Enabled(State(), Step.Serve(ptr, flags, true)) && IsPointer(ptr, server.objects.n)
      modifies server.Repr()
      ensures next.Valid() && next.client == client && next.server == server
      ensures fresh(server.Repr() - old(server.Repr()))
      ensures next.State() == Next(old(State()), Step.Serve(ptr, flags, err != NoMemory))
      ensures err in {Success, NoMemory} && (granted ==> err == Success)
    {
      ghost var s := State();
      assert down + [] == down;
      err := ServerServes(ptr, flags, granted, s);
      next := this.(up := up[1..]);
      assert next.State() == Served(s, ptr, flags, err != NoMemory);
      ReachedGoesOn(s, Step.Serve(ptr, flags, err != NoMemory));
      MemoryIsEnough(s, ptr, flags, err != NoMemory);
    }

    method Bind(id: uint32)
      requires Valid() && Enabled(State(), Step.Bind(id))
      modifies server`display
      ensures Valid() && State() == Next(old(State()), Step.Bind(id))
    {
      ghost var s := State();
      ReachedGoesOn(s, Step.Bind(id));
      assert down + [] == down;
      server.Bind(id, s);
      assert State() == Next(s, Step.Bind(id));
    }

    method Notify(id: uint32) returns (next: Connection)
      requires Valid() && Enabled(State(), Step.Notify(id))
      ensures next.Valid() && next.client == client && next.server == server
      ensures next.State() == Next(State(), Step.Notify(id))
    {
      ghost var s := State();
      ReachedGoesOn(s, Step.Notify(id));
      var sent := server.Notify(id, s);
      next := this.(down := down + sent);
    }

    method Destroy(id: uint32) returns (next: Connection)
      requires Valid() && Enabled(State(), Step.Destroy(id))
      modifies server.Repr()
      ensures next.Valid() && next.client == client && next.server == server
      ensures fresh(server.Repr() - old(server.Repr()))
      ensures next.State() == Next(old(State()), Step.Destroy(id))
    {
      ghost var s := State();
      ReachedGoesOn(s, Step.Destroy(id));
      var sent := server.Destroy(id, s);
      next := this.(down := down + sent);
      assert next.State() == Next(s, Step.Destroy(id));
    }

    /** The client takes the next message. */
    method Hear() returns (next: Connection)
      requires Valid() && Enabled(State(), Step.Hear)
      modifies client.Repr()
      ensures next.Valid() && next.client == client && next.server == server
      ensures client.Repr() == old(client.Repr())
      ensures Defined(old(State()), Step.Hear) && next.State() == Next(old(State()), Step.Hear)
    {
      ghost var s := State();
      ReachedGoesOn(s, Step.Hear);
      client.Hear(down[0], s);
      assert up + [] == up;
      next := this.(down := down[1..]);
      assert next.State() == Next(s, Step.Hear);
    }
  }

  /** Two ends that share nothing; without memory for id 0 on both sides they are not open. */
  method NewEnds(n: WordSize, clientGranted: bool, serverGranted: bool) returns (client: ClientEnd, server: ServerEnd)
    ensures client.Valid() && server.Valid() && fresh(client.Repr()) && fresh(server.Repr())
    ensures client.Repr() !! server.Repr()
    ensures server.open <==> clientGranted && serverGranted
    ensures server.open ==> client.PartOf(Start()) && server.PartOf(Start())
  {
    client := new ClientEnd(n, clientGranted);
    var ready := client.objects.clientEntries.size != 0;
    ghost var first := client.Repr();
    label Between:
    assert forall o <- first :: allocated(o);
    server := new ServerEnd(n, ready, serverGranted);
    assert forall o <- server.Repr() :: fresh@Between(o);
    assert client.Repr() == first;
  }

  method Connect(n: WordSize, clientGranted: bool, serverGranted: bool) returns (c: Connection)
    ensures c.Valid() && fresh(c.client.Repr()) && fresh(c.server.Repr())
    ensures c.State().open <==> clientGranted && serverGranted
    ensures c.State().open ==> c.State() == Start()
  {
    StartIsReached();
    var client, server := NewEnds(n, clientGranted, serverGranted);
    c := Connection(client, server, [], []);
  }
}
