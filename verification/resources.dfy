/**
 The life of a resource: it enters the object map of a client, is looked up there, and is
 destroyed once.

 Memory maps the address of every block that holds a resource to that resource. A legacy
 resource is part of a block of its owner's: destroying it does not free the block.
 Signals, destructors and deallocation are recorded in a log, in the order they happen.
 Resources carry a serial number to tell them apart when an address is used again.

 One resource may be the display resource, through which the client is told of destroyed
 objects. Its destructor clears the client's pointer to it.
 */
module Resources {
  import opened Words
  import opened IdMap

  datatype OnDestroy = NoDestructor | UsersDestructor | ClearsDisplay

  datatype Resource = Resource(id: uint32, onDestroy: OnDestroy, serial: nat, destroyed: bool)

  datatype Action =
    | OldSignal(serial: nat)
    | FinalSignal(serial: nat)
    | Destructor(serial: nat)
    | Freed(serial: nat)
    | SendDeleteId(id: uint32)

  /** What does not change when a resource is destroyed: its insertion, and whether it has a destructor. */
  datatype Made = Made(legacy: bool, destructs: bool)

  /**
   `display` is the address of the display resource or 0; `made[k]` is about the resource
   with serial `k`.
   */
  datatype Client = Client(
    ids: Ids, memory: map<nat, Resource>, log: seq<Action>, display: nat, made: seq<Made>)

  function NewClient(ids: Ids): Client {
    Client(ids, map[], [], 0, [])
  }

  /** A map that binds no id, like a new one or one whose id 0 was taken to hold nothing. */
  ghost predicate Blank(ids: Ids) {
    ids.WellFormed() && ids.side == ServerSide && forall id: uint32 :: Lookup(ids, id) == 0
  }

  datatype Step =
    | AddOwn(addr: nat, flags: nat, hasDestructor: bool, ok: bool)
    | AddPeer(addr: nat, id: uint32, flags: nat, hasDestructor: bool, ok: bool)
    | BindDisplay(addr: nat)
    | DestroyAt(addr: nat)
    | OwnerFrees(addr: nat)

  ghost predicate Enabled(c: Client, step: Step) {
    c.ids.WellFormed() &&
    match step
    case AddOwn(addr, _, _, _) => addr != 0 && addr !in c.memory
    case AddPeer(addr, _, _, _, _) => addr != 0 && addr !in c.memory
    case BindDisplay(addr) => c.display == 0 && addr in c.memory && !c.memory[addr].destroyed
    case DestroyAt(addr) =>
      addr in c.memory && !c.memory[addr].destroyed && CanRemove(c.ids, c.memory[addr].id)
    case OwnerFrees(addr) => addr in c.memory && c.memory[addr].destroyed
  }

  function NewResource(id: uint32, hasDestructor: bool, serial: nat): Resource {
    Resource(id, if hasDestructor then UsersDestructor else NoDestructor, serial, false)
  }

  function Place(c: Client, ids: Ids, addr: nat, id: uint32, flags: nat, hasDestructor: bool): Client {
    c.(ids := ids, memory := c.memory[addr := NewResource(id, hasDestructor, |c.made|)],
       made := c.made + [Made(flags % 2 == 1, hasDestructor)])
  }

  /** What destroy_resource does, in order. */
  function Teardown(r: Resource, legacy: bool): seq<Action> {
    [OldSignal(r.serial)] +
    (if legacy then [] else [FinalSignal(r.serial)]) +
    (if r.onDestroy != NoDestructor then [Destructor(r.serial)] else []) +
    (if legacy then [] else [Freed(r.serial)])
  }

  function Without(memory: map<nat, Resource>, addr: nat, legacy: bool): map<nat, Resource>
    requires addr in memory
  {
    if legacy then memory[addr := memory[addr].(destroyed := true)] else memory - {addr}
  }

  /** The pointer to the display resource once `r`'s destructor ran. */
  function DisplayAfter(display: nat, r: Resource): nat {
    if r.onDestroy == ClearsDisplay then 0 else display
  }

  function Destroyed(c: Client, addr: nat): Client
    requires addr in c.memory && CanRemove(c.ids, c.memory[addr].id)
  {
    var r := c.memory[addr];
    var legacy, display := LookupFlags(c.ids, r.id) == 1, DisplayAfter(c.display, r);
    c.(ids := Unbound(c.ids, r.id), memory := Without(c.memory, addr, legacy), display := display,
       log := c.log + Teardown(r, legacy) +
              if IsClientId(r.id) && display != 0 then [SendDeleteId(r.id)] else [])
  }

  /** The resource becomes the display resource. */
  function Bound(c: Client, addr: nat): Client
    requires addr in c.memory
  {
    var r := c.memory[addr];
    c.(memory := c.memory[addr := r.(onDestroy := ClearsDisplay)], display := addr,
       made := WithDestructor(c.made, r.serial))
  }

  function WithDestructor(made: seq<Made>, serial: nat): seq<Made> {
    if serial < |made| then made[serial := made[serial].(destructs := true)] else made
  }

  ghost function Next(c: Client, step: Step): Client
    requires Enabled(c, step)
  {
    match step
    case AddOwn(addr, flags, hasDestructor, ok) =>
      var r := InsertNew(c.ids, flags, addr, ok);
      if r.err == Success then Place(c, r.ids, addr, r.id, flags, hasDestructor) else c.(ids := r.ids)
    case AddPeer(addr, id, flags, hasDestructor, ok) =>
      var r := ReserveAndInsert(c.ids, flags, id, addr, ok);
      if r.err == Success then Place(c, r.ids, addr, id, flags, hasDestructor) else c.(ids := r.ids)
    case BindDisplay(addr) => Bound(c, addr)
    case DestroyAt(addr) => Destroyed(c, addr)
    case OwnerFrees(addr) => c.(memory := c.memory - {addr})
  }

  // ---------- what every step keeps ----------

  /** What the map finds at an id is a resource that is there and was given that id. */
  ghost predicate FoundIsThere(c: Client) {
    forall id: uint32 :: Lookup(c.ids, id) != 0 ==>
      var p := Lookup(c.ids, id);
      p in c.memory && c.memory[p].id == id && !c.memory[p].destroyed
  }

  /** And a resource that was not destroyed is found at its id, with its flag. */
  ghost predicate ThereIsFound(c: Client) {
    forall p :: p in c.memory && !c.memory[p].destroyed ==> IsFound(c, p)
  }

  predicate IsFound(c: Client, p: nat)
    requires p in c.memory
  {
    var r := c.memory[p];
    p != 0 && c.ids.Binding(r.id).Some? && Lookup(c.ids, r.id) == p &&
    r.serial < |c.made| && (LookupFlags(c.ids, r.id) == 1 <==> c.made[r.serial].legacy) &&
    (r.onDestroy != NoDestructor <==> c.made[r.serial].destructs)
  }

  predicate Alive(c: Client, k: nat) {
    exists p :: p in c.memory && c.memory[p].serial == k && !c.memory[p].destroyed
  }

  ghost predicate SerialsDiffer(c: Client) {
    (forall p :: p in c.memory ==> c.memory[p].serial < |c.made|) &&
    forall p, q :: p in c.memory && q in c.memory && p != q ==> c.memory[p].serial != c.memory[q].serial
  }

  /** The resource with serial `k` was destroyed. */
  predicate IsOver(c: Client, k: nat) {
    k < |c.made| && !Alive(c, k)
  }

  /** How often something happened. */
  function Times(c: Client, a: Action): nat {
    multiset(c.log)[a]
  }

  /** What destroy_resource does happened once to each resource that is over, and to no other. */
  ghost predicate DoneOnce(c: Client, k: nat) {
    Times(c, OldSignal(k)) == (if IsOver(c, k) then 1 else 0) &&
    Times(c, FinalSignal(k)) == (if IsOver(c, k) && !c.made[k].legacy then 1 else 0) &&
    Times(c, Destructor(k)) == (if IsOver(c, k) && c.made[k].destructs then 1 else 0) &&
    Times(c, Freed(k)) == (if IsOver(c, k) && !c.made[k].legacy then 1 else 0)
  }

  predicate IsAbout(a: Action, k: nat) {
    !a.SendDeleteId? && a.serial == k
  }

  /** Of two things that happen to a resource, the one of lower rank happens first. */
  function Rank(a: Action): nat {
    match a
    case OldSignal(_) => 0
    case FinalSignal(_) => 1
    case Destructor(_) => 2
    case Freed(_) => 3
    case SendDeleteId(_) => 4
  }

  predicate InOrder(log: seq<Action>) {
    forall i, j :: 0 <= i < j < |log| && !log[i].SendDeleteId? && IsAbout(log[j], log[i].serial) ==>
      Rank(log[i]) < Rank(log[j])
  }

  /** A block that holds a destroyed resource belongs to an owner. */
  ghost predicate OnlyLegacyStays(c: Client) {
    forall p :: p in c.memory && c.memory[p].destroyed ==>
      c.memory[p].serial < |c.made| && c.made[c.memory[p].serial].legacy
  }

  /**
   The pointer to the display resource does not dangle, and just that resource has the
   destructor that clears it.
   */
  ghost predicate DisplayIsThere(c: Client) {
    (c.display != 0 ==> c.display in c.memory && !c.memory[c.display].destroyed) &&
    forall p :: p in c.memory && !c.memory[p].destroyed ==>
      (c.memory[p].onDestroy == ClearsDisplay <==> p == c.display)
  }

  ghost predicate Sound(c: Client) {
    c.ids.WellFormed() && c.ids.side == ServerSide &&
    FoundIsThere(c) && ThereIsFound(c) && SerialsDiffer(c) && DisplayIsThere(c) &&
    OnlyLegacyStays(c) && InOrder(c.log) && forall k: nat :: DoneOnce(c, k)
  }

  lemma PlaceIsSound(c: Client, ids: Ids, addr: nat, id: uint32, flags: nat, hasDestructor: bool)
    requires Sound(c) && addr != 0 && addr !in c.memory
    requires ids.WellFormed() && ids.side == ServerSide
    requires Rebinds(c.ids, ids, id, Some(Entry(addr, flags % 2))) && Lookup(c.ids, id) == 0
    ensures Sound(Place(c, ids, addr, id, flags, hasDestructor))
  {
    var d := Place(c, ids, addr, id, flags, hasDestructor);
    forall j: uint32 | Lookup(ids, j) != 0
      ensures Lookup(ids, j) in d.memory && d.memory[Lookup(ids, j)].id == j
      ensures !d.memory[Lookup(ids, j)].destroyed
    {
      assert j != id ==> Lookup(c.ids, j) == Lookup(ids, j);
    }
    forall p | p in d.memory && !d.memory[p].destroyed
      ensures IsFound(d, p)
    {
      assert p != addr ==> IsFound(c, p);
    }
    forall k: nat
      ensures DoneOnce(d, k)
    {
      assert DoneOnce(c, k);
      PlaceAlive(c, ids, addr, id, flags, hasDestructor, k);
    }
  }

  lemma PlaceAlive(c: Client, ids: Ids, addr: nat, id: uint32, flags: nat, hasDestructor: bool, k: nat)
    requires Sound(c) && addr !in c.memory
    ensures var d := Place(c, ids, addr, id, flags, hasDestructor);
            Alive(d, k) <==> Alive(c, k) || k == |c.made|
  {
    var d := Place(c, ids, addr, id, flags, hasDestructor);
    assert d.memory[addr].serial == |c.made|;
    if Alive(c, k) {
      var p :| p in c.memory && c.memory[p].serial == k && !c.memory[p].destroyed;
      assert p in d.memory && d.memory[p] == c.memory[p];
    }
  }

  /** One teardown is about its own resource only, and does each thing once or not at all. */
  lemma TeardownCounts(r: Resource, legacy: bool, k: nat)
    ensures var done, own := multiset(Teardown(r, legacy)), k == r.serial;
            done[OldSignal(k)] == (if own then 1 else 0) &&
            done[FinalSignal(k)] == (if own && !legacy then 1 else 0) &&
            done[Destructor(k)] == (if own && r.onDestroy != NoDestructor then 1 else 0) &&
            done[Freed(k)] == (if own && !legacy then 1 else 0)
  {
  }

  /** How destroying a resource leaves the map and the memory. */
  lemma DestroyUnbinds(c: Client, p: nat)
    requires Sound(c) && p in c.memory && !c.memory[p].destroyed
    ensures CanRemove(c.ids, c.memory[p].id)
    ensures var d, id := Destroyed(c, p), c.memory[p].id;
            d.ids.WellFormed() && d.ids.side == ServerSide &&
            Lookup(d.ids, id) == 0 &&
            forall j: uint32 :: j != id ==> d.ids.Binding(j) == c.ids.Binding(j)
  {
    assert IsFound(c, p);
    var id := c.memory[p].id;
    if IsClientId(id) {
      InsertAtKeeps(c.ids, 0, id, 0, true);
      InsertAtBinds(c.ids, 0, id, 0, true);
    } else {
      RemoveKeeps(c.ids, id);
      RemoveBinds(c.ids, id);
    }
  }

  lemma DestroyAlive(c: Client, p: nat, k: nat)
    requires SerialsDiffer(c) && p in c.memory && !c.memory[p].destroyed && CanRemove(c.ids, c.memory[p].id)
    ensures Alive(c, c.memory[p].serial)
    ensures Alive(Destroyed(c, p), k) <==> Alive(c, k) && k != c.memory[p].serial
  {
    var d := Destroyed(c, p);
    if Alive(c, k) && k != c.memory[p].serial {
      var q :| q in c.memory && c.memory[q].serial == k && !c.memory[q].destroyed;
      assert q in d.memory && d.memory[q] == c.memory[q];
    }
  }

  /** What a destroy adds to the log. */
  function Added(c: Client, p: nat): seq<Action>
    requires p in c.memory
  {
    var r := c.memory[p];
    Teardown(r, LookupFlags(c.ids, r.id) == 1) +
    if IsClientId(r.id) && DisplayAfter(c.display, r) != 0 then [SendDeleteId(r.id)] else []
  }

  lemma DestroyLogs(c: Client, p: nat)
    requires p in c.memory && CanRemove(c.ids, c.memory[p].id)
    ensures Destroyed(c, p).log == c.log + Added(c, p)
  {
  }

  lemma AddedCounts(c: Client, p: nat, a: Action)
    requires p in c.memory && CanRemove(c.ids, c.memory[p].id) && !a.SendDeleteId?
    ensures var r := c.memory[p];
            Times(Destroyed(c, p), a) ==
            Times(c, a) + multiset(Teardown(r, LookupFlags(c.ids, r.id) == 1))[a]
  {
    var r := c.memory[p];
    var teardown := Teardown(r, LookupFlags(c.ids, r.id) == 1);
    var told := Added(c, p)[|teardown|..];
    DestroyLogs(c, p);
    assert Destroyed(c, p).log == c.log + teardown + told;
    assert multiset(told)[a] == 0;
  }

  /** How a destroy changes the counts of serial `k`; `own` if that is the one destroyed. */
  ghost predicate CountsUp(c: Client, d: Client, k: nat, own: bool)
    requires own ==> k < |c.made|
  {
    Times(d, OldSignal(k)) == Times(c, OldSignal(k)) + (if own then 1 else 0) &&
    Times(d, FinalSignal(k)) == Times(c, FinalSignal(k)) + (if own && !c.made[k].legacy then 1 else 0) &&
    Times(d, Destructor(k)) == Times(c, Destructor(k)) + (if own && c.made[k].destructs then 1 else 0) &&
    Times(d, Freed(k)) == Times(c, Freed(k)) + (if own && !c.made[k].legacy then 1 else 0)
  }

  lemma DestroyCounts(c: Client, p: nat, k: nat)
    requires p in c.memory && CanRemove(c.ids, c.memory[p].id) && IsFound(c, p)
    ensures CountsUp(c, Destroyed(c, p), k, k == c.memory[p].serial)
  {
    TeardownCounts(c.memory[p], LookupFlags(c.ids, c.memory[p].id) == 1, k);
    AddedCounts(c, p, OldSignal(k));
    AddedCounts(c, p, FinalSignal(k));
    AddedCounts(c, p, Destructor(k));
    AddedCounts(c, p, Freed(k));
  }

  lemma DestroyDoesOnce(c: Client, p: nat, k: nat)
    requires SerialsDiffer(c) && DoneOnce(c, k)
    requires p in c.memory && !c.memory[p].destroyed && IsFound(c, p) && CanRemove(c.ids, c.memory[p].id)
    ensures DoneOnce(Destroyed(c, p), k)
  {
    DestroyAlive(c, p, k);
    DestroyCounts(c, p, k);
  }

  /** The teardown of a resource to which nothing happened yet keeps the log in order. */
  lemma TeardownInOrder(log: seq<Action>, r: Resource, legacy: bool, told: seq<Action>)
    requires InOrder(log) && forall i :: 0 <= i < |log| ==> !IsAbout(log[i], r.serial)
    requires forall i :: 0 <= i < |told| ==> told[i].SendDeleteId?
    ensures InOrder(log + Teardown(r, legacy) + told)
  {
  }

  lemma DestroyInOrder(c: Client, p: nat)
    requires Sound(c) && p in c.memory && !c.memory[p].destroyed && CanRemove(c.ids, c.memory[p].id)
    ensures InOrder(Destroyed(c, p).log)
  {
    var r := c.memory[p];
    var teardown := Teardown(r, LookupFlags(c.ids, r.id) == 1);
    forall i | 0 <= i < |c.log|
      ensures !IsAbout(c.log[i], r.serial)
    {
      UntouchedWhileAlive(c, p, i);
    }
    TeardownInOrder(c.log, r, LookupFlags(c.ids, r.id) == 1, Added(c, p)[|teardown|..]);
    DestroyLogs(c, p);
    assert c.log + Added(c, p) == c.log + teardown + Added(c, p)[|teardown|..];
  }

  lemma UntouchedWhileAlive(c: Client, p: nat, i: nat)
    requires Sound(c) && p in c.memory && !c.memory[p].destroyed && i < |c.log|
    ensures !IsAbout(c.log[i], c.memory[p].serial)
  {
    var k := c.memory[p].serial;
    assert DoneOnce(c, k) && Alive(c, k);
    assert c.log[i] in multiset(c.log);
  }

  lemma DestroyFinds(c: Client, p: nat)
    requires Sound(c) && p in c.memory && !c.memory[p].destroyed && CanRemove(c.ids, c.memory[p].id)
    ensures FoundIsThere(Destroyed(c, p)) && ThereIsFound(Destroyed(c, p))
  {
    DestroyUnbinds(c, p);
    var d := Destroyed(c, p);
    forall j: uint32 | Lookup(d.ids, j) != 0
      ensures Lookup(d.ids, j) in d.memory && d.memory[Lookup(d.ids, j)].id == j
      ensures !d.memory[Lookup(d.ids, j)].destroyed
    {
      assert Lookup(c.ids, j) == Lookup(d.ids, j);
    }
    forall q | q in d.memory && !d.memory[q].destroyed
      ensures IsFound(d, q)
    {
      assert IsFound(c, q) && IsFound(c, p);
    }
  }

  lemma DestroyIsSound(c: Client, p: nat)
    requires Sound(c) && p in c.memory && !c.memory[p].destroyed
    ensures CanRemove(c.ids, c.memory[p].id) && Sound(Destroyed(c, p))
  {
    DestroyUnbinds(c, p);
    DestroyFinds(c, p);
    DestroyInOrder(c, p);
    assert IsFound(c, p);
    forall k: nat
      ensures DoneOnce(Destroyed(c, p), k)
    {
      assert DoneOnce(c, k);
      DestroyDoesOnce(c, p, k);
    }
  }

  lemma BindIsSound(c: Client, p: nat)
    requires Sound(c) && c.display == 0 && p in c.memory && !c.memory[p].destroyed
    ensures Sound(Bound(c, p))
  {
    var d := Bound(c, p);
    assert forall q :: q in c.memory <==> q in d.memory;
    assert forall q :: q in c.memory ==>
      d.memory[q] == c.memory[q].(onDestroy := d.memory[q].onDestroy);
    assert IsFound(c, p);
    forall q | q in d.memory && !d.memory[q].destroyed
      ensures IsFound(d, q)
    {
      assert IsFound(c, q);
    }
    forall k: nat
      ensures DoneOnce(d, k)
    {
      assert DoneOnce(c, k);
      BindAlive(c, p, k);
    }
  }

  lemma BindAlive(c: Client, p: nat, k: nat)
    requires p in c.memory
    ensures Alive(Bound(c, p), k) <==> Alive(c, k)
  {
    var d := Bound(c, p);
    if Alive(c, k) {
      var q :| q in c.memory && c.memory[q].serial == k && !c.memory[q].destroyed;
      assert q in d.memory && d.memory[q].serial == k;
    }
  }

  lemma OwnerFreesIsSound(c: Client, p: nat)
    requires Sound(c) && p in c.memory && c.memory[p].destroyed
    ensures Sound(c.(memory := c.memory - {p}))
  {
    var d := c.(memory := c.memory - {p});
    forall j: uint32 | Lookup(d.ids, j) != 0
      ensures Lookup(d.ids, j) in d.memory
    {
      assert Lookup(c.ids, j) in c.memory;
    }
    forall q | q in d.memory && !d.memory[q].destroyed
      ensures IsFound(d, q)
    {
      assert IsFound(c, q);
    }
    forall k: nat
      ensures DoneOnce(d, k)
    {
      assert DoneOnce(c, k);
      if Alive(c, k) {
        var q :| q in c.memory && c.memory[q].serial == k && !c.memory[q].destroyed;
        assert q in d.memory && d.memory[q] == c.memory[q];
      }
    }
  }

  /** A failed insertion changes no binding. */
  lemma FailureIsSound(c: Client, ids: Ids)
    requires Sound(c) && ids.WellFormed() && ids.side == ServerSide && SameBindings(c.ids, ids)
    ensures Sound(c.(ids := ids))
  {
    var d := c.(ids := ids);
    forall j: uint32
      ensures Lookup(d.ids, j) == Lookup(c.ids, j) && LookupFlags(d.ids, j) == LookupFlags(c.ids, j)
    {
      assert d.ids.Binding(j) == c.ids.Binding(j);
    }
    forall q | q in d.memory && !d.memory[q].destroyed
      ensures IsFound(d, q)
    {
      assert IsFound(c, q);
    }
    forall k: nat
      ensures DoneOnce(d, k)
    {
      assert DoneOnce(c, k) && (Alive(d, k) <==> Alive(c, k));
    }
  }

  lemma StepIsSound(c: Client, step: Step)
    requires Sound(c) && Enabled(c, step)
    ensures Sound(Next(c, step))
  {
    match step
    case AddOwn(addr, flags, hasDestructor, ok) =>
      var r := InsertNew(c.ids, flags, addr, ok);
      InsertNewKeeps(c.ids, flags, addr, ok);
      InsertNewBinds(c.ids, flags, addr, ok);
      if r.err == Success {
        PlaceIsSound(c, r.ids, addr, r.id, flags, hasDestructor);
      } else {
        FailureIsSound(c, r.ids);
      }
    case AddPeer(addr, id, flags, hasDestructor, ok) =>
      var r := ReserveNew(c.ids, id, ok);
      ReserveNewKeeps(c.ids, id, ok);
      ReserveNewBinds(c.ids, id, ok);
      if r.err == Success {
        InsertAtKeeps(r.ids, flags, id, addr, true);
        InsertAtBinds(r.ids, flags, id, addr, true);
        PlaceIsSound(c, InsertAt(r.ids, flags, id, addr, true).ids, addr, id, flags, hasDestructor);
      } else {
        FailureIsSound(c, r.ids);
      }
    case BindDisplay(addr) => BindIsSound(c, addr);
    case DestroyAt(addr) => DestroyIsSound(c, addr);
    case OwnerFrees(addr) => OwnerFreesIsSound(c, addr);
  }

  // ---------- every run ----------

  /** Step `k` leads from one state to the next. */
  ghost predicate Follows(states: seq<Client>, steps: seq<Step>, k: nat)
    requires k < |steps| && k + 1 < |states|
  {
    Enabled(states[k], steps[k]) && states[k + 1] == Next(states[k], steps[k])
  }

  ghost predicate IsRun(states: seq<Client>, steps: seq<Step>) {
    |states| == |steps| + 1 && states[0] == NewClient(states[0].ids) && Blank(states[0].ids) &&
    forall k :: 0 <= k < |steps| ==> Follows(states, steps, k)
  }

  lemma {:induction false} RunIsSound(states: seq<Client>, steps: seq<Step>, k: nat)
    requires IsRun(states, steps) && k < |states|
    ensures Sound(states[k])
  {
    if k == 0 {
      assert forall j: nat :: DoneOnce(states[0], j);
    } else {
      assert Follows(states, steps, k - 1);
      RunIsSound(states, steps, k - 1);
      StepIsSound(states[k - 1], steps[k - 1]);
    }
  }

  /** wl_client_get_object finds just the resources that were inserted and not destroyed. */
  lemma GetObjectIsSafe(states: seq<Client>, steps: seq<Step>, k: nat, id: uint32, p: nat)
    requires IsRun(states, steps) && k < |states| && p != 0
    ensures var c := states[k];
            Lookup(c.ids, id) == p <==>
            p in c.memory && c.memory[p].id == id && !c.memory[p].destroyed
  {
    RunIsSound(states, steps, k);
    var c := states[k];
    if p in c.memory && !c.memory[p].destroyed {
      assert IsFound(c, p);
    }
  }

  /**
   Each resource gets the old signal once when it is destroyed, and its destructor if it has
   one; the final signal and the deallocation too unless it is a legacy one. Before that,
   nothing.
   */
  lemma TornDownOnce(states: seq<Client>, steps: seq<Step>, k: nat, serial: nat)
    requires IsRun(states, steps) && k < |states|
    ensures DoneOnce(states[k], serial)
  {
    RunIsSound(states, steps, k);
  }

  /**
   The old signal is the first thing that happens to a resource, the final signal comes
   before the destructor, and nothing happens to it once it is freed.
   */
  lemma NothingAfterFree(states: seq<Client>, steps: seq<Step>, k: nat, serial: nat, i: nat, j: nat)
    requires IsRun(states, steps) && k < |states| && i < j < |states[k].log|
    requires IsAbout(states[k].log[i], serial) && IsAbout(states[k].log[j], serial)
    ensures var log := states[k].log;
            log[i] != Freed(serial) && log[j] != OldSignal(serial) &&
            !(log[i] == Destructor(serial) && log[j] == FinalSignal(serial))
  {
    RunIsSound(states, steps, k);
    assert Rank(states[k].log[i]) < Rank(states[k].log[j]);
  }

  /** A resource stays in memory just until it is freed, or its owner frees the block. */
  lemma InMemoryUntilFreed(states: seq<Client>, steps: seq<Step>, k: nat, p: nat)
    requires IsRun(states, steps) && k < |steps| && p in states[k].memory
    ensures var c, d, serial := states[k], states[k + 1], states[k].memory[p].serial;
            Freed(serial) !in c.log &&
            (p in d.memory && d.memory[p].serial == serial <==>
             steps[k] != OwnerFrees(p) && Freed(serial) !in d.log)
  {
    assert Follows(states, steps, k);
    NotFreedInMemory(states, steps, k, p);
    if p in states[k + 1].memory {
      NotFreedInMemory(states, steps, k + 1, p);
    }
    StepKeepsBlock(states[k], steps[k], p);
  }

  lemma StepKeepsBlock(c: Client, step: Step, p: nat)
    requires Enabled(c, step) && p in c.memory
    ensures var d, serial := Next(c, step), c.memory[p].serial;
            if step == OwnerFrees(p) then p !in d.memory
            else (p in d.memory && d.memory[p].serial == serial) || Freed(serial) in d.log
  {
    if step == DestroyAt(p) {
      DestroyLogs(c, p);
      var r := c.memory[p];
      assert LookupFlags(c.ids, r.id) != 1 ==> Freed(r.serial) in Teardown(r, false);
    }
  }

  lemma NotFreedInMemory(states: seq<Client>, steps: seq<Step>, k: nat, p: nat)
    requires IsRun(states, steps) && k < |states| && p in states[k].memory
    ensures Freed(states[k].memory[p].serial) !in states[k].log
  {
    RunIsSound(states, steps, k);
    var c := states[k];
    var serial := c.memory[p].serial;
    assert DoneOnce(c, serial);
    if !c.memory[p].destroyed {
      assert Alive(c, serial);
    }
    assert Freed(serial) !in multiset(c.log);
  }

  /**
   The client is told of a destroyed resource if and only if the id is its own and there is
   a display resource other than the one destroyed.
   */
  lemma ToldIff(states: seq<Client>, steps: seq<Step>, k: nat, p: nat)
    requires IsRun(states, steps) && k < |states|
    requires p in states[k].memory && !states[k].memory[p].destroyed
    ensures Enabled(states[k], DestroyAt(p))
    ensures var c, id := states[k], states[k].memory[p].id;
            var d, legacy := Next(c, DestroyAt(p)), LookupFlags(c.ids, id) == 1;
            d.log == c.log + Teardown(c.memory[p], legacy) +
                     if IsClientId(id) && c.display !in {0, p} then [SendDeleteId(id)] else []
  {
    RunIsSound(states, steps, k);
    assert IsFound(states[k], p);
  }

  /** A resource can always be destroyed, and right afterwards its id can be used again. */
  lemma IdIsReusable(states: seq<Client>, steps: seq<Step>, k: nat,
                     p: nat, flags: nat, ptr: nat, ok: bool)
    requires IsRun(states, steps) && k < |states|
    requires p in states[k].memory && !states[k].memory[p].destroyed
    ensures Enabled(states[k], DestroyAt(p))
    ensures var d, id := Next(states[k], DestroyAt(p)), states[k].memory[p].id;
            d.ids.WellFormed() &&
            if IsClientId(id) then ReserveNew(d.ids, id, ok).err == Success
            else InsertNew(d.ids, flags, ptr, ok).id == id &&
                 InsertNew(d.ids, flags, ptr, ok).err == Success
  {
    RunIsSound(states, steps, k);
    var c := states[k];
    assert IsFound(c, p);
    DestroyUnbinds(c, p);
    if IsClientId(c.memory[p].id) {
      assert c.ids.Other()[c.memory[p].id].Live?;
    }
  }
}
