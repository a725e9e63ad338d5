/**
 A client and a server agree on the ids of the objects that the client creates.

 Each side keeps a map. The client takes an id, names it in a message, and may use it in
 requests at once. The server stores an object at the id when that message arrives, may
 send events about it, and may destroy it; it then says so with delete_id, and only then
 does the client give the id back. Messages of one direction arrive in order.

 Every object the client creates gets a new tag. Tags travel with the messages so that
 one can say which object a message was about; no step ever looks at one.
 */
module Protocol {
  import opened Words
  import opened FreeList
  import opened IdMap

  datatype Msg =
    | New(id: uint32, tag: nat)
    | Request(id: uint32, tag: nat)
    | Event(id: uint32, tag: nat)
    | DeleteId(id: uint32)

  datatype System = System(
    client: Ids, server: Ids, up: seq<Msg>, down: seq<Msg>,
    meant: map<uint32, nat>, bound: map<uint32, nat>, tags: nat, open: bool, display: Option<uint32>)

  datatype Step =
    | Create(ptr: nat, ok: bool)
    | Ask(id: uint32)
    | Serve(ptr: nat, flags: nat, ok: bool)
    | Bind(id: uint32)
    | Notify(id: uint32)
    | Destroy(id: uint32)
    | Hear

  /** Both sides store nothing at id 0, so that no object ever gets it. */
  ghost function Start(): System {
    System(InsertNew(Empty(ClientSide), 0, 0, true).ids, InsertAt(Empty(ServerSide), 0, 0, 0, true).ids,
           [], [], map[], map[], 0, true, None)
  }

  function TagAt(m: map<uint32, nat>, id: uint32): nat {
    if id in m then m[id] else 0
  }

  predicate Enabled(s: System, step: Step) {
    s.open &&
    match step
    case Create(_, _) => true
    case Ask(id) => 0 < id && IsClientId(id) && s.client.Binding(id).Some?
    case Serve(ptr, _, _) => s.up != [] && ptr != 0
    case Bind(id) => s.display == None && IsClientId(id) && Lookup(s.server, id) != 0
    case Notify(id) => IsClientId(id) && Lookup(s.server, id) != 0
    case Destroy(id) => IsClientId(id) && Lookup(s.server, id) != 0
    case Hear => s.down != []
  }

  /** What the maps rely on when a step uses them. */
  ghost predicate Defined(s: System, step: Step) {
    s.client.WellFormed() && s.server.WellFormed() &&
    (step.Hear? && s.down != [] && s.down[0].DeleteId? ==> CanRemove(s.client, s.down[0].id))
  }

  /** The client takes an id for `ptr`, if it gets one, and sends New. */
  ghost function Created(s: System, ptr: nat, ok: bool): System
    requires s.client.WellFormed()
  {
    var r := InsertNew(s.client, 0, ptr, ok);
    if r.err == Success then
      s.(client := r.ids, up := s.up + [New(r.id, s.tags)],
         meant := s.meant[r.id := s.tags], tags := s.tags + 1)
    else s.(client := r.ids)
  }

  /** The two outcomes of a create step, given what the insertion returned. */
  lemma CreatedOutcome(s: System, ptr: nat, r: Inserted)
    requires s.client.WellFormed() && r == InsertNew(s.client, 0, ptr, r.err != NoMemory)
    ensures r.err == Success ==>
              Created(s, ptr, r.err != NoMemory) ==
              s.(client := r.ids, up := s.up + [New(r.id, s.tags)],
                 meant := s.meant[r.id := s.tags], tags := s.tags + 1)
    ensures r.err != Success ==>
              Created(s, ptr, r.err != NoMemory) == s.(client := r.ids, up := s.up + [])
  {
    assert s.up + [] == s.up;
  }

  /** The server takes the next message; without memory for a new object it gives up. */
  function Served(s: System, ptr: nat, flags: nat, ok: bool): System
    requires s.up != []
  {
    var m := s.up[0];
    if m.New? then
      var r := ReserveAndInsert(s.server, flags, m.id, ptr, ok);
      s.(server := r.ids, up := s.up[1..], open := r.err == Success,
         bound := if r.err == Success then s.bound[m.id := m.tag] else s.bound)
    else s.(up := s.up[1..])
  }

  /** The display resource after the destructor of the resource at `id` ran: the display's own clears it. */
  function DisplayWithout(s: System, id: uint32): Option<uint32> {
    if s.display == Some(id) then None else s.display
  }

  /** The server tells the client of a destroyed object through the display resource, if there still is one. */
  function Notice(display: Option<uint32>, id: uint32): seq<Msg> {
    if display.Some? then [DeleteId(id)] else []
  }

  ghost function Next(s: System, step: Step): System
    requires Enabled(s, step) && Defined(s, step)
  {
    match step
    case Create(ptr, ok) => Created(s, ptr, ok)
    case Ask(id) => s.(up := s.up + [Request(id, TagAt(s.meant, id))])
    case Serve(ptr, flags, ok) => Served(s, ptr, flags, ok)
    case Bind(id) => s.(display := Some(id))
    case Notify(id) => s.(down := s.down + [Event(id, TagAt(s.bound, id))])
    case Destroy(id) =>
      var display := DisplayWithout(s, id);
      s.(server := Unbound(s.server, id), display := display, down := s.down + Notice(display, id))
    case Hear =>
      var m := s.down[0];
      if m.DeleteId? then s.(client := Remove(s.client, m.id), down := s.down[1..])
      else s.(down := s.down[1..])
  }

  // ---------- one id at a time ----------

  /** The messages of a channel that are about one id. */
  function On(ch: seq<Msg>, id: uint32): seq<Msg> {
    if ch == [] then []
    else if ch[0].id == id then [ch[0]] + On(ch[1..], id)
    else On(ch[1..], id)
  }

  lemma {:induction false} OnAppend(ch: seq<Msg>, m: Msg, id: uint32)
    ensures On(ch + [m], id) == On(ch, id) + if m.id == id then [m] else []
    decreases |ch|
  {
    if ch == [] {
      assert ch + [m] == [m];
    } else {
      OnAppend(ch[1..], m, id);
      assert (ch + [m])[1..] == ch[1..] + [m];
      var q, x := On(ch[1..], id), if m.id == id then [m] else [];
      assert [ch[0]] + (q + x) == ([ch[0]] + q) + x;
    }
  }

  /** All there is about one id: the tags of the objects both sides have there, and the messages. */
  datatype View = View(client: Option<nat>, server: Option<nat>, up: seq<Msg>, down: seq<Msg>)

  function ViewOf(s: System, id: uint32): View {
    View(if s.client.Binding(id).Some? then Some(TagAt(s.meant, id)) else None,
         if Lookup(s.server, id) != 0 then Some(TagAt(s.bound, id)) else None,
         On(s.up, id), On(s.down, id))
  }

  predicate AllAre(q: seq<Msg>, m: Msg) {
    forall k :: 0 <= k < |q| ==> q[k] == m
  }

  predicate AllRequests(q: seq<Msg>) {
    forall k :: 0 <= k < |q| ==> q[k].Request?
  }

  /** Requests about earlier objects, the creation of object `t`, requests about it. */
  predicate NewThenRequests(q: seq<Msg>, id: uint32, t: nat)
    decreases |q|
  {
    q != [] &&
    if q[0].New? then q[0] == New(id, t) && AllAre(q[1..], Request(id, t))
    else q[0].Request? && NewThenRequests(q[1..], id, t)
  }

  predicate EventsThenDelete(q: seq<Msg>, id: uint32, t: nat)
    decreases |q|
  {
    q != [] &&
    if q[0].DeleteId? then q == [DeleteId(id)]
    else q[0] == Event(id, t) && EventsThenDelete(q[1..], id, t)
  }

  /** The id is nobody's; requests about objects that are gone may still be under way. */
  predicate IsFree(v: View) {
    v.client == None && v.server == None && AllRequests(v.up) && v.down == []
  }

  predicate IsNew(v: View, id: uint32) {
    v.client.Some? && v.server == None && v.down == [] && NewThenRequests(v.up, id, v.client.value)
  }

  predicate IsLive(v: View, id: uint32) {
    v.client.Some? && v.server == v.client &&
    AllAre(v.up, Request(id, v.client.value)) && AllAre(v.down, Event(id, v.client.value))
  }

  predicate IsDying(v: View, id: uint32) {
    v.client.Some? && v.server == None &&
    AllAre(v.up, Request(id, v.client.value)) && EventsThenDelete(v.down, id, v.client.value)
  }

  /** Nobody tells the client that its object is gone. */
  predicate IsLost(v: View, id: uint32) {
    v.client.Some? && v.server == None &&
    AllAre(v.up, Request(id, v.client.value)) && AllAre(v.down, Event(id, v.client.value))
  }

  predicate HasPhase(v: View, id: uint32) {
    IsFree(v) || IsNew(v, id) || IsLive(v, id) || IsDying(v, id) || IsLost(v, id)
  }

  predicate ExactlyOnePhase(v: View, id: uint32) {
    (if IsFree(v) then 1 else 0) + (if IsNew(v, id) then 1 else 0) + (if IsLive(v, id) then 1 else 0) +
    (if IsDying(v, id) then 1 else 0) + (if IsLost(v, id) then 1 else 0) == 1
  }

  lemma PhasesExclude(v: View, id: uint32)
    requires HasPhase(v, id)
    ensures ExactlyOnePhase(v, id)
  {
    if IsNew(v, id) {
      NewIsUnderWay(v.up, id, v.client.value);
    } else if IsDying(v, id) {
      DeleteIsUnderWay(v.down, id, v.client.value);
    }
  }

  lemma {:induction false} DeleteIsUnderWay(q: seq<Msg>, id: uint32, t: nat)
    requires EventsThenDelete(q, id, t)
    ensures !AllAre(q, Event(id, t))
    decreases |q|
  {
    if !q[0].DeleteId? {
      DeleteIsUnderWay(q[1..], id, t);
      var k :| 0 <= k < |q| - 1 && q[1..][k] != Event(id, t);
      assert q[k + 1] != Event(id, t);
    }
  }

  lemma {:induction false} NewIsUnderWay(q: seq<Msg>, id: uint32, t: nat)
    requires NewThenRequests(q, id, t)
    ensures !AllAre(q, Request(id, t))
    decreases |q|
  {
    if !q[0].New? {
      NewIsUnderWay(q[1..], id, t);
      var k :| 0 <= k < |q| - 1 && q[1..][k] != Request(id, t);
      assert q[k + 1] != Request(id, t);
    }
  }

  // ---------- how each step moves an id between phases ----------

  /** An id keeps having a phase, and is lost after a step if and only if it was before. */
  predicate Keeps(v: View, w: View, id: uint32) {
    HasPhase(w, id) && (IsLost(w, id) <==> IsLost(v, id))
  }

  lemma {:induction false} StaleThenNew(q: seq<Msg>, id: uint32, t: nat)
    requires AllRequests(q)
    ensures NewThenRequests(q + [New(id, t)], id, t)
    decreases |q|
  {
    if q != [] {
      assert (q + [New(id, t)])[1..] == q[1..] + [New(id, t)];
      StaleThenNew(q[1..], id, t);
    }
  }

  lemma {:induction false} NewThenMore(q: seq<Msg>, id: uint32, t: nat)
    requires NewThenRequests(q, id, t)
    ensures NewThenRequests(q + [Request(id, t)], id, t)
    decreases |q|
  {
    assert (q + [Request(id, t)])[1..] == q[1..] + [Request(id, t)];
    if !q[0].New? {
      NewThenMore(q[1..], id, t);
    }
  }

  lemma {:induction false} EventsThenLast(q: seq<Msg>, id: uint32, t: nat)
    requires AllAre(q, Event(id, t))
    ensures EventsThenDelete(q + [DeleteId(id)], id, t)
    decreases |q|
  {
    if q != [] {
      assert (q + [DeleteId(id)])[1..] == q[1..] + [DeleteId(id)];
      EventsThenLast(q[1..], id, t);
    }
  }

  lemma MoveCreate(v: View, id: uint32, t: nat)
    requires HasPhase(v, id) && v.client == None
    ensures var w := v.(client := Some(t), up := v.up + [New(id, t)]); IsNew(w, id) && Keeps(v, w, id)
  {
    StaleThenNew(v.up, id, t);
    PhasesExclude(v.(client := Some(t), up := v.up + [New(id, t)]), id);
  }

  lemma MoveAsk(v: View, id: uint32)
    requires HasPhase(v, id) && v.client.Some?
    ensures Keeps(v, v.(up := v.up + [Request(id, v.client.value)]), id)
  {
    if IsNew(v, id) {
      NewThenMore(v.up, id, v.client.value);
    }
    PhasesExclude(v, id);
    PhasesExclude(v.(up := v.up + [Request(id, v.client.value)]), id);
  }

  /** The creation reaches a server that has nothing at the id. */
  lemma MoveServeNew(v: View, id: uint32)
    requires HasPhase(v, id) && v.up != [] && v.up[0].New?
    ensures v.server == None && v.client == Some(v.up[0].tag)
    ensures var w := v.(server := Some(v.up[0].tag), up := v.up[1..]); IsLive(w, id) && Keeps(v, w, id)
  {
  }

  /** A request reaches the object it was about, or none. */
  lemma MoveServeRequest(v: View, id: uint32)
    requires HasPhase(v, id) && v.up != [] && v.up[0].Request?
    ensures v.server.Some? ==> v.server.value == v.up[0].tag
    ensures Keeps(v, v.(up := v.up[1..]), id)
  {
    PhasesExclude(v, id);
    PhasesExclude(v.(up := v.up[1..]), id);
  }

  lemma MoveNotify(v: View, id: uint32)
    requires HasPhase(v, id) && v.server.Some?
    ensures IsLive(v.(down := v.down + [Event(id, v.server.value)]), id)
  {
  }

  lemma MoveDestroy(v: View, id: uint32)
    requires HasPhase(v, id) && v.server.Some?
    ensures IsDying(v.(server := None, down := v.down + [DeleteId(id)]), id)
    ensures IsLost(v.(server := None), id)
  {
    EventsThenLast(v.down, id, v.server.value);
  }

  /** An event reaches a client that still has the object it is about. */
  lemma MoveHearEvent(v: View, id: uint32)
    requires HasPhase(v, id) && v.down != [] && !v.down[0].DeleteId?
    ensures v.down[0].Event? && v.client == Some(v.down[0].tag)
    ensures Keeps(v, v.(down := v.down[1..]), id)
  {
    PhasesExclude(v, id);
    PhasesExclude(v.(down := v.down[1..]), id);
  }

  lemma MoveHearDelete(v: View, id: uint32)
    requires HasPhase(v, id) && v.down != [] && v.down[0].DeleteId?
    ensures v.client.Some?
    ensures var w := v.(client := None, down := v.down[1..]); IsFree(w) && Keeps(v, w, id)
  {
    assert AllRequests(v.up);
  }

  // ---------- the tables stay in step ----------

  /**
   New ids arrive at a server whose table has `n` entries just in the order in which they
   extend it, and when all have arrived the table has `m` entries.
   */
  predicate InStep(ch: seq<Msg>, n: nat, m: nat)
    decreases |ch|
  {
    if ch == [] then n == m
    else if ch[0].New? && ch[0].id >= n then ch[0].id == n && InStep(ch[1..], n + 1, m)
    else InStep(ch[1..], n, m)
  }

  lemma {:induction false} InStepAppend(ch: seq<Msg>, n: nat, m: nat, msg: Msg)
    requires InStep(ch, n, m)
    ensures n <= m
    ensures msg.New? && msg.id == m ==> InStep(ch + [msg], n, m + 1)
    ensures (msg.New? ==> msg.id < m) ==> InStep(ch + [msg], n, m)
    decreases |ch|
  {
    if ch == [] {
      assert (ch + [msg])[1..] == [];
    } else {
      assert (ch + [msg])[1..] == ch[1..] + [msg];
      InStepAppend(ch[1..], if ch[0].New? && ch[0].id >= n then n + 1 else n, m, msg);
    }
  }

  /** How many ids the client can have taken: slots past the limit name none. */
  function Used(s: System): nat {
    if |s.client.client| > MAX_OBJECTS then MAX_OBJECTS + 1 else |s.client.client|
  }

  ghost predicate Tables(s: System) {
    s.client.WellFormed() && s.client.side == ClientSide &&
    s.server.WellFormed() && s.server.side == ServerSide &&
    |s.client.client| > 0 && s.client.client[0].Live? &&
    |s.server.client| > 0 && s.server.client[0] == NULL_SLOT &&
    forall i :: 0 <= i < |s.server.client| ==>
      s.server.client[i] == NULL_SLOT || s.server.client[i].entry.ptr != 0
  }

  predicate MessageIds(s: System) {
    (forall k :: 0 <= k < |s.up| ==>
       (s.up[k].New? || s.up[k].Request?) && 0 < s.up[k].id <= MAX_OBJECTS) &&
    (forall k :: 0 <= k < |s.down| ==>
       (s.down[k].Event? || s.down[k].DeleteId?) && 0 < s.down[k].id <= MAX_OBJECTS)
  }

  ghost predicate Phases(s: System) {
    forall i: uint32 :: 0 < i && IsClientId(i) ==> HasPhase(ViewOf(s, i), i)
  }

  /** The display resource, if there is one, has not been destroyed. */
  predicate DisplayIsThere(s: System) {
    s.display.Some? ==> IsClientId(s.display.value) && Lookup(s.server, s.display.value) != 0
  }

  ghost predicate Good(s: System) {
    Tables(s) && MessageIds(s) && InStep(s.up, |s.server.client|, Used(s)) && Phases(s) &&
    DisplayIsThere(s)
  }

  lemma StartIsGood()
    ensures Good(Start())
  {
    var s := Start();
    assert s.client.client == [NULL_SLOT] && s.server.client == [NULL_SLOT];
    forall i: uint32 | 0 < i && IsClientId(i)
      ensures IsFree(ViewOf(s, i))
    {
    }
  }

  /** An id the client takes is none of those in use, and the next one if it is fresh. */
  lemma CreateTakes(s: System, ptr: nat, ok: bool)
    requires Good(s) && Enabled(s, Create(ptr, ok))
    ensures var r := InsertNew(s.client, 0, ptr, ok);
            var t := s.(client := r.ids);
            Tables(t) &&
            if r.err != Success then Used(t) == Used(s) && r.ids.client[..|s.client.client|] == s.client.client
            else 0 < r.id <= MAX_OBJECTS && s.client.Binding(r.id) == None &&
                 Rebinds(s.client, r.ids, r.id, Some(Entry(ptr, 0))) &&
                 (if r.id == Used(s) then Used(t) == Used(s) + 1 else r.id < Used(s) == Used(t))
  {
    InsertNewKeeps(s.client, 0, ptr, ok);
    InsertNewBinds(s.client, 0, ptr, ok);
    if s.client.free != [] {
      assert s.client.free[0] in s.client.free;
      assert s.client.Own() == s.client.client;
    }
  }

  lemma CreateInStep(s: System, ptr: nat, ok: bool)
    requires Good(s) && Enabled(s, Create(ptr, ok))
    ensures var t := Next(s, Create(ptr, ok)); InStep(t.up, |t.server.client|, Used(t))
  {
    CreateTakes(s, ptr, ok);
    var r := InsertNew(s.client, 0, ptr, ok);
    if r.err == Success {
      InStepAppend(s.up, |s.server.client|, Used(s), New(r.id, s.tags));
    }
  }

  lemma CreateIsGood(s: System, ptr: nat, ok: bool)
    requires Good(s) && Enabled(s, Create(ptr, ok))
    ensures Good(Next(s, Create(ptr, ok)))
  {
    CreateTakes(s, ptr, ok);
    CreateInStep(s, ptr, ok);
    var t := Next(s, Create(ptr, ok));
    forall i: uint32 | 0 < i && IsClientId(i)
      ensures HasPhase(ViewOf(t, i), i)
    {
      CreateView(s, ptr, ok, i);
    }
  }

  lemma CreateView(s: System, ptr: nat, ok: bool, i: uint32)
    requires Good(s) && Enabled(s, Create(ptr, ok)) && 0 < i && IsClientId(i)
    ensures var t := Next(s, Create(ptr, ok)); Keeps(ViewOf(s, i), ViewOf(t, i), i)
  {
    CreateTakes(s, ptr, ok);
    InsertNewBinds(s.client, 0, ptr, ok);
    var r, t, v := InsertNew(s.client, 0, ptr, ok), Next(s, Create(ptr, ok)), ViewOf(s, i);
    var m := New(r.id, s.tags);
    OnAppend(s.up, m, i);
    assert HasPhase(v, i);
    if r.err == Success && i == r.id {
      MoveCreate(v, i, s.tags);
      assert ViewOf(t, i) == v.(client := Some(s.tags), up := v.up + [m]);
    } else {
      assert v.up + [] == v.up;
      assert ViewOf(t, i) == v;
    }
  }

  lemma AskView(s: System, id: uint32, i: uint32)
    requires Good(s) && Enabled(s, Ask(id)) && 0 < i && IsClientId(i)
    ensures Keeps(ViewOf(s, i), ViewOf(Next(s, Ask(id)), i), i)
  {
    var t, m, v := Next(s, Ask(id)), Request(id, TagAt(s.meant, id)), ViewOf(s, i);
    OnAppend(s.up, m, i);
    assert HasPhase(v, i);
    if i == id {
      MoveAsk(v, i);
      assert ViewOf(t, i) == v.(up := v.up + [m]);
    } else {
      assert v.up + [] == v.up;
      assert ViewOf(t, i) == v;
    }
  }

  lemma AskIsGood(s: System, id: uint32)
    requires Good(s) && Enabled(s, Ask(id))
    ensures Good(Next(s, Ask(id)))
  {
    InStepAppend(s.up, |s.server.client|, Used(s), Request(id, TagAt(s.meant, id)));
    assert s.client.Own()[id].Live? && id <= MAX_OBJECTS;
    forall i: uint32 | 0 < i && IsClientId(i)
      ensures HasPhase(ViewOf(Next(s, Ask(id)), i), i)
    {
      AskView(s, id, i);
    }
  }

  /** The server never refuses the id of a new object: at worst it has no memory for it. */
  lemma ServeNewTakes(s: System, ptr: nat, flags: nat, ok: bool)
    requires Good(s) && Enabled(s, Serve(ptr, flags, ok)) && s.up[0].New?
    ensures var id := s.up[0].id;
            var r := ReserveNew(s.server, id, ok);
            r.err == (if ok || id < |s.server.client| then Success else NoMemory) &&
            (r.err == Success ==>
               var u := InsertAt(r.ids, flags, id, ptr, true);
               u.err == Success && Tables(s.(server := u.ids)) &&
               Rebinds(s.server, u.ids, id, Some(Entry(ptr, flags % 2))) &&
               |u.ids.client| == if id == |s.server.client| then id + 1 else |s.server.client|)
    ensures s.up[0].id <= |s.server.client|
    ensures IsNew(ViewOf(s, s.up[0].id), s.up[0].id)
  {
    var m := s.up[0];
    assert On(s.up, m.id)[0] == m;
    assert HasPhase(ViewOf(s, m.id), m.id);
    MoveServeNew(ViewOf(s, m.id), m.id);
    var r := ReserveNew(s.server, m.id, ok);
    ReserveNewKeeps(s.server, m.id, ok);
    ReserveNewBinds(s.server, m.id, ok);
    if r.err == Success {
      InsertAtKeeps(r.ids, flags, m.id, ptr, true);
      InsertAtBinds(r.ids, flags, m.id, ptr, true);
    }
  }

  lemma ServeNewIsGood(s: System, ptr: nat, flags: nat, ok: bool)
    requires Good(s) && Enabled(s, Serve(ptr, flags, ok)) && s.up[0].New?
    ensures var t := Next(s, Serve(ptr, flags, ok)); t.open ==> Good(t)
  {
    ServeNewTakes(s, ptr, flags, ok);
    var t := Next(s, Serve(ptr, flags, ok));
    if t.open {
      forall i: uint32 | 0 < i && IsClientId(i)
        ensures HasPhase(ViewOf(t, i), i)
      {
        ServeNewView(s, ptr, flags, ok, i);
      }
    }
  }

  lemma ServeNewView(s: System, ptr: nat, flags: nat, ok: bool, i: uint32)
    requires Good(s) && Enabled(s, Serve(ptr, flags, ok)) && s.up[0].New? && 0 < i && IsClientId(i)
    ensures var t := Next(s, Serve(ptr, flags, ok)); t.open ==> Keeps(ViewOf(s, i), ViewOf(t, i), i)
  {
    ServeNewTakes(s, ptr, flags, ok);
    var m, t, v := s.up[0], Next(s, Serve(ptr, flags, ok)), ViewOf(s, i);
    assert HasPhase(v, i);
    if t.open && i == m.id {
      MoveServeNew(v, i);
      assert ViewOf(t, i) == v.(server := Some(m.tag), up := v.up[1..]);
    } else if t.open {
      assert ViewOf(t, i) == v;
    }
  }

  lemma ServeRequestView(s: System, ptr: nat, flags: nat, ok: bool, i: uint32)
    requires Good(s) && Enabled(s, Serve(ptr, flags, ok)) && s.up[0].Request? && 0 < i && IsClientId(i)
    ensures Keeps(ViewOf(s, i), ViewOf(Next(s, Serve(ptr, flags, ok)), i), i)
  {
    var t, v := Next(s, Serve(ptr, flags, ok)), ViewOf(s, i);
    assert HasPhase(v, i);
    if i == s.up[0].id {
      MoveServeRequest(v, i);
      assert ViewOf(t, i) == v.(up := v.up[1..]);
    } else {
      assert ViewOf(t, i) == v;
    }
  }

  lemma ServeRequestIsGood(s: System, ptr: nat, flags: nat, ok: bool)
    requires Good(s) && Enabled(s, Serve(ptr, flags, ok)) && s.up[0].Request?
    ensures Good(Next(s, Serve(ptr, flags, ok)))
  {
    forall i: uint32 | 0 < i && IsClientId(i)
      ensures HasPhase(ViewOf(Next(s, Serve(ptr, flags, ok)), i), i)
    {
      ServeRequestView(s, ptr, flags, ok, i);
    }
  }

  lemma NotifyView(s: System, id: uint32, i: uint32)
    requires Good(s) && Enabled(s, Notify(id)) && 0 < i && IsClientId(i)
    ensures Keeps(ViewOf(s, i), ViewOf(Next(s, Notify(id)), i), i)
  {
    var t, m, v := Next(s, Notify(id)), Event(id, TagAt(s.bound, id)), ViewOf(s, i);
    OnAppend(s.down, m, i);
    assert HasPhase(v, i);
    if i == id {
      MoveNotify(v, i);
      assert ViewOf(t, i) == v.(down := v.down + [m]);
    } else {
      assert v.down + [] == v.down;
      assert ViewOf(t, i) == v;
    }
  }

  lemma NotifyIsGood(s: System, id: uint32)
    requires Good(s) && Enabled(s, Notify(id))
    ensures Good(Next(s, Notify(id)))
  {
    forall i: uint32 | 0 < i && IsClientId(i)
      ensures HasPhase(ViewOf(Next(s, Notify(id)), i), i)
    {
      NotifyView(s, id, i);
    }
  }

  /** Whether the client hears of a destroy: there is a display resource, and not the one destroyed. */
  predicate Tells(s: System, id: uint32) {
    s.display.Some? && s.display.value != id
  }

  /** Of the object destroyed the client is told, or the id is lost; the other ids stay as they are. */
  lemma DestroyView(s: System, id: uint32, i: uint32)
    requires Good(s) && Enabled(s, Destroy(id)) && 0 < i && IsClientId(i)
    ensures var v, w := ViewOf(s, i), ViewOf(Next(s, Destroy(id)), i);
            if i != id then Keeps(v, w, i)
            else !IsLost(v, i) && if Tells(s, id) then IsDying(w, i) else IsLost(w, i)
  {
    var t, v := Next(s, Destroy(id)), ViewOf(s, i);
    assert HasPhase(v, i);
    InsertAtBinds(s.server, 0, id, 0, true);
    OnAppend(s.down, DeleteId(id), i);
    assert s.down + [] == s.down && v.down + [] == v.down;
    if i == id {
      MoveDestroy(v, i);
      assert ViewOf(t, i) == v.(server := None, down := v.down + Notice(DisplayWithout(s, id), id));
    } else {
      assert ViewOf(t, i) == v;
    }
  }

  lemma DestroyIsGood(s: System, id: uint32)
    requires Good(s) && Enabled(s, Destroy(id))
    ensures Good(Next(s, Destroy(id)))
  {
    InsertAtKeeps(s.server, 0, id, 0, true);
    InsertAtBinds(s.server, 0, id, 0, true);
    forall i: uint32 | 0 < i && IsClientId(i)
      ensures HasPhase(ViewOf(Next(s, Destroy(id)), i), i)
    {
      DestroyView(s, id, i);
    }
  }

  lemma BindIsGood(s: System, id: uint32)
    requires Good(s) && Enabled(s, Bind(id))
    ensures Good(Next(s, Bind(id)))
  {
    forall i: uint32 | 0 < i && IsClientId(i)
      ensures ViewOf(Next(s, Bind(id)), i) == ViewOf(s, i) && HasPhase(ViewOf(s, i), i)
    {
    }
  }

  /** On delete_id the client still has the id, so it may give it back. */
  lemma HearIsDefined(s: System)
    requires Good(s) && Enabled(s, Hear)
    ensures Defined(s, Hear)
    ensures Tables(Next(s, Hear)) && Used(Next(s, Hear)) == Used(s)
  {
    var m := s.down[0];
    assert On(s.down, m.id)[0] == m;
    assert HasPhase(ViewOf(s, m.id), m.id);
    if m.DeleteId? {
      MoveHearDelete(ViewOf(s, m.id), m.id);
      RemoveKeeps(s.client, m.id);
    }
  }

  lemma HearView(s: System, i: uint32)
    requires Good(s) && Enabled(s, Hear) && Defined(s, Hear) && 0 < i && IsClientId(i)
    ensures Keeps(ViewOf(s, i), ViewOf(Next(s, Hear), i), i)
  {
    var m, t, v := s.down[0], Next(s, Hear), ViewOf(s, i);
    assert HasPhase(v, i);
    if m.DeleteId? {
      RemoveBinds(s.client, m.id);
    }
    if i != m.id {
      assert ViewOf(t, i) == v;
    } else if m.DeleteId? {
      MoveHearDelete(v, i);
      assert ViewOf(t, i) == v.(client := None, down := v.down[1..]);
    } else {
      MoveHearEvent(v, i);
      assert ViewOf(t, i) == v.(down := v.down[1..]);
    }
  }

  lemma HearIsGood(s: System)
    requires Good(s) && Enabled(s, Hear)
    ensures Defined(s, Hear) && Good(Next(s, Hear))
  {
    HearIsDefined(s);
    forall i: uint32 | 0 < i && IsClientId(i)
      ensures HasPhase(ViewOf(Next(s, Hear), i), i)
    {
      HearView(s, i);
    }
  }

  // ---------- every run ----------

  lemma StepIsGood(s: System, step: Step)
    requires Good(s) && Enabled(s, step)
    ensures Defined(s, step)
    ensures var t := Next(s, step); t.open ==> Good(t)
  {
    match step
    case Create(ptr, ok) => CreateIsGood(s, ptr, ok);
    case Ask(id) => AskIsGood(s, id);
    case Serve(ptr, flags, ok) =>
      if s.up[0].New? {
        ServeNewIsGood(s, ptr, flags, ok);
      } else {
        ServeRequestIsGood(s, ptr, flags, ok);
      }
    case Bind(id) => BindIsGood(s, id);
    case Notify(id) => NotifyIsGood(s, id);
    case Destroy(id) => DestroyIsGood(s, id);
    case Hear => HearIsGood(s);
  }

  /** Step `k` leads from one state to the next. */
  ghost predicate Follows(states: seq<System>, steps: seq<Step>, k: nat)
    requires k < |steps| && k + 1 < |states|
  {
    Enabled(states[k], steps[k]) && Defined(states[k], steps[k]) &&
    states[k + 1] == Next(states[k], steps[k])
  }

  ghost predicate IsRun(states: seq<System>, steps: seq<Step>) {
    |states| == |steps| + 1 && states[0] == Start() &&
    forall k :: 0 <= k < |steps| ==> Follows(states, steps, k)
  }

  lemma {:induction false} RunIsGood(states: seq<System>, steps: seq<Step>, k: nat)
    requires IsRun(states, steps) && k < |states| && states[k].open
    ensures Good(states[k])
  {
    if k == 0 {
      StartIsGood();
    } else {
      assert Follows(states, steps, k - 1);
      RunIsGood(states, steps, k - 1);
      StepIsGood(states[k - 1], steps[k - 1]);
    }
  }

  /** Some run ends with `s`. */
  ghost predicate Reached(s: System) {
    exists states: seq<System>, steps: seq<Step> :: IsRun(states, steps) && states[|steps|] == s
  }

  lemma StartIsReached()
    ensures Reached(Start())
  {
    assert IsRun([Start()], []);
  }

  /** A step that is possible can be taken, and leads on. */
  lemma ReachedGoesOn(s: System, step: Step)
    requires Reached(s) && Enabled(s, step)
    ensures Defined(s, step) && Reached(Next(s, step))
  {
    var states: seq<System>, steps: seq<Step> :| IsRun(states, steps) && states[|steps|] == s;
    RunIsGood(states, steps, |steps|);
    StepIsGood(s, step);
    var states', steps' := states + [Next(s, step)], steps + [step];
    forall k | 0 <= k < |steps'|
      ensures Follows(states', steps', k)
    {
      assert k < |steps| ==> Follows(states, steps, k);
    }
    assert IsRun(states', steps');
  }

  /** With memory for it, the server takes any message and goes on. */
  lemma MemoryIsEnough(s: System, ptr: nat, flags: nat, ok: bool)
    requires Reached(s) && Enabled(s, Serve(ptr, flags, ok))
    ensures ok ==> Served(s, ptr, flags, ok).open
  {
    var states: seq<System>, steps: seq<Step> :| IsRun(states, steps) && states[|steps|] == s;
    RunIsGood(states, steps, |steps|);
    if s.up[0].New? {
      ServeNewTakes(s, ptr, flags, ok);
    }
  }

  /** At every point of every run each id is in exactly one phase and no step breaks a map. */
  lemma IdsAgree(states: seq<System>, steps: seq<Step>, k: nat, id: uint32, step: Step)
    requires IsRun(states, steps) && k < |states| && states[k].open && 0 < id && IsClientId(id)
    ensures ExactlyOnePhase(ViewOf(states[k], id), id)
    ensures Enabled(states[k], step) ==> Defined(states[k], step)
  {
    RunIsGood(states, steps, k);
    assert HasPhase(ViewOf(states[k], id), id);
    PhasesExclude(ViewOf(states[k], id), id);
    if Enabled(states[k], step) {
      StepIsGood(states[k], step);
    }
  }

  /** The server never finds the id of a new object taken, or out of order, or out of range. */
  lemma NewIdsAreAccepted(states: seq<System>, steps: seq<Step>, k: nat, ok: bool)
    requires IsRun(states, steps) && k < |states| && states[k].open
    requires states[k].up != [] && states[k].up[0].New?
    ensures ReserveNew(states[k].server, states[k].up[0].id, ok).err in {Success, NoMemory}
    ensures ReserveNew(states[k].server, states[k].up[0].id, true).err == Success
  {
    RunIsGood(states, steps, k);
    ServeNewTakes(states[k], 4, 0, ok);
    ServeNewTakes(states[k], 4, 0, true);
  }

  /**
   With memory, the client gets a new object, at an id that was not in use and names in a
   message, unless all its ids are in use.
   */
  lemma CreateSucceedsIff(states: seq<System>, steps: seq<Step>, k: nat, ptr: nat)
    requires IsRun(states, steps) && k < |states| && states[k].open
    ensures Defined(states[k], Create(ptr, true))
    ensures var s, t := states[k], Next(states[k], Create(ptr, true));
            if forall id: uint32 :: Index(id) <= MAX_OBJECTS && IsClientId(id) ==> s.client.Binding(id).Some?
            then t.up == s.up && SameBindings(s.client, t.client)
            else |t.up| == |s.up| + 1 && t.up[..|s.up|] == s.up && t.up[|s.up|].New? &&
                 s.client.Binding(t.up[|s.up|].id) == None &&
                 Rebinds(s.client, t.client, t.up[|s.up|].id, Some(Entry(ptr, 0)))
  {
    RunIsGood(states, steps, k);
    var s := states[k];
    NoSpaceIff(s.client, 0, ptr, true);
    InsertNewBinds(s.client, 0, ptr, true);
    AllInUseIff(s);
  }

  lemma AllInUseIff(s: System)
    requires s.client.WellFormed() && s.client.side == ClientSide
    ensures (forall id: uint32 :: Index(id) <= MAX_OBJECTS && IsClientId(id) ==> s.client.Binding(id).Some?) <==>
            |s.client.Own()| > MAX_OBJECTS && forall i :: 0 <= i <= MAX_OBJECTS ==> s.client.Own()[i].Live?
  {
    if forall id: uint32 :: Index(id) <= MAX_OBJECTS && IsClientId(id) ==> s.client.Binding(id).Some? {
      forall i | 0 <= i <= MAX_OBJECTS
        ensures i < |s.client.Own()| && s.client.Own()[i].Live?
      {
        var id: uint32 := i;
        assert Index(id) == i && s.client.Binding(id).Some?;
      }
      var last: uint32 := MAX_OBJECTS;
      assert s.client.Binding(last).Some?;
    }
  }

  /** The id that delete_id gives back is the very next one the client takes, without any memory. */
  lemma HeardIdIsNext(states: seq<System>, steps: seq<Step>, k: nat, ptr: nat)
    requires IsRun(states, steps) && k < |states| && Enabled(states[k], Hear) && states[k].down[0].DeleteId?
    ensures Defined(states[k], Hear) && Defined(Next(states[k], Hear), Create(ptr, false))
    ensures var t := Next(states[k], Hear);
            Next(t, Create(ptr, false)).up == t.up + [New(states[k].down[0].id, t.tags)]
  {
    RunIsGood(states, steps, k);
    HearIsGood(states[k]);
  }

  /** Whatever is at the id of an arriving request or event is the object the sender meant. */
  lemma MessagesReachTheirObject(states: seq<System>, steps: seq<Step>, k: nat)
    requires IsRun(states, steps) && k < |states| && states[k].open
    ensures var s := states[k];
            s.up != [] && s.up[0].Request? && Lookup(s.server, s.up[0].id) != 0 ==>
              TagAt(s.bound, s.up[0].id) == s.up[0].tag
    ensures var s := states[k];
            s.down != [] && s.down[0].Event? ==>
              s.client.Binding(s.down[0].id).Some? && TagAt(s.meant, s.down[0].id) == s.down[0].tag
  {
    var s := states[k];
    RunIsGood(states, steps, k);
    if s.up != [] && s.up[0].Request? {
      RequestReaches(s);
    }
    if s.down != [] && s.down[0].Event? {
      EventReaches(s);
    }
  }

  /**
   With nothing under way the two sides agree on every id that is not lost: the client has
   an object there if and only if the server has, and it is the same one. Both tables have
   come equally far.
   */
  lemma QuietSidesAgree(states: seq<System>, steps: seq<Step>, k: nat, id: uint32)
    requires IsRun(states, steps) && k < |states| && states[k].open
    requires states[k].up == [] && states[k].down == [] && 0 < id && IsClientId(id)
    ensures var s := states[k];
            ((s.client.Binding(id).Some? <==> Lookup(s.server, id) != 0) <==> !IsLost(ViewOf(s, id), id)) &&
            (Lookup(s.server, id) != 0 ==> TagAt(s.meant, id) == TagAt(s.bound, id)) &&
            |s.server.client| == Used(s)
  {
    RunIsGood(states, steps, k);
    assert HasPhase(ViewOf(states[k], id), id);
  }

  /**
   Destroying an object loses its id if and only if there is no display resource to tell the
   client through, or it is the display resource itself that is destroyed.
   */
  lemma DestroyLosesIff(states: seq<System>, steps: seq<Step>, k: nat, id: uint32)
    requires IsRun(states, steps) && k < |states| && Enabled(states[k], Destroy(id))
    ensures Defined(states[k], Destroy(id))
    ensures var v := ViewOf(Next(states[k], Destroy(id)), id);
            (IsLost(v, id) <==> !Tells(states[k], id)) && (IsDying(v, id) <==> Tells(states[k], id))
  {
    RunIsGood(states, steps, k);
    DestroyView(states[k], id, id);
    PhasesExclude(ViewOf(Next(states[k], Destroy(id)), id), id);
  }

  /** No step but its own destroy changes whether an id is lost. */
  lemma StepKeeps(s: System, step: Step, i: uint32)
    requires Good(s) && Enabled(s, step) && Defined(s, step) && step != Destroy(i) && 0 < i && IsClientId(i)
    ensures var t := Next(s, step); t.open ==> Keeps(ViewOf(s, i), ViewOf(t, i), i)
  {
    match step
    case Create(ptr, ok) => CreateView(s, ptr, ok, i);
    case Ask(id) => AskView(s, id, i);
    case Serve(ptr, flags, ok) =>
      if s.up[0].New? {
        ServeNewView(s, ptr, flags, ok, i);
      } else {
        ServeRequestView(s, ptr, flags, ok, i);
      }
    case Bind(id) =>
      assert ViewOf(Next(s, step), i) == ViewOf(s, i) && HasPhase(ViewOf(s, i), i);
    case Notify(id) => NotifyView(s, id, i);
    case Destroy(id) => DestroyView(s, id, i);
    case Hear => HearView(s, i);
  }

  lemma LostStep(states: seq<System>, steps: seq<Step>, k: nat, id: uint32)
    requires IsRun(states, steps) && k < |steps| && states[k + 1].open && 0 < id && IsClientId(id)
    ensures states[k].open
    ensures IsLost(ViewOf(states[k + 1], id), id) <==>
            IsLost(ViewOf(states[k], id), id) || (steps[k] == Destroy(id) && !Tells(states[k], id))
  {
    assert Follows(states, steps, k);
    RunIsGood(states, steps, k);
    if steps[k] == Destroy(id) {
      DestroyLosesIff(states, steps, k, id);
      DestroyView(states[k], id, id);
    } else {
      StepKeeps(states[k], steps[k], id);
    }
  }

  /** An id is lost if and only if an object there was destroyed, at any time, without telling the client. */
  lemma {:induction false} LostIff(states: seq<System>, steps: seq<Step>, k: nat, id: uint32)
    requires IsRun(states, steps) && k < |states| && states[k].open && 0 < id && IsClientId(id)
    ensures IsLost(ViewOf(states[k], id), id) <==>
            exists j :: 0 <= j < k && steps[j] == Destroy(id) && !Tells(states[j], id)
  {
    if k > 0 {
      LostStep(states, steps, k - 1, id);
      LostIff(states, steps, k - 1, id);
    }
  }

  /** What is lost stays lost: the client keeps the id, the server has nothing there. */
  lemma LostForGood(states: seq<System>, steps: seq<Step>, k: nat, id: uint32, step: Step)
    requires IsRun(states, steps) && k < |states| && 0 < id && IsClientId(id)
    requires Enabled(states[k], step) && IsLost(ViewOf(states[k], id), id)
    ensures Defined(states[k], step)
    ensures var t := Next(states[k], step); t.open ==> IsLost(ViewOf(t, id), id)
  {
    RunIsGood(states, steps, k);
    StepIsGood(states[k], step);
    StepKeeps(states[k], step, id);
  }

  /** Once there is no display resource there is none until the next bind. */
  lemma {:induction false} StaysUnbound(states: seq<System>, steps: seq<Step>, j: nat, k: nat)
    requires IsRun(states, steps) && j <= k < |states| && states[j].display == None
    requires forall i :: j <= i < k ==> !steps[i].Bind?
    ensures states[k].display == None
    decreases k - j
  {
    if j < k {
      StaysUnbound(states, steps, j, k - 1);
      assert Follows(states, steps, k - 1);
    }
  }

  /** A display resource that is no longer there was destroyed. */
  lemma {:induction false} DisplayWasDestroyed(states: seq<System>, steps: seq<Step>, j: nat, k: nat) returns (i: nat)
    requires IsRun(states, steps) && j <= k < |states| && states[j].display.Some? && states[k].display == None
    ensures j <= i < k && states[i].display.Some? && steps[i] == Destroy(states[i].display.value)
    decreases k - j
  {
    assert Follows(states, steps, k - 1);
    if states[k - 1].display == None {
      i := DisplayWasDestroyed(states, steps, j, k - 1);
    } else {
      i := k - 1;
    }
  }

  /** One bind, at step `b`, and nothing destroyed before it. */
  predicate BoundFirst(steps: seq<Step>, b: nat) {
    b < |steps| && steps[b].Bind? &&
    (forall j :: 0 <= j < b ==> !steps[j].Destroy?) &&
    (forall j :: b < j < |steps| ==> !steps[j].Bind?)
  }

  /**
   What the display resource is for: when it is bound before anything is destroyed, then no
   id is lost if and only if it has not been destroyed itself.
   */
  lemma NoneLostIff(states: seq<System>, steps: seq<Step>, b: nat, k: nat)
    requires IsRun(states, steps) && BoundFirst(steps, b) && b < k < |states| && states[k].open
    ensures states[k].display.Some? <==>
            forall id: uint32 :: 0 < id && IsClientId(id) ==> !IsLost(ViewOf(states[k], id), id)
  {
    if states[k].display.Some? {
      forall id: uint32 | 0 < id && IsClientId(id)
        ensures !IsLost(ViewOf(states[k], id), id)
      {
        NotLost(states, steps, b, k, id);
      }
    } else {
      assert Follows(states, steps, b);
      var i := DisplayWasDestroyed(states, steps, b + 1, k);
      var id := states[i].display.value;
      assert Follows(states, steps, i) && !Tells(states[i], id);
      RunIsGood(states, steps, i);
      LostIff(states, steps, k, id);
      assert IsLost(ViewOf(states[k], id), id);
    }
  }

  lemma NotLost(states: seq<System>, steps: seq<Step>, b: nat, k: nat, id: uint32)
    requires IsRun(states, steps) && BoundFirst(steps, b) && b < k < |states| && states[k].open
    requires states[k].display.Some? && 0 < id && IsClientId(id)
    ensures !IsLost(ViewOf(states[k], id), id)
  {
    LostIff(states, steps, k, id);
    if IsLost(ViewOf(states[k], id), id) {
      var j :| 0 <= j < k && steps[j] == Destroy(id) && !Tells(states[j], id);
      assert Follows(states, steps, j);
      StaysUnbound(states, steps, j + 1, k);
    }
  }

  lemma RequestReaches(s: System)
    requires Good(s) && s.up != [] && s.up[0].Request?
    ensures Lookup(s.server, s.up[0].id) != 0 ==> TagAt(s.bound, s.up[0].id) == s.up[0].tag
  {
    var id := s.up[0].id;
    assert On(s.up, id)[0] == s.up[0] && HasPhase(ViewOf(s, id), id);
    MoveServeRequest(ViewOf(s, id), id);
  }

  lemma EventReaches(s: System)
    requires Good(s) && s.down != [] && s.down[0].Event?
    ensures s.client.Binding(s.down[0].id).Some? && TagAt(s.meant, s.down[0].id) == s.down[0].tag
  {
    var id := s.down[0].id;
    assert On(s.down, id)[0] == s.down[0] && HasPhase(ViewOf(s, id), id);
    MoveHearEvent(ViewOf(s, id), id);
  }

  /**
   Why the client waits: the server refuses an id it has seen before exactly as long as it
   still has an object there.
   */
  lemma RefusedIffStillHeld(states: seq<System>, steps: seq<Step>, k: nat, id: uint32, ok: bool)
    requires IsRun(states, steps) && k < |states| && states[k].open
    requires 0 < id < |states[k].server.client|
    ensures var r := ReserveNew(states[k].server, id, ok).err;
            r == if Lookup(states[k].server, id) != 0 then Invalid else Success
  {
    RunIsGood(states, steps, k);
    assert states[k].server.Other()[id].Live?;
  }
}
