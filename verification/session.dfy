/**
 One connection with the resources its server keeps: modules Protocol and Resources joined.

 The server's map is the map of ids that the resources are in. A request names an id; what
 the server finds there is an address, and this module says what is at that address.
 */
module Sessions {
  import opened Words
  import opened IdMap
  import P = Protocol
  import R = Resources

  /**
   `tags[k]` is the tag of the object whose resource has serial `k`; `heard` are the ids the
   client took back.
   */
  datatype Session = Session(sys: P.System, res: R.Client, tags: map<nat, nat>, heard: seq<uint32>)

  ghost function Start(): Session {
    Session(P.Start(), R.NewClient(P.Start().server), map[], [])
  }

  datatype Step =
    | Create(ptr: nat, ok: bool)
    | Ask(id: uint32)
    | Hear
    | Serve(addr: nat, flags: nat, hasDestructor: bool, ok: bool)
    | AddOwn(addr: nat, flags: nat, hasDestructor: bool, ok: bool)
    | BindDisplay(addr: nat)
    | Notify(addr: nat)
    | Destroy(addr: nat)
    | OwnerFrees(addr: nat)

  function IdAt(s: Session, addr: nat): uint32 {
    if addr in s.res.memory then s.res.memory[addr].id else 0
  }

  /** What a step is for the connection; ids of the server's own do not concern it. */
  function OnIds(s: Session, step: Step): Option<P.Step> {
    match step
    case Create(ptr, ok) => Some(P.Create(ptr, ok))
    case Ask(id) => Some(P.Ask(id))
    case Hear => Some(P.Hear)
    case Serve(addr, flags, _, ok) => Some(P.Serve(addr, flags, ok))
    case AddOwn(_, _, _, _) => None
    case BindDisplay(addr) => Some(P.Bind(IdAt(s, addr)))
    case Notify(addr) => Some(P.Notify(IdAt(s, addr)))
    case Destroy(addr) => if IsClientId(IdAt(s, addr)) then Some(P.Destroy(IdAt(s, addr))) else None
    case OwnerFrees(_) => None
  }

  /** What it is for the resources. */
  function OnResources(s: Session, step: Step): Option<R.Step> {
    match step
    case Serve(addr, flags, hasDestructor, ok) =>
      if s.sys.up != [] && s.sys.up[0].New?
      then Some(R.AddPeer(addr, s.sys.up[0].id, flags, hasDestructor, ok)) else None
    case AddOwn(addr, flags, hasDestructor, ok) => Some(R.AddOwn(addr, flags, hasDestructor, ok))
    case BindDisplay(addr) => Some(R.BindDisplay(addr))
    case Destroy(addr) => Some(R.DestroyAt(addr))
    case OwnerFrees(addr) => Some(R.OwnerFrees(addr))
    case _ => None
  }

  ghost predicate Enabled(s: Session, step: Step) {
    var p, r := OnIds(s, step), OnResources(s, step);
    s.sys.open && (p.Some? ==> P.Enabled(s.sys, p.value) && P.Defined(s.sys, p.value)) &&
    (r.Some? ==> R.Enabled(s.res, r.value)) &&
    (step.Notify? ==> step.addr in s.res.memory && !s.res.memory[step.addr].destroyed)
  }

  ghost function Next(s: Session, step: Step): Session
    requires Enabled(s, step)
  {
    var p, r := OnIds(s, step), OnResources(s, step);
    var res := if r.Some? then R.Next(s.res, r.value) else s.res;
    var sys := if p.Some? then P.Next(s.sys, p.value) else s.sys.(server := res.ids);
    Session(sys, res,
            if step.Serve? && |res.made| > |s.res.made| then s.tags[|s.res.made| := s.sys.up[0].tag]
            else s.tags,
            if step.Hear? && s.sys.down[0].DeleteId? then s.heard + [s.sys.down[0].id] else s.heard)
  }

  // ---------- what every step keeps ----------

  /** The ids that the log says the client was told of. */
  function Announced(log: seq<R.Action>): seq<uint32> {
    if log == [] then []
    else if log[0].SendDeleteId? then [log[0].id] + Announced(log[1..])
    else Announced(log[1..])
  }

  /** The ids in the delete_id messages of a channel. */
  function Deletes(ch: seq<P.Msg>): seq<uint32> {
    if ch == [] then []
    else if ch[0].DeleteId? then [ch[0].id] + Deletes(ch[1..])
    else Deletes(ch[1..])
  }

  lemma {:induction false} AnnouncedJoin(a: seq<R.Action>, b: seq<R.Action>)
    ensures Announced(a + b) == Announced(a) + Announced(b)
    decreases |a|
  {
    if a == [] {
      assert a + b == b;
    } else {
      AnnouncedJoin(a[1..], b);
      assert (a + b)[1..] == a[1..] + b;
    }
  }

  lemma {:induction false} DeletesJoin(a: seq<P.Msg>, b: seq<P.Msg>)
    ensures Deletes(a + b) == Deletes(a) + Deletes(b)
    decreases |a|
  {
    if a == [] {
      assert a + b == b;
    } else {
      DeletesJoin(a[1..], b);
      assert (a + b)[1..] == a[1..] + b;
    }
  }

  /** The two modules mean the same map and the same display resource. */
  predicate SameMap(s: Session) {
    s.sys.server == s.res.ids &&
    s.sys.display == if s.res.display == 0 then None else Some(IdAt(s, s.res.display))
  }

  predicate Tagged(s: Session, p: nat)
    requires p in s.res.memory
  {
    var r := s.res.memory[p];
    IsClientId(r.id) ==> r.serial in s.tags && s.tags[r.serial] == P.TagAt(s.sys.bound, r.id)
  }

  ghost predicate AllTagged(s: Session) {
    forall p :: p in s.res.memory && !s.res.memory[p].destroyed ==> Tagged(s, p)
  }

  ghost predicate Joined(s: Session) {
    P.Good(s.sys) && R.Sound(s.res) && SameMap(s) && AllTagged(s) &&
    Announced(s.res.log) == s.heard + Deletes(s.sys.down)
  }

  lemma StartIsJoined()
    ensures Joined(Start())
  {
    P.StartIsGood();
    BlankIsSound(P.Start().server);
  }

  lemma BlankIsSound(ids: Ids)
    requires R.Blank(ids)
    ensures R.Sound(R.NewClient(ids))
  {
    R.RunIsSound([R.NewClient(ids)], [], 0);
  }

  /** Ids of the server's own do not concern the connection. */
  lemma OwnIdsAreGood(s: P.System, ids: Ids)
    requires P.Good(s) && ids.WellFormed() && ids.side == ServerSide && ids.client == s.server.client
    ensures P.Good(s.(server := ids))
  {
    var t := s.(server := ids);
    forall i: uint32 | 0 < i && IsClientId(i)
      ensures P.HasPhase(P.ViewOf(t, i), i)
    {
      assert P.ViewOf(t, i) == P.ViewOf(s, i) && P.HasPhase(P.ViewOf(s, i), i);
    }
  }

  /** A step of the connection that changes nothing on the server keeps what is joined there. */
  lemma ServerKept(s: Session, t: Session)
    requires R.Sound(s.res) && SameMap(s) && AllTagged(s) && t.res == s.res && t.tags == s.tags
    requires t.sys.server == s.sys.server && t.sys.display == s.sys.display && t.sys.bound == s.sys.bound
    ensures SameMap(t) && AllTagged(t)
  {
    assert forall p :: p in s.res.memory && !s.res.memory[p].destroyed ==> (Tagged(s, p) <==> Tagged(t, p));
  }

  /** What these steps do to the server's part and to the messages to the client. */
  lemma ServerUntouched(s: P.System, step: P.Step)
    requires P.Enabled(s, step) && P.Defined(s, step)
    requires step.Create? || step.Ask? || step.Hear? || step.Notify?
    ensures var t := P.Next(s, step);
            t.open && t.server == s.server && t.display == s.display && t.bound == s.bound &&
            if step.Hear? then t.down == s.down[1..]
            else Deletes(t.down) == Deletes(s.down)
  {
    if step.Notify? {
      DeletesJoin(s.down, [P.Event(step.id, P.TagAt(s.bound, step.id))]);
    }
  }

  lemma KeptJoins(s: Session, step: Step)
    requires Joined(s) && Enabled(s, step) && (step.Create? || step.Ask? || step.Hear? || step.Notify?)
    ensures Joined(Next(s, step))
  {
    var t := Next(s, step);
    ServerUntouched(s.sys, OnIds(s, step).value);
    ServerKept(s, t);
    P.StepIsGood(s.sys, OnIds(s, step).value);
    if step.Hear? {
      HeardOne(s, t);
    }
  }

  lemma HeardOne(s: Session, t: Session)
    requires s.sys.down != [] && t.sys.down == s.sys.down[1..]
    requires t.heard == if s.sys.down[0].DeleteId? then s.heard + [s.sys.down[0].id] else s.heard
    ensures t.heard + Deletes(t.sys.down) == s.heard + Deletes(s.sys.down)
  {
  }

  lemma BindJoins(s: Session, addr: nat)
    requires Joined(s) && Enabled(s, BindDisplay(addr))
    ensures Joined(Next(s, BindDisplay(addr)))
  {
    var t := Next(s, BindDisplay(addr));
    P.StepIsGood(s.sys, P.Bind(IdAt(s, addr)));
    R.StepIsSound(s.res, R.BindDisplay(addr));
    assert R.IsFound(s.res, addr);
    forall p | p in t.res.memory && !t.res.memory[p].destroyed
      ensures Tagged(t, p)
    {
      assert p in s.res.memory && Tagged(s, p);
    }
  }

  lemma OwnerFreesJoins(s: Session, addr: nat)
    requires Joined(s) && Enabled(s, OwnerFrees(addr))
    ensures Joined(Next(s, OwnerFrees(addr)))
  {
    var t := Next(s, OwnerFrees(addr));
    R.StepIsSound(s.res, R.OwnerFrees(addr));
    assert t.sys == s.sys;
    forall p | p in t.res.memory && !t.res.memory[p].destroyed
      ensures Tagged(t, p)
    {
      assert p in s.res.memory && Tagged(s, p);
    }
  }

  lemma AddOwnKeeps(s: Session, t: Session, addr: nat, flags: nat, hasDestructor: bool, ok: bool)
    requires R.Sound(s.res) && SameMap(s) && AllTagged(s)
    requires R.Enabled(s.res, R.AddOwn(addr, flags, hasDestructor, ok))
    requires t.res == R.Next(s.res, R.AddOwn(addr, flags, hasDestructor, ok))
    requires t.sys == s.sys.(server := t.res.ids) && t.tags == s.tags
    ensures SameMap(t) && AllTagged(t) && t.res.ids.client == s.res.ids.client && t.res.log == s.res.log
  {
    InsertNewBinds(s.res.ids, flags, addr, ok);
    forall p | p in t.res.memory && !t.res.memory[p].destroyed
      ensures Tagged(t, p)
    {
      assert p != addr ==> p in s.res.memory && Tagged(s, p);
    }
  }

  lemma AddOwnJoins(s: Session, addr: nat, flags: nat, hasDestructor: bool, ok: bool)
    requires Joined(s) && Enabled(s, AddOwn(addr, flags, hasDestructor, ok))
    ensures Joined(Next(s, AddOwn(addr, flags, hasDestructor, ok)))
  {
    var t := Next(s, AddOwn(addr, flags, hasDestructor, ok));
    AddOwnKeeps(s, t, addr, flags, hasDestructor, ok);
    R.StepIsSound(s.res, R.AddOwn(addr, flags, hasDestructor, ok));
    OwnIdsAreGood(s.sys, t.res.ids);
  }

  lemma ServeNewPlaces(s: Session, addr: nat, flags: nat, hasDestructor: bool, ok: bool)
    requires SameMap(s) && P.MessageIds(s.sys) && s.res.ids.side == ServerSide
    requires Enabled(s, Serve(addr, flags, hasDestructor, ok)) && s.sys.up[0].New?
    ensures var t, m := Next(s, Serve(addr, flags, hasDestructor, ok)), s.sys.up[0];
            t.sys.open ==>
              IsClientId(m.id) && Lookup(s.res.ids, m.id) == 0 &&
              t.res == R.Place(s.res, t.sys.server, addr, m.id, flags, hasDestructor) &&
              t.sys.display == s.sys.display && t.sys.down == s.sys.down &&
              t.sys.bound == s.sys.bound[m.id := m.tag] && t.tags == s.tags[|s.res.made| := m.tag]
  {
    ReserveNewBinds(s.res.ids, s.sys.up[0].id, ok);
  }

  lemma PlaceJoins(s: Session, t: Session, addr: nat, flags: nat, hasDestructor: bool, m: P.Msg)
    requires Joined(s) && addr != 0 && addr !in s.res.memory && m.New? && Lookup(s.res.ids, m.id) == 0
    requires t.res == R.Place(s.res, t.sys.server, addr, m.id, flags, hasDestructor)
    requires t.sys.display == s.sys.display && t.sys.bound == s.sys.bound[m.id := m.tag]
    requires t.tags == s.tags[|s.res.made| := m.tag]
    ensures SameMap(t) && AllTagged(t)
  {
    forall p | p in t.res.memory && !t.res.memory[p].destroyed
      ensures Tagged(t, p)
    {
      if p != addr {
        assert p in s.res.memory && Tagged(s, p) && R.IsFound(s.res, p);
      }
    }
  }

  lemma ServeJoins(s: Session, addr: nat, flags: nat, hasDestructor: bool, ok: bool)
    requires Joined(s) && Enabled(s, Serve(addr, flags, hasDestructor, ok))
    ensures var t := Next(s, Serve(addr, flags, hasDestructor, ok)); t.sys.open ==> Joined(t)
  {
    var t, m := Next(s, Serve(addr, flags, hasDestructor, ok)), s.sys.up[0];
    P.StepIsGood(s.sys, P.Serve(addr, flags, ok));
    if !m.New? {
      ServerKept(s, t);
    } else if t.sys.open {
      R.StepIsSound(s.res, R.AddPeer(addr, m.id, flags, hasDestructor, ok));
      ServeNewPlaces(s, addr, flags, hasDestructor, ok);
      PlaceJoins(s, t, addr, flags, hasDestructor, m);
    }
  }

  lemma TeardownAnnouncesNothing(r: R.Resource, legacy: bool)
    ensures Announced(R.Teardown(r, legacy)) == []
  {
    var a, b := [R.OldSignal(r.serial)], if legacy then [] else [R.FinalSignal(r.serial)];
    var c := if r.onDestroy != R.NoDestructor then [R.Destructor(r.serial)] else [];
    var d := if legacy then [] else [R.Freed(r.serial)];
    AnnouncedJoin(a + b + c, d);
    AnnouncedJoin(a + b, c);
    AnnouncedJoin(a, b);
    assert R.Teardown(r, legacy) == a + b + c + d;
  }

  lemma DestroyAnnounces(c: R.Client, p: nat)
    requires p in c.memory && CanRemove(c.ids, c.memory[p].id)
    ensures var d, id := R.Destroyed(c, p), c.memory[p].id;
            Announced(d.log) == Announced(c.log) + if IsClientId(id) && d.display != 0 then [id] else []
  {
    var d, r := R.Destroyed(c, p), c.memory[p];
    var teardown := R.Teardown(r, LookupFlags(c.ids, r.id) == 1);
    var told := if IsClientId(r.id) && d.display != 0 then [R.SendDeleteId(r.id)] else [];
    assert d.log == c.log + teardown + told;
    AnnouncedJoin(c.log + teardown, told);
    AnnouncedJoin(c.log, teardown);
    TeardownAnnouncesNothing(r, LookupFlags(c.ids, r.id) == 1);
  }

  /** Both modules clear the display resource alike. */
  lemma DestroyClearsAlike(s: Session, addr: nat)
    requires R.Sound(s.res) && SameMap(s) && addr in s.res.memory && !s.res.memory[addr].destroyed
    ensures var r := s.res.memory[addr];
            var display := R.DisplayAfter(s.res.display, r);
            P.DisplayWithout(s.sys, r.id) == if display == 0 then None else Some(IdAt(s, display))
  {
    assert R.IsFound(s.res, addr);
    assert s.res.display != 0 ==> R.IsFound(s.res, s.res.display);
  }

  /** `t` is what a destroy leaves, as far as resources and display are concerned. */
  ghost predicate LeftByDestroy(s: Session, t: Session, addr: nat) {
    addr in s.res.memory && CanRemove(s.res.ids, s.res.memory[addr].id) &&
    var id := s.res.memory[addr].id;
    t.res == R.Destroyed(s.res, addr) && t.sys.server == t.res.ids &&
    t.tags == s.tags && t.heard == s.heard && t.sys.bound == s.sys.bound &&
    if IsClientId(id) then
      t.sys.display == P.DisplayWithout(s.sys, id) &&
      t.sys.down == s.sys.down + P.Notice(t.sys.display, id)
    else t.sys.display == s.sys.display && t.sys.down == s.sys.down
  }

  lemma DestroyLeaves(s: Session, addr: nat)
    requires SameMap(s) && Enabled(s, Destroy(addr))
    ensures LeftByDestroy(s, Next(s, Destroy(addr)), addr)
  {
  }

  lemma DestroyTags(s: Session, t: Session, addr: nat)
    requires AllTagged(s) && LeftByDestroy(s, t, addr)
    ensures AllTagged(t)
  {
    forall p | p in t.res.memory && !t.res.memory[p].destroyed
      ensures Tagged(t, p)
    {
      assert p in s.res.memory && Tagged(s, p);
    }
  }

  lemma DestroyMap(s: Session, t: Session, addr: nat)
    requires R.Sound(s.res) && SameMap(s) && LeftByDestroy(s, t, addr) && !s.res.memory[addr].destroyed
    requires s.sys.display.Some? ==> IsClientId(s.sys.display.value)
    ensures SameMap(t)
  {
    DestroyClearsAlike(s, addr);
    assert R.DisplayIsThere(s.res);
    assert t.res.display != 0 ==> IdAt(t, t.res.display) == IdAt(s, t.res.display);
  }

  lemma DestroyTells(s: Session, t: Session, addr: nat)
    requires SameMap(t) && LeftByDestroy(s, t, addr)
    requires Announced(s.res.log) == s.heard + Deletes(s.sys.down)
    ensures Announced(t.res.log) == t.heard + Deletes(t.sys.down)
  {
    DestroyAnnounces(s.res, addr);
    var id := s.res.memory[addr].id;
    if IsClientId(id) {
      DeletesJoin(s.sys.down, P.Notice(t.sys.display, id));
    }
  }

  lemma DestroyJoins(s: Session, addr: nat)
    requires Joined(s) && Enabled(s, Destroy(addr))
    ensures Joined(Next(s, Destroy(addr)))
  {
    var t, id := Next(s, Destroy(addr)), IdAt(s, addr);
    DestroyLeaves(s, addr);
    DestroyMap(s, t, addr);
    DestroyTags(s, t, addr);
    DestroyTells(s, t, addr);
    R.StepIsSound(s.res, R.DestroyAt(addr));
    if IsClientId(id) {
      P.StepIsGood(s.sys, P.Destroy(id));
    } else {
      OwnIdsAreGood(s.sys, t.res.ids);
    }
  }

  lemma StepJoins(s: Session, step: Step)
    requires Joined(s) && Enabled(s, step)
    ensures var t := Next(s, step); t.sys.open ==> Joined(t)
  {
    match step
    case Serve(addr, flags, hasDestructor, ok) => ServeJoins(s, addr, flags, hasDestructor, ok);
    case AddOwn(addr, flags, hasDestructor, ok) => AddOwnJoins(s, addr, flags, hasDestructor, ok);
    case BindDisplay(addr) => BindJoins(s, addr);
    case Destroy(addr) => DestroyJoins(s, addr);
    case OwnerFrees(addr) => OwnerFreesJoins(s, addr);
    case _ => KeptJoins(s, step);
  }

  // ---------- every run ----------

  ghost predicate Follows(states: seq<Session>, steps: seq<Step>, k: nat)
    requires k < |steps| && k + 1 < |states|
  {
    Enabled(states[k], steps[k]) && states[k + 1] == Next(states[k], steps[k])
  }

  ghost predicate IsRun(states: seq<Session>, steps: seq<Step>) {
    |states| == |steps| + 1 && states[0] == Start() &&
    forall k :: 0 <= k < |steps| ==> Follows(states, steps, k)
  }

  lemma {:induction false} RunIsJoined(states: seq<Session>, steps: seq<Step>, k: nat)
    requires IsRun(states, steps) && k < |states| && states[k].sys.open
    ensures Joined(states[k])
  {
    if k == 0 {
      StartIsJoined();
    } else {
      assert Follows(states, steps, k - 1);
      RunIsJoined(states, steps, k - 1);
      StepJoins(states[k - 1], steps[k - 1]);
    }
  }

  /**
   What a request that arrives finds at its id, if anything, is a resource that is in memory,
   was not destroyed, and was made for the very object the sender meant.
   */
  lemma RequestFindsItsResource(states: seq<Session>, steps: seq<Step>, k: nat)
    requires IsRun(states, steps) && k < |states| && states[k].sys.open
    requires states[k].sys.up != [] && states[k].sys.up[0].Request?
    ensures var s, m := states[k], states[k].sys.up[0];
            var p := Lookup(s.sys.server, m.id);
            p != 0 ==> p in s.res.memory && s.res.memory[p].id == m.id && !s.res.memory[p].destroyed &&
                       s.res.memory[p].serial in s.tags && s.tags[s.res.memory[p].serial] == m.tag
  {
    RunIsJoined(states, steps, k);
    var s, m := states[k], states[k].sys.up[0];
    P.RequestReaches(s.sys);
    var p := Lookup(s.sys.server, m.id);
    if p != 0 {
      assert p in s.res.memory && Tagged(s, p);
      assert IsClientId(m.id);
    }
  }

  /** What destroying resources announces is what the client hears, each once and in order. */
  lemma AnnouncedIsHeard(states: seq<Session>, steps: seq<Step>, k: nat)
    requires IsRun(states, steps) && k < |states| && states[k].sys.open
    ensures Announced(states[k].res.log) == states[k].heard + Deletes(states[k].sys.down)
  {
    RunIsJoined(states, steps, k);
  }
}
