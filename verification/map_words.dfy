/**
 How the words of a map's two tables, and the head of its free list, represent slots.
 */
module MapWords {
  import opened Words
  import opened FreeList
  import opened IdMap

  /** Whether `w` is what an entry in this state holds; a freed entry holds a link or 0. */
  predicate Holds(slot: Slot, w: nat) {
    match slot
    case Live(e) => w == e.ptr + 2 * e.flag && e.ptr % 4 == 0 && e.flag < 2
    case Wasted => w == 0
    case Free => true
  }

  /** The tag macros take a live word apart again. */
  lemma LiveReadsBack(e: Entry, w: nat)
    requires Holds(Live(e), w)
    ensures !TaggedFree(w) && PointerOf(w) == e.ptr && FlagOf(w) == e.flag
  {
    var q := e.ptr / 4;
    assert w == 4 * q + 2 * e.flag;
    if e.flag == 0 {
      assert w / 2 == 2 * q;
    } else {
      assert w / 2 == 2 * q + 1;
    }
  }

  ghost predicate TableHolds(slots: seq<Slot>, words: seq<nat>) {
    |slots| == |words| && forall i :: 0 <= i < |slots| ==> Holds(slots[i], words[i])
  }

  ghost predicate Represents(s: Ids, own: seq<nat>, other: seq<nat>, head: nat) {
    s.WellFormed() && Threaded(own, head, s.free) &&
    TableHolds(s.Own(), own) && TableHolds(s.Other(), other)
  }

  /** The states that the words represent; as a set, a caller need not look inside it. */
  ghost function StatesOf(own: seq<nat>, other: seq<nat>, head: nat): iset<Ids> {
    iset s: Ids | Represents(s, own, other, head)
  }

  /** The words leave no choice: they represent at most one state. */
  lemma RepresentsOne(s: Ids, t: Ids, own: seq<nat>, other: seq<nat>, head: nat)
    requires Represents(s, own, other, head) && Represents(t, own, other, head)
    requires s.side == t.side
    ensures s == t
  {
    ThreadedUnique(own, head, s.free, t.free);
    SlotsEqual(s.Other(), t.Other(), other);
    forall i | 0 <= i < |own|
      ensures s.Own()[i] == t.Own()[i]
    {
      assert Holds(s.Own()[i], own[i]) && Holds(t.Own()[i], own[i]);
      assert i in s.free <==> s.Own()[i] == Free;
      assert i in t.free <==> t.Own()[i] == Free;
    }
    assert s.Own() == t.Own();
  }

  lemma SlotsEqual(a: seq<Slot>, b: seq<Slot>, words: seq<nat>)
    requires TableHolds(a, words) && TableHolds(b, words)
    requires forall i :: 0 <= i < |words| ==> a[i].Live? && b[i].Live?
    ensures a == b
  {
    forall i | 0 <= i < |words|
      ensures a[i] == b[i]
    {
      assert Holds(a[i], words[i]) && Holds(b[i], words[i]);
    }
  }

  /** A pointer stored with a flag is what a live slot holds. */
  lemma TagHolds(ptr: nat, flags: nat, n: WordSize)
    requires IsPointer(ptr, n)
    ensures Holds(Live(Entry(ptr, flags % 2)), OrFlag(ptr, flags))
    ensures OrFlag(ptr, flags) < Modulus(n)
  {
    TagRoundTrip(ptr, flags, n);
  }

  /** What a lookup reads at index `i` of a table: the word there, or 1 if there is none. */
  function ReadAt(words: seq<nat>, i: nat): nat {
    if i < |words| then words[i] else 1
  }

  /** What a lookup makes of a word, by the free bit alone. */
  function ReadEntry(w: nat): Entry {
    if TaggedFree(w) then Entry(0, 0) else Entry(PointerOf(w), FlagOf(w))
  }

  lemma FreedReadsNull(own: seq<nat>, head: nat, free: seq<nat>, i: nat)
    requires Threaded(own, head, free) && i in free
    ensures i < |own| && ReadEntry(own[i]) == Entry(0, 0)
  {
    var k :| 0 <= k < |free| && free[k] == i;
    ThreadedAt(own, head, free, k);
  }

  /**
   The untagged tail: whatever a freed entry holds, a link or the final 0, a reader that
   trusts the free bit finds neither a pointer nor a flag there.
   */
  lemma {:induction false} ReadsAsBinding(s: Ids, own: seq<nat>, other: seq<nat>, head: nat, id: uint32)
    requires Represents(s, own, other, head)
    ensures ReadEntry(ReadAt(if s.Owns(id) then own else other, Index(id))) ==
            if s.Binding(id).Some? then s.Binding(id).value else Entry(0, 0)
  {
    var i := Index(id);
    var slots, words := if s.Owns(id) then s.Own() else s.Other(), if s.Owns(id) then own else other;
    assert slots == s.Table(id);
    if i < |words| {
      assert Holds(slots[i], words[i]);
      match slots[i]
      case Live(e) => LiveReadsBack(e, words[i]);
      case Wasted =>
      case Free => FreedReadsNull(own, head, s.free, i);
    }
  }

  /** Every link is a 32-bit number and leads back to its index. */
  lemma LinksFit(s: Ids, own: seq<nat>, other: seq<nat>, head: nat, k: nat)
    requires Represents(s, own, other, head) && k < |s.free|
    ensures s.free[k] <= MAX_OBJECTS && s.free[k] < |own|
    ensures Link(s.free[k]) == LinkWord(s.free[k]) < 0x1_0000_0000
    ensures LinkWord(s.free[k]) / 2 == s.free[k]
    ensures own[s.free[k]] < 0x1_0000_0000
  {
    assert s.free[k] in s.free;
    LinkRoundTrip(s.free[k]);
    ThreadedAt(own, head, s.free, k);
    if k + 1 < |s.free| {
      assert s.free[k + 1] in s.free;
    }
  }

  /** A nonzero head names the first freed entry, and that one holds the next head. */
  ghost predicate LeadsTo(head: nat, free: seq<nat>, own: seq<nat>) {
    head != 0 ==>
      free != [] && free[0] < |own| && free[0] <= MAX_OBJECTS && head / 2 == free[0] &&
      own[free[0]] < 0x1_0000_0000
  }

  lemma HeadLeads(s: Ids, own: seq<nat>, other: seq<nat>, head: nat)
    requires Represents(s, own, other, head)
    ensures LeadsTo(head, s.free, own)
  {
    if head != 0 {
      LinksFit(s, own, other, head, 0);
    }
  }

  // ---------- each operation on words is the operation on slots ----------

  /**
   An insertion of the word `w`, as a step of the own table, the head and the list. The
   index of a new entry is counted in 32 bits.
   */
  ghost predicate InsertsWord(base: nat, w: nat, own: seq<nat>, head: nat, free: seq<nat>,
                              own': seq<nat>, head': nat, id: nat, err: Errno)
  {
    if head != 0 then
      free != [] && free[0] < |own| &&
      own' == own[free[0] := w] && head' == own[free[0]] &&
      err == Success && id == base + free[0]
    else
      head' == head &&
      var count := |own| % 0x1_0000_0000;
      if err == NoMemory then own' == own && id == 0
      else if count > MAX_OBJECTS then own' == own + [0] && id == 0 && err == NoSpace
      else own' == own + [w] && id == base + count && err == Success
  }

  /**
   An id returned for a new entry names that entry if and only if the entry is within the
   limit; with 2^32 entries in the table before, it is the id of the first entry.
   */
  lemma NewIdNamesItsEntryIff(side: Side, w: nat, own: seq<nat>, free: seq<nat>, own': seq<nat>, head': nat,
                              id: nat, err: Errno)
    requires InsertsWord(Base(side), w, own, 0, free, own', head', id, err) && err == Success
    ensures own' == own + [w] && id < 0x1_0000_0000 && (IsClientId(id) <==> side.ClientSide?)
    ensures Index(id) == |own| <==> |own| <= MAX_OBJECTS
    ensures |own| == 0x1_0000_0000 ==> Index(id) == 0
  {
    FreshIdRoutesIff(side, |own|);
  }

  lemma InsertsWordMeans(s: Ids, flags: nat, ptr: nat, n: WordSize, other: seq<nat>,
                         own: seq<nat>, head: nat, own': seq<nat>, head': nat, id: uint32, err: Errno,
                         ok: bool)
    requires s in StatesOf(own, other, head) && IsPointer(ptr, n) && |own| < 0x1_0000_0000
    requires InsertsWord(Base(s.side), OrFlag(ptr, flags), own, head, s.free, own', head', id, err)
    requires err == NoMemory <==> head == 0 && !ok
    ensures var r := InsertNew(s, flags, ptr, ok);
            r.id == id && r.err == err && Represents(r.ids, own', other, head')
  {
    TagHolds(ptr, flags, n);
    InsertNewKeeps(s, flags, ptr, ok);
    if head != 0 {
      ThreadedDistinct(own, head, s.free);
      ThreadedFrame(own, own', own[s.free[0]], s.free[1..]);
    } else if err != NoMemory {
      ThreadedFrame(own, own', head, s.free);
    }
  }

  datatype Stored = Stored(words: seq<nat>, err: Errno)

  /** A store of the word `w` at index `i`, as a step of one table. */
  ghost function StoredWord(i: nat, w: nat, words: seq<nat>, ok: bool): Stored {
    if i > MAX_OBJECTS then Stored(words, NoSpace)
    else if |words| < i then Stored(words, Invalid)
    else if i < |words| then Stored(words[i := w], Success)
    else if !ok then Stored(words, NoMemory)
    else Stored(words + [w], Success)
  }

  /** A reservation of index `i`, as a step of the peer's table. */
  function ReservedWord(i: nat, words: seq<nat>, ok: bool): Stored {
    if i > MAX_OBJECTS then Stored(words, NoSpace)
    else if |words| < i then Stored(words, Invalid)
    else if i < |words| then Stored(words, if words[i] == 0 then Success else Invalid)
    else if !ok then Stored(words, NoMemory)
    else Stored(words + [0], Success)
  }

  lemma {:induction false} StoresWordMeans(s: Ids, own: seq<nat>, other: seq<nat>, head: nat,
                                           flags: nat, id: uint32, ptr: nat, n: WordSize,
                                           own': seq<nat>, other': seq<nat>, err: Errno, ok: bool)
    requires s in StatesOf(own, other, head) && IsPointer(ptr, n) && CanInsertAt(s, id)
    requires var w := OrFlag(ptr, flags);
             if s.Owns(id) then Stored(own', err) == StoredWord(Index(id), w, own, ok) && other' == other
             else Stored(other', err) == StoredWord(Index(id), w, other, ok) && own' == own
    ensures var r := InsertAt(s, flags, id, ptr, ok);
            r.err == err && r.ids.side == s.side && Represents(r.ids, own', other', head)
  {
    TagHolds(ptr, flags, n);
    InsertAtKeeps(s, flags, id, ptr, ok);
    ThreadedFrame(own, own', head, s.free);
  }

  lemma ReservesWordMeans(s: Ids, own: seq<nat>, other: seq<nat>, head: nat,
                          id: uint32, other': seq<nat>, err: Errno, ok: bool)
    requires s in StatesOf(own, other, head)
    requires if s.Owns(id) then err == Invalid && other' == other
             else Stored(other', err) == ReservedWord(Index(id), other, ok)
    ensures var r := ReserveNew(s, id, ok);
            r.err == err && r.ids.side == s.side && Represents(r.ids, own, other', head)
  {
    ReserveNewKeeps(s, id, ok);
    if Index(id) < |other| {
      assert !s.Owns(id) ==> Holds(s.Other()[Index(id)], other[Index(id)]);
    }
  }

  lemma RemoveMeans(s: Ids, own: seq<nat>, other: seq<nat>, head: nat, id: uint32)
    requires Represents(s, own, other, head) && s.Owns(id) && s.Binding(id).Some?
    ensures Index(id) < |own| && Index(id) <= MAX_OBJECTS
    ensures Represents(Remove(s, id), own[Index(id) := head], other, LinkWord(Index(id)))
  {
    var i := Index(id);
    RemoveKeeps(s, id);
    PushIff(own, head, s.free, i);
  }

  /**
   Removing an id of the own side leaves words that represent some state if and only if the
   id is in use: it is neither freed already nor past the limit.
   */
  lemma RemoveRepresentsIff(s: Ids, own: seq<nat>, other: seq<nat>, head: nat, id: uint32)
    requires Represents(s, own, other, head) && s.Owns(id)
    requires Index(id) < |own| && Index(id) < 0x8000_0000
    ensures s.Binding(id).Some? ==>
              Represents(Remove(s, id), own[Index(id) := head], other, LinkWord(Index(id)))
    ensures (exists t: Ids :: t.side == s.side &&
               Represents(t, own[Index(id) := head], other, LinkWord(Index(id))))
            <==> s.Binding(id).Some?
  {
    var i := Index(id);
    if s.Binding(id).Some? {
      RemoveMeans(s, own, other, head, id);
    } else {
      forall t: Ids | t.side == s.side
        ensures !Represents(t, own[i := head], other, LinkWord(i))
      {
        RemoveBreaks(s, t, own, other, head, i);
      }
    }
  }

  lemma RemoveBreaks(s: Ids, t: Ids, own: seq<nat>, other: seq<nat>, head: nat, i: uint32)
    requires Represents(s, own, other, head) && t.side == s.side
    requires i < |own| && i < 0x8000_0000 && !s.Own()[i].Live?
    ensures !Represents(t, own[i := head], other, LinkWord(i))
  {
    if Represents(t, own[i := head], other, LinkWord(i)) {
      // the new head makes i free in t, so it is within the limit, so it was free before
      assert t.free[0] == i && i in t.free && t.Own()[i] == Free;
      assert s.Own()[i] == Free && i in s.free;
      PushIff(own, head, s.free, i);
    }
  }

  /** The state that is left when a 0 cuts the last entry off the free list: its slot is in use, empty. */
  ghost function LastLost(s: Ids): Ids
    requires s.WellFormed() && |s.free| > 1
  {
    var last := s.free[|s.free| - 1];
    assert last in s.free;
    s.WithOwn(s.Own()[last := NULL_SLOT], s.free[..|s.free| - 1])
  }

  /**
   A store of `w` at an own index within the limit, seen on the words. They represent some
   state afterwards if and only if the entry was not free, or held `w` already, or `w` is
   0 and the entry was the last but one on the free list: that store silently takes the
   last one off.
   */
  lemma StoreRepresentsIff(s: Ids, own: seq<nat>, other: seq<nat>, head: nat,
                           flags: nat, id: uint32, ptr: nat, n: WordSize)
    requires Represents(s, own, other, head) && s.Owns(id) && IsPointer(ptr, n)
    requires Index(id) < |own| && Index(id) <= MAX_OBJECTS
    ensures var i, w := Index(id), OrFlag(ptr, flags);
            (exists t: Ids :: t.side == s.side && Represents(t, own[i := w], other, head)) <==>
            CanInsertAt(s, id) || w == own[i] ||
            (w == 0 && |s.free| > 1 && i == s.free[|s.free| - 2])
    ensures Represents(InsertAt(s, flags, id, ptr, true).ids, own[Index(id) := OrFlag(ptr, flags)], other, head)
            <==> CanInsertAt(s, id)
  {
    var i, w := Index(id), OrFlag(ptr, flags);
    var own' := own[i := w];
    TagHolds(ptr, flags, n);
    InsertAtKeepsIff(s, flags, id, ptr, true);
    if CanInsertAt(s, id) {
      StoresWordMeans(s, own, other, head, flags, id, ptr, n, own', other, Success, true);
    } else if w == own[i] {
      assert own' == own;
    } else if w == 0 && |s.free| > 1 && i == s.free[|s.free| - 2] {
      CutRepresents(s, own, other, head);
    } else {
      forall t: Ids | t.side == s.side
        ensures !Represents(t, own', other, head)
      {
        StoreBreaks(s, t, own, other, head, i, w);
      }
    }
  }

  lemma CutRepresents(s: Ids, own: seq<nat>, other: seq<nat>, head: nat)
    requires Represents(s, own, other, head) && |s.free| > 1
    ensures var i := s.free[|s.free| - 2];
            i < |own| && LastLost(s).side == s.side && Represents(LastLost(s), own[i := 0], other, head)
  {
    var k := |s.free| - 1;
    var i, last, t := s.free[k - 1], s.free[k], LastLost(s);
    assert i in s.free && last in s.free;
    ThreadedAt(own, head, s.free, k);
    ThreadedCut(own, head, s.free, k - 1);
    CutWellFormed(s);
  }

  lemma CutWellFormed(s: Ids)
    requires s.WellFormed() && |s.free| > 1
    ensures LastLost(s).WellFormed() && LastLost(s).Other() == s.Other()
    ensures var last := s.free[|s.free| - 1];
            last < |s.Own()| && LastLost(s).Own() == s.Own()[last := NULL_SLOT]
  {
    var k, t := |s.free| - 1, LastLost(s);
    assert s.free[k] in s.free;
    forall x
      ensures x in t.free <==> x in s.free && x != s.free[k]
    {
      assert s.free == t.free + [s.free[k]];
      if x in t.free {
        var j :| 0 <= j < k && t.free[j] == x;
        assert s.free[j] != s.free[k];
      }
    }
  }

  lemma InUseUnlessFree(t: Ids, i: nat)
    requires t.WellFormed() && i < |t.Own()| && i <= MAX_OBJECTS && i !in t.free
    ensures t.Own()[i].Live?
  {
  }

  lemma FreedHoldsLink(own: seq<nat>, head: nat, free: seq<nat>, k: nat)
    requires Threaded(own, head, free) && k + 1 < |free|
    ensures free[k] < |own| && TaggedFree(own[free[k]])
  {
    ThreadedAt(own, head, free, k);
  }

  /** An entry freed in `s` that still holds a link cannot be in use in a state with the same word. */
  lemma LinkIsNotLive(s: Ids, t: Ids, own: seq<nat>, other: seq<nat>, head: nat, own': seq<nat>, k: nat)
    requires Represents(s, own, other, head) && k < |s.free| && s.free[k] < |own|
    requires |own'| == |own| && own'[s.free[k]] == own[s.free[k]] && TableHolds(t.Own(), own')
    requires t.WellFormed() && t.side == s.side && s.free[k] !in t.free
    ensures k == |s.free| - 1
  {
    var i := s.free[k];
    assert i in s.free;
    InUseUnlessFree(t, i);
    assert Holds(t.Own()[i], own'[i]);
    LiveReadsBack(t.Own()[i].entry, own'[i]);
    if k + 1 < |s.free| {
      FreedHoldsLink(own, head, s.free, k);
    }
  }

  /** Any other word stored into a freed entry leaves words that represent nothing. */
  lemma StoreBreaks(s: Ids, t: Ids, own: seq<nat>, other: seq<nat>, head: nat, i: nat, w: nat)
    requires Represents(s, own, other, head) && t.side == s.side
    requires i in s.free && i < |own| && w != own[i] && !TaggedFree(w)
    requires w != 0 || |s.free| < 2 || i != s.free[|s.free| - 2]
    ensures !Represents(t, own[i := w], other, head)
  {
    var k :| 0 <= k < |s.free| && s.free[k] == i;
    ThreadedAt(own, head, s.free, k);
    if Represents(t, own[i := w], other, head) {
      UntaggedEndsList(own, head, s.free, k, w, t.free);
      // i did not hold 0 before, so the list went on; the next entry is in use in t
      assert s.free[k + 1] !in t.free;
      LinkIsNotLive(s, t, own, other, head, own[i := w], k + 1);
    }
  }
}
