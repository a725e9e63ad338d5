/**
 wl_map_for_each: what an iteration over the words of a map shows, and at which ids.
 */
module Iteration {
  import opened Words
  import opened FreeList
  import opened IdMap
  import opened MapWords

  /** `entry.data && !map_entry_is_free(entry)` */
  predicate Visible(w: nat) {
    w != 0 && !TaggedFree(w)
  }

  /** A slot that an iteration shows: it holds a pointer or a flag. */
  predicate Shown(slot: Slot) {
    slot.Live? && slot.entry != Entry(0, 0)
  }

  predicate Sees(slot: Slot, w: nat) {
    (Visible(w) <==> Shown(slot)) &&
    (Visible(w) ==> slot.entry == Entry(PointerOf(w), FlagOf(w)))
  }

  ghost predicate SeesShown(slots: seq<Slot>, words: seq<nat>) {
    |slots| == |words| && forall i :: 0 <= i < |slots| ==> Sees(slots[i], words[i])
  }

  /** A live slot is seen as it is, whatever its pointer and flag. */
  lemma LiveIsSeen(e: Entry, w: nat)
    requires Holds(Live(e), w)
    ensures Sees(Live(e), w)
  {
    LiveReadsBack(e, w);
  }

  lemma FreedIsNotSeen(own: seq<nat>, head: nat, free: seq<nat>, i: nat)
    requires Threaded(own, head, free) && i in free
    ensures i < |own| && !Visible(own[i])
  {
    var k :| 0 <= k < |free| && free[k] == i;
    ThreadedAt(own, head, free, k);
  }

  /** An iteration sees in the words just what the slots show. */
  lemma {:induction false} VisibleIffShown(s: Ids, own: seq<nat>, other: seq<nat>, head: nat)
    requires Represents(s, own, other, head)
    ensures |s.Own()| == |own| && forall i :: 0 <= i < |own| ==> Sees(s.Own()[i], own[i])
    ensures |s.Other()| == |other| && forall i :: 0 <= i < |other| ==> Sees(s.Other()[i], other[i])
  {
    forall i | 0 <= i < |own|
      ensures Sees(s.Own()[i], own[i])
    {
      assert Holds(s.Own()[i], own[i]);
      match s.Own()[i]
      case Free => FreedIsNotSeen(own, head, s.free, i);
      case Live(e) => LiveIsSeen(e, own[i]);
      case Wasted =>
    }
    forall i | 0 <= i < |other|
      ensures Sees(s.Other()[i], other[i])
    {
      assert Holds(s.Other()[i], other[i]);
      LiveIsSeen(s.Other()[i].entry, other[i]);
    }
  }

  /** What an iteration over a table shows from index `from` on. */
  function ShownEntries(slots: seq<Slot>, from: nat): seq<Entry>
    decreases |slots| - from
  {
    if from >= |slots| then []
    else if Shown(slots[from]) then [slots[from].entry] + ShownEntries(slots, from + 1)
    else ShownEntries(slots, from + 1)
  }

  /** Calls `func` on the entries in turn until it does not say CONTINUE. */
  function Fold<S>(es: seq<Entry>, func: (Entry, S) -> (S, bool), data: S): (S, bool)
    decreases |es|
  {
    if es == [] then (data, true) else
      var r := func(es[0], data);
      if r.1 then Fold(es[1..], func, r.0) else r
  }

  /** One turn of the iteration. */
  lemma FoldStep<S>(slots: seq<Slot>, idx: nat, func: (Entry, S) -> (S, bool), data: S)
    requires idx < |slots|
    ensures var r := if Shown(slots[idx]) then func(slots[idx].entry, data) else (data, true);
            Fold(ShownEntries(slots, idx), func, data) ==
            if r.1 then Fold(ShownEntries(slots, idx + 1), func, r.0) else r
  {
    var rest := ShownEntries(slots, idx + 1);
    if Shown(slots[idx]) {
      assert ([slots[idx].entry] + rest)[1..] == rest;
    }
  }

  lemma {:induction false} FoldSplit<S>(a: seq<Entry>, b: seq<Entry>,
                                        func: (Entry, S) -> (S, bool), data: S)
    ensures var r := Fold(a, func, data);
            Fold(a + b, func, data) == if r.1 then Fold(b, func, r.0) else r
    decreases |a|
  {
    if a == [] {
      assert a + b == b;
    } else {
      assert (a + b)[1..] == a[1..] + b;
      FoldSplit(a[1..], b, func, func(a[0], data).0);
    }
  }

  /** The indices an iteration shows from index `from` on. */
  function ShownIndices(slots: seq<Slot>, from: nat): seq<nat>
    decreases |slots| - from
  {
    if from >= |slots| then []
    else if Shown(slots[from]) then [from] + ShownIndices(slots, from + 1)
    else ShownIndices(slots, from + 1)
  }

  /** A slot is shown once if it holds something, and else not at all. */
  lemma {:induction false} ShownOnce(slots: seq<Slot>, from: nat, i: nat)
    ensures multiset(ShownIndices(slots, from))[i] ==
            if from <= i < |slots| && Shown(slots[i]) then 1 else 0
    decreases |slots| - from
  {
    if from < |slots| {
      ShownOnce(slots, from + 1, i);
    }
  }

  lemma {:induction false} ShownLengths(slots: seq<Slot>, from: nat)
    ensures |ShownIndices(slots, from)| == |ShownEntries(slots, from)|
    decreases |slots| - from
  {
    if from < |slots| {
      ShownLengths(slots, from + 1);
    }
  }

  /** Entries are shown in index order, and only those of slots that hold something. */
  lemma {:induction false} ShownInOrder(slots: seq<Slot>, from: nat, j: nat)
    requires j < |ShownEntries(slots, from)|
    ensures j < |ShownIndices(slots, from)|
    ensures var ks := ShownIndices(slots, from);
            from <= ks[j] < |slots| && Shown(slots[ks[j]]) &&
            slots[ks[j]].entry == ShownEntries(slots, from)[j] &&
            (j > 0 ==> ks[j - 1] < ks[j])
    decreases |slots| - from
  {
    ShownLengths(slots, from);
    if !Shown(slots[from]) {
      ShownInOrder(slots, from + 1, j);
    } else if j > 0 {
      ShownInOrder(slots, from + 1, j - 1);
    }
  }

  lemma {:induction false} ShownAscending(slots: seq<Slot>, j: nat, k: nat)
    requires j < k < |ShownIndices(slots, 0)|
    ensures ShownIndices(slots, 0)[j] < ShownIndices(slots, 0)[k]
    decreases k
  {
    ShownLengths(slots, 0);
    ShownInOrder(slots, 0, k);
    if j < k - 1 {
      ShownAscending(slots, j, k - 1);
    }
  }

  /** An id is shown if and only if looking it up gives a pointer or a flag. */
  lemma ShownIffLookedUp(s: Ids, id: uint32)
    ensures Index(id) < |s.Table(id)| && Shown(s.Table(id)[Index(id)]) <==>
            Lookup(s, id) != 0 || LookupFlags(s, id) != 0
  {
  }

  function FromBase(ks: seq<nat>, base: nat): (ids: seq<nat>)
    ensures |ids| == |ks| && forall j :: 0 <= j < |ks| ==> ids[j] == base + ks[j]
  {
    seq(|ks|, j requires 0 <= j < |ks| => base + ks[j])
  }

  /** The ids whose entries an iteration over a map shows, in the order it shows them. */
  function VisitedIds(s: Ids): seq<nat> {
    ShownIndices(s.client, 0) + FromBase(ShownIndices(s.server, 0), SERVER_ID_START)
  }

  function VisitedEntries(s: Ids): seq<Entry> {
    ShownEntries(s.client, 0) + ShownEntries(s.server, 0)
  }

  /** What is shown lies within the limit, so its index makes an id. */
  lemma ShownWithinLimit(s: Ids, i: nat)
    requires s.WellFormed()
    ensures i < |s.client| && Shown(s.client[i]) ==> i <= MAX_OBJECTS
    ensures i < |s.server| && Shown(s.server[i]) ==> i <= MAX_OBJECTS
  {
    assert i < |s.Own()| && s.Own()[i].Live? ==> i <= MAX_OBJECTS;
  }

  /** Each visited id is bound to the entry shown for it. */
  lemma VisitedIsBound(s: Ids, j: nat)
    requires s.WellFormed() && j < |VisitedEntries(s)|
    ensures |VisitedIds(s)| == |VisitedEntries(s)| && VisitedIds(s)[j] < 0x1_0000_0000
    ensures s.Binding(VisitedIds(s)[j]) == Some(VisitedEntries(s)[j])
    ensures IsClientId(VisitedIds(s)[j]) <==> j < |ShownEntries(s.client, 0)|
  {
    ShownLengths(s.client, 0);
    ShownLengths(s.server, 0);
    var c := |ShownEntries(s.client, 0)|;
    if j < c {
      ShownInOrder(s.client, 0, j);
      ShownWithinLimit(s, ShownIndices(s.client, 0)[j]);
    } else {
      ShownInOrder(s.server, 0, j - c);
      ShownWithinLimit(s, ShownIndices(s.server, 0)[j - c]);
    }
  }

  lemma VisitedAscending(s: Ids, j: nat, k: nat)
    requires s.WellFormed() && j < k < |VisitedIds(s)|
    ensures VisitedIds(s)[j] < VisitedIds(s)[k]
  {
    ShownLengths(s.client, 0);
    ShownLengths(s.server, 0);
    var c := |ShownIndices(s.client, 0)|;
    if k < c {
      ShownAscending(s.client, j, k);
    } else if j >= c {
      ShownAscending(s.server, j - c, k - c);
    } else {
      VisitedIsBound(s, j);
    }
  }

  lemma VisitedIsShown(s: Ids, id: uint32)
    requires s.WellFormed() && id in VisitedIds(s)
    ensures Index(id) < |s.Table(id)| && Shown(s.Table(id)[Index(id)])
  {
    ShownLengths(s.client, 0);
    ShownLengths(s.server, 0);
    var j :| 0 <= j < |VisitedIds(s)| && VisitedIds(s)[j] == id;
    var c := |ShownIndices(s.client, 0)|;
    VisitedIsBound(s, j);
    if j < c {
      ShownInOrder(s.client, 0, j);
    } else {
      ShownInOrder(s.server, 0, j - c);
    }
  }

  lemma ShownIsVisited(s: Ids, id: uint32)
    requires Index(id) < |s.Table(id)| && Shown(s.Table(id)[Index(id)])
    ensures id in VisitedIds(s)
  {
    ShownOnce(s.Table(id), 0, Index(id));
    var ks := ShownIndices(s.Table(id), 0);
    var j :| 0 <= j < |ks| && ks[j] == Index(id);
    assert VisitedIds(s)[if IsClientId(id) then j else |ShownIndices(s.client, 0)| + j] == id;
  }

  lemma VisitedIffLookedUp(s: Ids, id: uint32)
    requires s.WellFormed()
    ensures id in VisitedIds(s) <==> Lookup(s, id) != 0 || LookupFlags(s, id) != 0
  {
    ShownIffLookedUp(s, id);
    if id in VisitedIds(s) {
      VisitedIsShown(s, id);
    } else if Index(id) < |s.Table(id)| && Shown(s.Table(id)[Index(id)]) {
      ShownIsVisited(s, id);
    }
  }

  /**
   An iteration that is not stopped visits exactly the ids whose lookup gives a pointer or
   a flag, each once and in ascending order, and shows what each is bound to.
   */
  lemma IterationVisits(s: Ids)
    requires s.WellFormed()
    ensures var ids, es := VisitedIds(s), VisitedEntries(s);
            |ids| == |es| &&
            (forall j :: 0 <= j < |ids| ==> ids[j] < 0x1_0000_0000 && s.Binding(ids[j]) == Some(es[j])) &&
            (forall j, k :: 0 <= j < k < |ids| ==> ids[j] < ids[k])
    ensures forall id: uint32 ::
              id in VisitedIds(s) <==> Lookup(s, id) != 0 || LookupFlags(s, id) != 0
  {
    ShownLengths(s.client, 0);
    ShownLengths(s.server, 0);
    var ids, es := VisitedIds(s), VisitedEntries(s);
    forall j | 0 <= j < |ids|
      ensures ids[j] < 0x1_0000_0000 && s.Binding(ids[j]) == Some(es[j])
    {
      VisitedIsBound(s, j);
    }
    forall j, k | 0 <= j < k < |ids|
      ensures ids[j] < ids[k]
    {
      VisitedAscending(s, j, k);
    }
    forall id: uint32
      ensures id in ids <==> Lookup(s, id) != 0 || LookupFlags(s, id) != 0
    {
      VisitedIffLookedUp(s, id);
    }
  }

  /** The data after calling `func` on every entry, whatever it answers. */
  function Through<S>(es: seq<Entry>, func: (Entry, S) -> (S, bool), data: S): S
    decreases |es|
  {
    if es == [] then data else Through(es[1..], func, func(es[0], data).0)
  }

  /** `func` answers CONTINUE on each of the entries, called in turn. */
  predicate AllContinue<S>(es: seq<Entry>, func: (Entry, S) -> (S, bool), data: S)
    decreases |es|
  {
    es == [] || (func(es[0], data).1 && AllContinue(es[1..], func, func(es[0], data).0))
  }

  /**
   An iteration calls `func` on a prefix of the entries: on all of them if it always
   answers CONTINUE, else up to and including the first entry where it does not.
   */
  lemma {:induction false} FoldCallsPrefix<S>(es: seq<Entry>, func: (Entry, S) -> (S, bool), data: S)
    returns (k: nat)
    ensures k <= |es| && Fold(es, func, data).0 == Through(es[..k], func, data)
    ensures Fold(es, func, data).1 ==> k == |es| && AllContinue(es, func, data)
    ensures !Fold(es, func, data).1 ==>
              k > 0 && AllContinue(es[..k - 1], func, data) && !AllContinue(es[..k], func, data)
    decreases |es|
  {
    if es == [] {
      k := 0;
    } else if !func(es[0], data).1 {
      k := 1;
      assert es[..1][1..] == [];
    } else {
      var j := FoldCallsPrefix(es[1..], func, func(es[0], data).0);
      k := j + 1;
      assert es[..k][1..] == es[1..][..j];
      if !Fold(es, func, data).1 {
        assert es[..k - 1][1..] == es[1..][..j - 1];
      }
    }
  }
}
