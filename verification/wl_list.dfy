/**
 wl_list: an intrusive circular list of links.

 A ring is described by the sequence of its links starting at any of them; the program
 usually starts at a sentinel head and calls the rest the elements.
 */
module Lists {
  import opened Sequences

  class Link {
    var prev: Link?
    var next: Link?

    constructor ()
      ensures prev == null && next == null
    {
      prev, next := null, null;
    }
  }

  predicate Linked(a: Link, b: Link)
    reads a, b
  {
    a.next == b && b.prev == a
  }

  function After<T>(r: seq<T>, i: nat): nat {
    if i + 1 < |r| then i + 1 else 0
  }

  predicate Ring(r: seq<Link>)
    reads r
  {
    |r| > 0 && Distinct(r) && forall i :: 0 <= i < |r| ==> Linked(r[i], r[After(r, i)])
  }

  function Rotate<T>(r: seq<T>, k: nat): (q: seq<T>)
    requires k <= |r|
    ensures |q| == |r|
  {
    r[k..] + r[..k]
  }

  /** A ring may be read from any of its links. */
  lemma RotateRing(r: seq<Link>, k: nat)
    requires Ring(r) && k < |r|
    ensures Ring(Rotate(r, k))
  {
    var q := Rotate(r, k);
    forall i | 0 <= i < |q|
      ensures Linked(q[i], q[After(q, i)])
    {
      var j := if i < |r| - k then k + i else i - (|r| - k);
      assert q[i] == r[j];
      assert q[After(q, i)] == r[After(r, j)];
    }
  }

  /** Rotating forth and back. */
  lemma RotateBack<T>(r: seq<T>, k: nat)
    requires k <= |r|
    ensures Rotate(Rotate(r, k), |r| - k) == r
  {
  }

  /** The links leave no choice: a ring read from a given link is one sequence. */
  lemma RingUnique(r: seq<Link>, q: seq<Link>)
    requires Ring(r) && Ring(q) && r[0] == q[0]
    ensures r == q
  {
    if |r| <= |q| {
      SamePrefix(r, q, |r| - 1);
    } else {
      SamePrefix(q, r, |q| - 1);
    }
  }

  lemma {:induction false} SamePrefix(r: seq<Link>, q: seq<Link>, k: nat)
    requires Ring(r) && Ring(q) && r[0] == q[0] && k < |r| <= |q|
    ensures forall i :: 0 <= i <= k ==> r[i] == q[i]
    ensures k == |r| - 1 ==> |r| == |q|
  {
    if k > 0 {
      SamePrefix(r, q, k - 1);
      assert Linked(r[k - 1], r[After(r, k - 1)]) && Linked(q[k - 1], q[After(q, k - 1)]);
    }
    assert Linked(r[k], r[After(r, k)]) && Linked(q[k], q[After(q, k)]);
  }

  /** The ring with `elm` put right after its first link. */
  function InsertAfterHead<T>(r: seq<T>, elm: T): (q: seq<T>)
    requires |r| > 0
    ensures |q| == |r| + 1 && q[0] == r[0]
  {
    [r[0], elm] + r[1..]
  }

  /** The ring with all elements of ring `o` put right after its first link. */
  function Splice<T>(r: seq<T>, o: seq<T>): (q: seq<T>)
    requires |r| > 0 && |o| > 0
    ensures |q| - 1 == (|r| - 1) + (|o| - 1)
  {
    [r[0]] + o[1..] + r[1..]
  }

  function InsertBackwards<T>(r: seq<T>, es: seq<T>): (q: seq<T>)
    requires |r| > 0
    ensures |q| > 0
  {
    if es == [] then r else InsertAfterHead(InsertBackwards(r, es[1..]), es[0])
  }

  /** Splicing a list in is inserting its elements one by one, the last one first. */
  lemma {:induction false} SpliceIsInsertions<T>(r: seq<T>, o: seq<T>)
    requires |r| > 0 && |o| > 0
    ensures Splice(r, o) == InsertBackwards(r, o[1..])
    decreases |o|
  {
    if |o| == 1 {
      assert Splice(r, o) == r;
    } else {
      SpliceIsInsertions(r, o[1..]);
      assert o[1..] == [o[1]] + o[2..] && o[1..][1..] == o[2..];
    }
  }

  /** wl_list_init */
  method Init(list: Link)
    modifies list
    ensures Ring([list])
  {
    list.prev := list;
    list.next := list;
  }

  /** wl_list_insert: `r` is the ring read from `list`. */
  method Insert(list: Link, elm: Link, ghost r: seq<Link>)
    requires Ring(r) && r[0] == list && elm !in r
    modifies list, list.next, elm
    ensures Ring(InsertAfterHead(r, elm))
  {
    ghost var q := InsertAfterHead(r, elm);
    assert Linked(r[0], r[After(r, 0)]);
    elm.prev := list;
    elm.next := list.next;
    list.next := elm;
    elm.next.prev := elm;
    forall i | 0 <= i < |q|
      ensures Linked(q[i], q[After(q, i)])
    {
      if i >= 2 {
        assert old(Linked(r[i - 1], r[After(r, i - 1)]));
      }
    }
  }

  /** wl_list_remove: `r` is the ring read from `elm`; an element alone leaves nothing. */
  method Remove(elm: Link, ghost r: seq<Link>)
    requires Ring(r) && r[0] == elm
    modifies elm, elm.prev, elm.next
    ensures elm.prev == null && elm.next == null
    ensures |r| > 1 ==> Ring(r[1..])
  {
    ghost var q := r[1..];
    ghost var last := |r| - 1;
    assert Linked(r[0], r[After(r, 0)]) && Linked(r[last], r[After(r, last)]);
    elm.prev.next := elm.next;
    elm.next.prev := elm.prev;
    elm.next := null;
    elm.prev := null;
    forall i | 0 <= i < |q|
      ensures Linked(q[i], q[After(q, i)])
    {
      assert old(Linked(r[i + 1], r[After(r, i + 1)]));
    }
  }

  /** wl_list_length, for rings whose length an int can hold. */
  method Length(list: Link, ghost r: seq<Link>) returns (count: int)
    requires Ring(r) && r[0] == list && |r| <= 0x8000_0000
    ensures count == |r| - 1
  {
    count := 0;
    assert Linked(r[0], r[After(r, 0)]);
    var e := list.next;
    while e != list
      invariant 0 <= count < |r| && e == r[After(r, count)]
      decreases |r| - count
    {
      assert Linked(r[count + 1], r[After(r, count + 1)]);
      e := e.next;
      count := count + 1;
    }
  }

  /** wl_list_empty */
  method Empty(list: Link, ghost r: seq<Link>) returns (empty: bool)
    requires Ring(r) && r[0] == list
    ensures empty <==> |r| == 1
  {
    assert Linked(r[0], r[After(r, 0)]);
    return list.next == list;
  }

  /** wl_list_insert_list: the elements of ring `o`, not its head, go after `list`. */
  method InsertList(list: Link, other: Link, ghost r: seq<Link>, ghost o: seq<Link>)
    requires Ring(r) && r[0] == list && Ring(o) && o[0] == other
    requires forall i, j :: 0 <= i < |r| && 0 <= j < |o| ==> r[i] != o[j]
    modifies list, list.next, other.next, other.prev
    ensures Ring(Splice(r, o))
    ensures other.next == old(other.next) && other.prev == old(other.prev)
  {
    var empty := Empty(other, o);
    ghost var q := Splice(r, o);
    if empty {
      assert q == r;
      return;
    }
    ghost var m, l := |o| - 1, |r| - 1;
    assert Linked(o[0], o[After(o, 0)]) && Linked(o[m], o[After(o, m)]);
    assert Linked(r[0], r[After(r, 0)]);
    other.next.prev := list;
    other.prev.next := list.next;
    list.next.prev := other.prev;
    list.next := other.next;
    assert Distinct(q);
    forall i | 0 <= i < |q|
      ensures Linked(q[i], q[After(q, i)])
    {
      if 1 <= i <= m {
        assert old(Linked(o[i], o[After(o, i)]));
      } else if i > m {
        assert old(Linked(r[i - m], r[After(r, i - m)]));
      }
    }
  }

  /**
   The elements of `o`, not its first link, inserted one by one, last first. The outcome is
   the ring that a splice makes.
   */
  method InsertOneByOne(list: Link, o: seq<Link>, ghost r: seq<Link>)
    requires Ring(r) && r[0] == list && |o| > 0 && Distinct(o)
    requires forall i, j :: 0 <= i < |r| && 0 < j < |o| ==> r[i] != o[j]
    modifies r, o[1..]
    ensures Ring(Splice(r, o))
    decreases |o|
  {
    if |o| == 1 {
      assert Splice(r, o) == r;
    } else {
      InsertOneByOne(list, o[1..], r);
      ghost var q := Splice(r, o[1..]);
      assert Linked(q[0], q[After(q, 0)]) && q[After(q, 0)] in r + o[1..];
      Insert(list, o[1], q);
      assert InsertAfterHead(q, o[1]) == Splice(r, o);
    }
  }

  /** Removing what was just inserted restores every link of the ring. */
  method InsertThenRemove(list: Link, elm: Link, ghost r: seq<Link>)
    requires Ring(r) && r[0] == list && elm !in r
    modifies r, elm
    ensures Ring(r) && forall x :: x in r ==> x.next == old(x.next) && x.prev == old(x.prev)
  {
    ghost var q := InsertAfterHead(r, elm);
    assert Linked(r[0], r[After(r, 0)]);
    Insert(list, elm, r);
    RotateRing(q, 1);
    ghost var t := Rotate(q, 1);
    RingLinks(t);
    assert t[|t| - 1] == list && t[After(t, 0)] in r && t[1..] == Rotate(r, 1);
    Remove(elm, t);
    RotateRing(Rotate(r, 1), |r| - 1);
    RotateBack(r, 1);
    SameRingSameLinks(r);
  }

  /** A ring that is the same sequence in two states has the same links in both. */
  twostate lemma SameRingSameLinks(r: seq<Link>)
    requires old(Ring(r)) && Ring(r)
    ensures forall x :: x in r ==> x.next == old(x.next) && x.prev == old(x.prev)
  {
    forall x | x in r
      ensures x.next == old(x.next) && x.prev == old(x.prev)
    {
      var i :| 0 <= i < |r| && r[i] == x;
      var j := if i == 0 then |r| - 1 else i - 1;
      assert Linked(r[i], r[After(r, i)]) && Linked(r[j], r[After(r, j)]);
      assert old(Linked(r[i], r[After(r, i)])) && old(Linked(r[j], r[After(r, j)]));
    }
  }

  /** Where the links of a ring's members lead. */
  lemma RingLinks(r: seq<Link>)
    requires Ring(r)
    ensures forall i :: 0 <= i < |r| ==> r[i].next == r[After(r, i)]
    ensures forall i :: 0 <= i < |r| ==> r[i].prev == r[if i == 0 then |r| - 1 else i - 1]
  {
    forall i | 0 <= i < |r|
      ensures r[i].next == r[After(r, i)]
      ensures r[i].prev == r[if i == 0 then |r| - 1 else i - 1]
    {
      var j := if i == 0 then |r| - 1 else i - 1;
      assert Linked(r[i], r[After(r, i)]) && Linked(r[j], r[After(r, j)]);
    }
  }

  lemma RingCloses(r: seq<Link>)
    requires Ring(r)
    ensures forall x :: x in r ==> x.next in r && x.prev in r
  {
    RingLinks(r);
    forall x | x in r
      ensures x.next in r && x.prev in r
    {
      var i :| 0 <= i < |r| && r[i] == x;
      var j := if i == 0 then |r| - 1 else i - 1;
      assert r[i].next == r[After(r, i)] && r[i].prev == r[j];
    }
  }

  /** The worked example of the list's documentation. */
  method Example(list: Link, e1: Link, e2: Link, e3: Link)
    requires list != e1 && list != e2 && list != e3 && e1 != e2 && e1 != e3 && e2 != e3
    modifies list, e1, e2, e3
    ensures Ring([list, e2, e3, e1])
  {
    Init(list);
    assert Linked([list][0], [list][After([list], 0)]);
    Insert(list, e1, [list]);
    ghost var r1 := [list, e1];
    assert InsertAfterHead([list], e1) == r1;
    RingLinks(r1);
    assert r1[After(r1, 0)] == e1;
    Insert(list, e2, r1);
    ghost var r2 := [e2, e1, list];
    RotateRing(InsertAfterHead(r1, e2), 1);
    assert Rotate(InsertAfterHead(r1, e2), 1) == r2;
    RingLinks(r2);
    assert r2[After(r2, 0)] == e1;
    Insert(e2, e3, r2);
    ghost var r3 := InsertAfterHead(r2, e3);
    assert r3 == [e2, e3, e1, list];
    RotateRing(r3, 3);
    assert Rotate(r3, 3) == [list, e2, e3, e1];
  }
}
