/**
 Any number of disjoint rings at once: every run of list operations keeps all of them.
 */
module RingSets {
  import opened Lists

  // ---------- the operations at any position of a ring ----------

  /** Two parts of a ring may change places. */
  lemma RingSwap(f: seq<Link>, g: seq<Link>)
    requires Ring(f + g) && f != []
    ensures Ring(g + f)
  {
    if g == [] {
      assert g + f == f + g;
    } else {
      RotateRing(f + g, |f|);
      assert Rotate(f + g, |f|) == g + f;
    }
  }

  method InsertAfter(list: Link, elm: Link, ghost r: seq<Link>, ghost k: nat)
    requires Ring(r) && k < |r| && r[k] == list && elm !in r
    modifies list, list.next, elm
    ensures Ring(r[..k] + [list, elm] + r[k + 1..])
  {
    RotateRing(r, k);
    ghost var f, g := [list, elm] + r[k + 1..], r[..k];
    Insert(list, elm, Rotate(r, k));
    assert InsertAfterHead(Rotate(r, k), elm) == f + g;
    RingSwap(f, g);
    assert g + f == r[..k] + [list, elm] + r[k + 1..];
  }

  method RemoveAt(elm: Link, ghost r: seq<Link>, ghost k: nat)
    requires Ring(r) && k < |r| && r[k] == elm
    modifies elm, elm.prev, elm.next
    ensures elm.prev == null && elm.next == null
    ensures |r| > 1 ==> Ring(r[..k] + r[k + 1..])
  {
    RotateRing(r, k);
    ghost var f, g := r[k + 1..], r[..k];
    Remove(elm, Rotate(r, k));
    assert Rotate(r, k)[1..] == f + g;
    if f != [] {
      RingSwap(f, g);
    } else {
      assert f + g == g + f;
    }
  }

  method SpliceAfter(list: Link, other: Link, ghost r: seq<Link>, ghost k: nat, ghost o: seq<Link>)
    requires Ring(r) && k < |r| && r[k] == list && Ring(o) && o[0] == other
    requires Apart(r, o)
    modifies list, list.next, other.next, other.prev
    ensures Ring(r[..k] + [list] + o[1..] + r[k + 1..])
    ensures |o| == 1 ==> Ring(o)
  {
    RotateRing(r, k);
    ghost var f, g := [list] + o[1..] + r[k + 1..], r[..k];
    forall i, j | 0 <= i < |r| && 0 <= j < |o|
      ensures Rotate(r, k)[i] != o[j]
    {
      assert Rotate(r, k)[i] in r && o[j] in o;
    }
    InsertList(list, other, Rotate(r, k), o);
    assert Splice(Rotate(r, k), o) == f + g;
    RingSwap(f, g);
    assert g + f == r[..k] + [list] + o[1..] + r[k + 1..];
  }

  ghost predicate Apart(r: seq<Link>, o: seq<Link>) {
    forall x :: x in r ==> x !in o
  }

  // ---------- many rings ----------

  /** Rings a program has made; an empty sequence is left where one was used up. */
  class RingSet {
    ghost var rings: seq<seq<Link>>

    ghost function Members(): set<Link>
      reads this
    {
      set a, i | 0 <= a < |rings| && 0 <= i < |rings[a]| :: rings[a][i]
    }

    ghost predicate Disjoint()
      reads this
    {
      forall a, b :: 0 <= a < |rings| && 0 <= b < |rings| && a != b ==> Apart(rings[a], rings[b])
    }

    ghost predicate Valid()
      reads this, Members()
    {
      Disjoint() && forall a :: 0 <= a < |rings| ==> rings[a] == [] || Ring(rings[a])
    }

    /** `x` is link `k` of ring `a`. */
    ghost predicate At(x: Link, a: nat, k: nat)
      reads this
    {
      a < |rings| && k < |rings[a]| && rings[a][k] == x
    }

    constructor ()
      ensures Valid() && rings == []
    {
      rings := [];
    }

    method Init(list: Link)
      requires Valid() && list !in Members()
      modifies this, list
      ensures Valid() && rings == old(rings) + [[list]]
    {
      Lists.Init(list);
      rings := rings + [[list]];
      assert forall a :: 0 <= a < |rings| - 1 ==> rings[a] == old(rings)[a];
    }

    /** Links of ring `a`, or of no ring, are in no other ring. */
    lemma Elsewhere(a: nat, xs: set<Link>)
      requires Valid() && a < |rings|
      requires forall x :: x in xs ==> x in rings[a] || x !in Members()
      ensures forall c :: 0 <= c < |rings| && c != a ==> forall x :: x in rings[c] ==> x !in xs
    {
      forall c, x | 0 <= c < |rings| && c != a && x in rings[c]
        ensures x !in xs
      {
        assert Apart(rings[a], rings[c]);
        assert x in Members();
      }
    }

    method Insert(list: Link, elm: Link, ghost a: nat, ghost k: nat)
      requires Valid() && At(list, a, k) && elm !in Members()
      modifies this, list, list.next, elm
      ensures Valid()
      ensures var r := old(rings)[a];
              rings == old(rings)[a := r[..k] + [list, elm] + r[k + 1..]]
    {
      ghost var r := rings[a];
      RingCloses(r);
      assert r[k] in r && r[After(r, k)] in r;
      Elsewhere(a, {list, list.next, elm});
      InsertAfter(list, elm, r, k);
      rings := rings[a := r[..k] + [list, elm] + r[k + 1..]];
    }

    method Remove(elm: Link, ghost a: nat, ghost k: nat)
      requires Valid() && At(elm, a, k)
      modifies this, elm, elm.prev, elm.next
      ensures Valid() && elm.prev == null && elm.next == null
      ensures var r := old(rings)[a]; rings == old(rings)[a := r[..k] + r[k + 1..]]
    {
      ghost var r := rings[a];
      RingCloses(r);
      assert r[k] in r && elm.next in r && elm.prev in r;
      Elsewhere(a, {elm, elm.next, elm.prev});
      RemoveAt(elm, r, k);
      rings := rings[a := r[..k] + r[k + 1..]];
    }

    /** Ring `b`, read from its head `other`, is used up unless it has no elements. */
    method InsertList(list: Link, other: Link, ghost a: nat, ghost k: nat, ghost b: nat)
      requires Valid() && At(list, a, k) && At(other, b, 0) && a != b
      modifies this, list, list.next, other.next, other.prev
      ensures Valid()
      ensures var r, o := old(rings)[a], old(rings)[b];
              rings == old(rings)[a := r[..k] + [list] + o[1..] + r[k + 1..]][b := if |o| == 1 then o else []]
    {
      ghost var r, o := rings[a], rings[b];
      RingCloses(r);
      RingCloses(o);
      assert r[k] in r && list.next in r && other.next in o && other.prev in o;
      Elsewhere(a, {list, list.next});
      Elsewhere(b, {other.next, other.prev});
      SpliceAfter(list, other, r, k, o);
      rings := rings[a := r[..k] + [list] + o[1..] + r[k + 1..]][b := if |o| == 1 then o else []];
    }
  }
}
