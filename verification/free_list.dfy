/**
 The free list of a map: a stack threaded through the freed entries themselves.

 The head is the 32-bit word `free_list`; a freed entry holds the head as it was when the
 entry was freed. Zero ends the list, so the entry freed first does not carry the free bit.
 */
module FreeList {
  import opened Sequences
  import opened Words

  const MAX_OBJECTS: nat := 0x00f0_0000

  /** The link to index `i`; it is the word the code stores as long as the shift fits. */
  function Link(i: nat): (r: nat)
    ensures i < 0x8000_0000 ==> r == LinkWord(i)
  {
    2 * i + 1
  }

  /** The word that names the first index of `free`. */
  function Head(free: seq<nat>): nat {
    if free == [] then 0 else Link(free[0])
  }

  /** Following the links in `words` from `head` visits exactly `free`, in order, and ends. */
  ghost predicate Threaded(words: seq<nat>, head: nat, free: seq<nat>)
    decreases |free|
  {
    head == Head(free) &&
    (free != [] ==> free[0] < |words| && Threaded(words, words[free[0]], free[1..]))
  }

  /** The chain from `head` ends. */
  ghost predicate Ends(words: seq<nat>, head: nat) {
    exists free :: Threaded(words, head, free)
  }

  /** The words and the head alone determine the list. */
  lemma {:induction false} ThreadedUnique(words: seq<nat>, head: nat, f: seq<nat>, g: seq<nat>)
    requires Threaded(words, head, f) && Threaded(words, head, g)
    ensures f == g
    decreases |f|
  {
    if f != [] {
      ThreadedUnique(words, words[f[0]], f[1..], g[1..]);
      assert f == [f[0]] + f[1..] && g == [g[0]] + g[1..];
    }
  }

  /** What each freed entry holds: a tagged link, except the last, which holds 0. */
  lemma {:induction false} ThreadedAt(words: seq<nat>, head: nat, free: seq<nat>, k: nat)
    requires Threaded(words, head, free) && k < |free|
    ensures free[k] < |words| && words[free[k]] == Head(free[k + 1..])
    ensures Threaded(words, words[free[k]], free[k + 1..])
    decreases k
  {
    if k > 0 {
      ThreadedAt(words, words[free[0]], free[1..], k - 1);
      assert free[1..][k..] == free[k + 1..];
    }
  }

  /** A list that ends cannot visit an entry twice. */
  lemma ThreadedDistinct(words: seq<nat>, head: nat, free: seq<nat>)
    requires Threaded(words, head, free)
    ensures Distinct(free)
  {
    forall j, k | 0 <= j < k < |free|
      ensures free[j] != free[k]
    {
      ThreadedAt(words, head, free, j);
      ThreadedAt(words, head, free, k);
      if free[j] == free[k] {
        ThreadedUnique(words, words[free[j]], free[j + 1..], free[k + 1..]);
      }
    }
  }

  /** Entries off the list may change freely, and the array may grow. */
  lemma {:induction false} ThreadedFrame(words: seq<nat>, words': seq<nat>, head: nat, free: seq<nat>)
    requires Threaded(words, head, free)
    requires forall k :: 0 <= k < |free| && free[k] < |words| ==>
               free[k] < |words'| && words'[free[k]] == words[free[k]]
    ensures Threaded(words', head, free)
    decreases |free|
  {
    if free != [] {
      ThreadedFrame(words, words', words[free[0]], free[1..]);
    }
  }

  /**
   Freeing index `i` keeps the list finite if and only if `i` was not already free:
   a double remove closes a cycle, whatever is on the list. (The link is a 32-bit word;
   see LinkRoundTrip for the indices it cannot name.)
   */
  lemma PushIff(words: seq<nat>, head: nat, free: seq<nat>, i: uint32)
    requires Threaded(words, head, free) && i < |words| && i < 0x8000_0000
    ensures i !in free ==> Threaded(words[i := head], LinkWord(i), [i] + free)
    ensures Ends(words[i := head], LinkWord(i)) <==> i !in free
  {
    var words' := words[i := head];
    if i !in free {
      ThreadedFrame(words, words', head, free);
      assert ([i] + free)[1..] == free;
      assert Threaded(words', Link(i), [i] + free);
    } else {
      forall g
        ensures !Threaded(words', Link(i), g)
      {
        CycleHasNoEnd(words, words', head, free, i, g);
      }
    }
  }

  lemma {:induction false} CycleHasNoEnd(words: seq<nat>, words': seq<nat>, head: nat,
                                         free: seq<nat>, i: nat, g: seq<nat>)
    requires Threaded(words, head, free) && i < |words| && i in free
    requires words' == words[i := head]
    ensures !Threaded(words', Link(i), g)
  {
    FirstOccurrence(free, i);
    var k :| 0 <= k < |free| && free[k] == i && i !in free[..k];
    if Threaded(words', Link(i), g) {
      // after i the chain runs through the old list, which leads back to i
      FollowsOldList(words, words', head, free, k, g[1..]);
      ThreadedUnique(words', Link(i), g, g[1..][k..]);
    }
  }

  lemma {:induction false} FirstOccurrence(s: seq<nat>, i: nat)
    requires i in s
    ensures exists k :: 0 <= k < |s| && s[k] == i && i !in s[..k]
  {
    if s[0] == i {
      assert s[0] == i && i !in s[..0];
    } else {
      FirstOccurrence(s[1..], i);
      var k :| 0 <= k < |s| - 1 && s[1..][k] == i && i !in s[1..][..k];
      assert s[k + 1] == i;
      assert s[..k + 1] == [s[0]] + s[1..][..k];
    }
  }

  lemma {:induction false} FollowsOldList(words: seq<nat>, words': seq<nat>, head: nat,
                                          free: seq<nat>, k: nat, g: seq<nat>)
    requires Threaded(words, head, free) && k < |free| && free[k] !in free[..k]
    requires |words'| == |words| && forall i :: 0 <= i < |words| && i != free[k] ==> words'[i] == words[i]
    requires Threaded(words', head, g)
    ensures k < |g| && Threaded(words', Link(free[k]), g[k..])
    ensures g[..k + 1] == free[..k + 1]
    decreases k
  {
    if k > 0 {
      assert free[0] in free[..k];
      assert g[0] == free[0];
      assert forall x :: x in free[1..][..k - 1] ==> x in free[..k];
      FollowsOldList(words, words', words[free[0]], free[1..], k - 1, g[1..]);
      assert g[1..][k - 1..] == g[k..];
      assert g[..k + 1] == [g[0]] + g[1..][..k] && free[..k + 1] == [free[0]] + free[1..][..k];
    } else {
      assert g[0..] == g;
    }
  }

  /** An untagged word stored in an entry of the list ends it there, if it can be a list at all. */
  lemma UntaggedEndsList(words: seq<nat>, head: nat, free: seq<nat>, k: nat, w: nat, g: seq<nat>)
    requires Threaded(words, head, free) && k < |free| && free[k] < |words| && !TaggedFree(w)
    requires Threaded(words[free[k] := w], head, g)
    ensures w == 0 && g == free[..k + 1]
  {
    ThreadedDistinct(words, head, free);
    FollowsOldList(words, words[free[k] := w], head, free, k, g);
    assert g[k..][1..] == g[k + 1..];
    assert w == Head(g[k + 1..]);
  }

  /** A 0 stored in the entry at position `k` of the list ends the list there. */
  lemma {:induction false} ThreadedCut(words: seq<nat>, head: nat, free: seq<nat>, k: nat)
    requires Threaded(words, head, free) && Distinct(free) && k < |free|
    ensures free[k] < |words| && Threaded(words[free[k] := 0], head, free[..k + 1])
    decreases k
  {
    if k > 0 {
      ThreadedCut(words, words[free[0]], free[1..], k - 1);
      assert free[..k + 1][1..] == free[1..][..k];
    } else {
      assert free[..1][1..] == [];
    }
  }
}
