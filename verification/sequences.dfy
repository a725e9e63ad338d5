/**
 Facts about sequences of any kind.
 */
module Sequences {

  predicate Distinct<T(==)>(s: seq<T>) {
    forall j, k :: 0 <= j < k < |s| ==> s[j] != s[k]
  }

  /** A sequence that grew by one, with that one set, is the old one and the new last. */
  lemma SetLast<T>(s: seq<T>, t: seq<T>, w: T)
    ensures |t| == |s| + 1 && t[..|s|] == s ==> t[|s| := w] == s + [w]
  {
  }
}
