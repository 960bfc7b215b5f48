/**
 * Small facts about sequences that the proofs of the other modules call
 * to keep each of their steps cheap.
 */
module SeqLemmas {

  /** A non-empty sequence is its head followed by its tail. */
  lemma HeadTail<T>(s: seq<T>)
    requires s != []
    ensures s == [s[0]] + s[1..]
  {
  }

  /** A non-empty sequence is its front followed by its last entry. */
  lemma InitLast<T>(s: seq<T>)
    requires s != []
    ensures s == s[..|s| - 1] + [s[|s| - 1]]
  {
  }

  /** A sequence whose tail is a non-empty b ends as b ends, one entry longer. */
  lemma LastOfTail<T>(a: seq<T>, b: seq<T>)
    requires a != [] && a[1..] == b && b != []
    ensures a[|a| - 1] == b[|b| - 1] && |a| == |b| + 1
  {
  }

  /** Joining sequences is associative. */
  lemma ConcatAssoc<T>(a: seq<T>, b: seq<T>, c: seq<T>)
    ensures a + (b + c) == (a + b) + c
  {
  }

  lemma MultisetCons<T>(h: T, t: seq<T>)
    ensures multiset([h] + t) == multiset{h} + multiset(t)
  {
  }

  lemma MultisetSnoc<T>(s: seq<T>, x: T)
    ensures multiset(s + [x]) == multiset(s) + multiset{x}
  {
  }
}
