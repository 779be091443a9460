/** Facts about multisets of sequences used by several modules. */
module Multisets {
  /** A duplicate-free sequence holds each of its elements exactly once. */
  lemma {:induction false} DistinctMultiplicity<T>(s: seq<T>, x: T)
    requires forall p, q :: 0 <= p < q < |s| ==> s[p] != s[q]
    ensures multiset(s)[x] == if x in s then 1 else 0
  {
    if s != [] {
      var s' := s[..|s| - 1];
      assert s == s' + [s[|s| - 1]];
      DistinctMultiplicity(s', x);
    }
  }

  /** Two multisets with the same multiplicities are equal. */
  lemma MultisetExtensionality<T>(m: multiset<T>, m': multiset<T>)
    requires forall u :: m[u] == m'[u]
    ensures m == m'
  {
  }

  /** Cancelling a common part of two unions. */
  lemma MultisetCancel<T>(m1: multiset<T>, m2: multiset<T>, k: multiset<T>)
    requires m1 + k == m2 + k || k + m1 == k + m2
    ensures m1 == m2
  {
    forall y ensures m1[y] == m2[y] {
      assert (m1 + k)[y] == (m2 + k)[y] || (k + m1)[y] == (k + m2)[y];
    }
  }
}
