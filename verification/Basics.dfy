/** What several models share. */
module Basics {
  /** Time as a count of nanoseconds; 0 is the zero time, which means "not set". */
  type Time = int

  const ZERO_TIME: Time := 0

  datatype Option<+T> = None | Some(value: T)

  ghost predicate Distinct<T>(s: seq<T>) {
    forall i, j :: 0 <= i < j < |s| ==> s[i] != s[j]
  }

  lemma SubsetIsNoLarger<T>(a: set<T>, b: set<T>)
    requires a <= b
    ensures |a| <= |b|
  {
    assert b == a + (b - a);
  }
}
