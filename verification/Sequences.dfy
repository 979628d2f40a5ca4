module Sequences {
  /** No element occurs twice. */
  predicate NoRepeat<T(==)>(s: seq<T>) {
    forall x, y :: 0 <= x < y < |s| ==> s[x] != s[y]
  }
}
