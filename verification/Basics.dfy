/** Shared small types. */
module Basics {

  datatype Option<+T> = None | Some(value: T)

  function Max(a: int, b: int): int { if a < b then b else a }

  predicate Distinct<T(==)>(s: seq<T>) {
    forall j, k :: 0 <= j < k < |s| ==> s[j] != s[k]
  }
}
