/** What several components share. */
module Basics {
  datatype Option<+T> = None | Some(value: T)

  /** The hash of a block. */
  type Hash(==, !new)

  type byte = x: int | 0 <= x < 256

  function Max(x: nat, y: nat): (m: nat)
  {
    if x > y then x else y
  }

  ghost predicate Distinct<T>(s: seq<T>)
  {
    forall i, j :: 0 <= i < j < |s| ==> s[i] != s[j]
  }
}
