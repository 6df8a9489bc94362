/** Shared vocabulary: optional values, integer widths, and iteration over a key-value store. */
module Basics {

  datatype Option<+T> = None | Some(value: T)

  const UINT64: nat := 0x1_0000_0000_0000_0000

  /** Integers of 2^256 and more make the integer library panic. */
  const INT_LIMIT: nat := 0x1_0000000000000000_0000000000000000_0000000000000000_0000000000000000

  /** `order` lists the keys of a store once each, in whatever order its iterator yields them. */
  ghost predicate Enumerates<K>(order: seq<K>, keys: set<K>) {
    && (forall i :: 0 <= i < |order| ==> order[i] in keys)
    && (forall i, j :: 0 <= i < j < |order| ==> order[i] != order[j])
    && (forall id :: id in keys ==> id in order)
  }
}
