/** The optional value, and the iteration orders of a map. */
module Wrappers {
  /** A Go pointer, slice or map that may be nil, or a lookup that may miss. */
  datatype Option<+T> = None | Some(value: T)

  /** `order` visits every key of `m` once: a run of Go's `range` over the map. */
  ghost predicate IsRange<V>(order: seq<string>, m: map<string, V>) {
    && (forall i, j :: 0 <= i < j < |order| ==> order[i] != order[j])
    && (forall k :: k in m <==> k in order)
  }
}
