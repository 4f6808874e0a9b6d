/** Identifiers shared between the terminal and the daemon. */
module Ids {
  /** A client's or a request's uuid, an opaque identifier compared for equality only. */
  type Uuid = nat

  /** No identifier occurs twice. */
  predicate NoDuplicates(s: seq<Uuid>) {
    forall i, j :: 0 <= i < j < |s| ==> s[i] != s[j]
  }
}
