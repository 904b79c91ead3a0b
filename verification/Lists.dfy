/** Sequences of table indices that links are meant to spell. */
module Lists {

  predicate Distinct(list: seq<int>) {
    forall i, j :: 0 <= i < j < |list| ==> list[i] != list[j]
  }
}
