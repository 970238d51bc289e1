/** Order on index sequences, shared by the page selection and the block
    filter. */
module Ordering {

  /** Each index is smaller than every later one: sorted, without repeats. */
  predicate StrictlyAscending(r: seq<nat>)
  {
    forall i, j :: 0 <= i < j < |r| ==> r[i] < r[j]
  }
}
