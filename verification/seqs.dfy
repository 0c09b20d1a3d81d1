/** Facts about sequences that several modules use. */
module Seqs {

  /** Concatenation is associative. */
  lemma ConcatAssoc<T>(h: seq<T>, x: seq<T>, y: seq<T>)
    ensures h + (x + y) == (h + x) + y
  {
  }
}
