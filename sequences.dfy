/**
 * Generic facts about sequences that the string proofs share.
 */
module Sequences {

  /** Concatenation is associative; stated once so that proofs about
      concatenated strings can name the regrouping step. */
  lemma ConcatAssoc<T>(a: seq<T>, b: seq<T>, c: seq<T>)
    ensures (a + b) + c == a + (b + c)
  {
  }
}
