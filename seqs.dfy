/** Facts about sequences that the call-trace proofs use. */
module Seqs {
  /** Concatenation is associative; stated once so that proofs over long call traces can
      regroup them without searching. */
  lemma AppendAssoc<T>(a: seq<T>, b: seq<T>, c: seq<T>)
    ensures (a + b) + c == a + (b + c)
  {
  }
}
