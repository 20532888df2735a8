/** Small facts about sequences shared by the call-log proofs. */
module Seqs {
  /** Concatenation regroups: appending a block of calls to a log is appending its parts in turn. */
  lemma Regroup<T>(a: seq<T>, b: seq<T>, c: seq<T>)
    ensures a + b + c == a + (b + c)
  {
  }
}
