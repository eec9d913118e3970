/** A sequence fact used by the order-preservation proofs. */
module Seqs {

  /** Concatenation is associative (stated apart so that proofs over recursive
      definitions do not have to rediscover it). */
  lemma ConcatAssoc<T>(x: seq<T>, y: seq<T>, z: seq<T>)
    ensures x + (y + z) == (x + y) + z
  {
  }

  /** A slice of the tail is a slice of the whole, shifted by one. */
  lemma SliceOfTail<T>(s: seq<T>, i: nat, n: nat)
    requires |s| > 0 && i + n <= |s| - 1
    ensures s[1..][i..i + n] == s[i + 1..i + 1 + n]
  {
  }

  /** A sequence is what comes before position `k`, the element at `k`, and what follows. */
  lemma SplitAround<T>(s: seq<T>, k: nat)
    requires k < |s|
    ensures s == s[..k] + [s[k]] + s[k + 1..]
  {
  }
}
