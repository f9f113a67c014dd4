/** Facts about sequence concatenation and slicing that the encoder and
    decoder proofs use at many element types. */
module SeqFacts {
  lemma AppendAssoc<T>(xs: seq<T>, ys: seq<T>, zs: seq<T>)
    ensures (xs + ys) + zs == xs + (ys + zs)
  {
  }

  /** The head and tail of a concatenation with a non-empty front. */
  lemma ConsAppend<T>(xs: seq<T>, ys: seq<T>)
    requires |xs| > 0
    ensures (xs + ys)[0] == xs[0]
    ensures (xs + ys)[1..] == xs[1..] + ys
  {
  }

  /** The front of a concatenation is its first part. */
  lemma PrefixOfAppend<T>(xs: seq<T>, ys: seq<T>)
    ensures (xs + ys)[..|xs|] == xs
  {
  }

  /** The back of a concatenation is its second part. */
  lemma SuffixOfAppend<T>(xs: seq<T>, ys: seq<T>)
    ensures (xs + ys)[|xs|..] == ys
  {
  }

  /** A sequence split at `j` is its two slices joined. */
  lemma SplitAt<T>(xs: seq<T>, j: nat)
    requires j <= |xs|
    ensures xs == xs[..j] + xs[j..]
  {
  }

  /** Extending a prefix by one element. */
  lemma PrefixStep<T>(xs: seq<T>, j: nat)
    requires j < |xs|
    ensures xs[..j + 1] == xs[..j] + [xs[j]]
  {
  }
}
