/**
 * Facts about sequences of any element type. Stated once for an abstract element type, they
 * hold for lists of entries and of days without the verifier comparing the elements themselves.
 */
module Seqs {

  /** A sequence is its part before `i`, its element at `i` and its part after. */
  lemma SplitAt<T>(xs: seq<T>, i: int)
    requires 0 <= i < |xs|
    ensures xs == xs[..i] + [xs[i]] + xs[i + 1..]
  {
  }

  /** Writing back the element already at `i` changes nothing. */
  lemma UpdateSame<T>(xs: seq<T>, i: int)
    requires 0 <= i < |xs|
    ensures xs[i := xs[i]] == xs
  {
  }

  /** Removing the element at `i` from `xs` and from `xs` with `i` overwritten gives the same. */
  lemma RemoveUpdated<T>(xs: seq<T>, i: int, x: T)
    requires 0 <= i < |xs|
    ensures xs[i := x][..i] + xs[i := x][i + 1..] == xs[..i] + xs[i + 1..]
  {
    assert xs[i := x][..i] == xs[..i];
    assert xs[i := x][i + 1..] == xs[i + 1..];
  }

  /** The first part of a concatenation is its prefix. */
  lemma PrefixOfConcat<T>(a: seq<T>, b: seq<T>, c: seq<T>, d: seq<T>, s: seq<T>)
    requires s == a + b + c + d
    ensures s[..|a|] == a
  {
    assert forall k :: 0 <= k < |a| ==> s[k] == a[k];
  }
}
