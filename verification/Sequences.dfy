/** Slices of slices, for proofs that cut a sequence in several places. */
module Sequences {

  lemma {:induction false} SliceOfPrefix<T>(xs: seq<T>, n: nat, lo: nat, hi: nat)
    requires lo <= hi <= n <= |xs|
    ensures xs[..n][lo..hi] == xs[lo..hi]
  {
  }

  lemma {:induction false} SliceOfSuffix<T>(xs: seq<T>, b: nat, n: nat)
    requires b <= n <= |xs|
    ensures xs[b..][..n - b] == xs[b..n]
  {
  }

  lemma {:induction false} SliceNext<T>(xs: seq<T>, b: nat, i: nat)
    requires b <= i < |xs|
    ensures xs[b..i] + [xs[i]] == xs[b..i + 1]
  {
  }

  lemma {:induction false} TakeNext<T>(xs: seq<T>, i: nat)
    requires i < |xs|
    ensures xs[..i] + [xs[i]] == xs[..i + 1] && xs[..i + 1][..i] == xs[..i]
  {
  }

  lemma {:induction false} LastOf<T>(xs: seq<T>)
    requires xs != []
    ensures xs == xs[..|xs| - 1] + [xs[|xs| - 1]]
  {
  }

  lemma {:induction false} Associates<T>(a: seq<T>, b: seq<T>, c: seq<T>)
    ensures a + (b + c) == a + b + c
  {
  }
}
