/** `shuffleArray`: a backward Fisher-Yates pass over a copy of its input,
    specified step by step in the order the loop takes them. */
module Shuffle {
  import opened Randomness

  /** `s` with the elements at `i` and `j` exchanged. */
  function Swap<T>(s: seq<T>, i: nat, j: nat): (r: seq<T>)
    requires i < |s| && j < |s|
  {
    seq(|s|, k requires 0 <= k < |s| => if k == i then s[j] else if k == j then s[i] else s[k])
  }

  /** Exchanging two elements keeps the length and the multiset. */
  lemma SwapPermutes<T>(s: seq<T>, i: nat, j: nat)
    requires i < |s| && j < |s|
    ensures |Swap(s, i, j)| == |s|
    ensures multiset(Swap(s, i, j)) == multiset(s)
  {
    var t := s[i := s[j]];
    assert multiset(t) == multiset(s) - multiset{s[i]} + multiset{s[j]};
    assert Swap(s, i, j) == t[j := s[i]];
  }

  /** The number of draws a shuffle of `n` elements consumes: one per
      index from `n - 1` down to 1. */
  function Draws(n: nat): nat
  {
    if n == 0 then 0 else n - 1
  }

  /** The first `n` steps of the backward pass: step `k` (from 1) swaps
      index `|s| - k` with `Floor(r * (|s| - k + 1))` for the draw `r` at
      `pos + k - 1`. */
  function FisherYates<T>(s: seq<T>, n: nat, rand: Random, pos: nat): (r: seq<T>)
    requires n < |s|
    ensures |r| == |s|
  {
    if n == 0 then s
    else
      var i := |s| - n;
      Swap(FisherYates(s, n - 1, rand, pos), i, Pick(rand(pos + n - 1), i + 1))
  }

  /** Every prefix of the pass is a permutation of `s`. */
  lemma {:induction false} FisherYatesPermutes<T>(s: seq<T>, n: nat, rand: Random, pos: nat)
    requires n < |s|
    ensures multiset(FisherYates(s, n, rand, pos)) == multiset(s)
  {
    if n > 0 {
      FisherYatesPermutes(s, n - 1, rand, pos);
      var t := FisherYates(s, n - 1, rand, pos);
      var i := |s| - n;
      var j := Pick(rand(pos + n - 1), i + 1);
      assert FisherYates(s, n, rand, pos) == Swap(t, i, j);
      SwapPermutes(t, i, j);
    }
  }

  /** The whole shuffle of `s` starting at draw `pos`: all `|s| - 1` steps. */
  function Shuffled<T>(s: seq<T>, rand: Random, pos: nat): (r: seq<T>)
    ensures |r| == |s| && multiset(r) == multiset(s)
  {
    if |s| == 0 then s
    else
      FisherYatesPermutes(s, |s| - 1, rand, pos);
      FisherYates(s, |s| - 1, rand, pos)
  }

  /** Exchanges two elements of an array in place. */
  method SwapAt<T>(a: array<T>, i: nat, j: nat)
    requires i < a.Length && j < a.Length
    modifies a
    ensures a[..] == Swap(old(a[..]), i, j)
  {
    a[i], a[j] := a[j], a[i];
  }

  /** The loop of `shuffleArray`: for `i` from the last index down to 1,
      swaps `a[i]` with `a[Floor(r * (i + 1))]` for the next draw `r`. */
  method ShuffleInPlace<T>(a: array<T>, rand: Random, pos: nat) returns (next: nat)
    requires a.Length > 0
    modifies a
    ensures a[..] == FisherYates(old(a[..]), a.Length - 1, rand, pos)
    ensures next == pos + (a.Length - 1)
  {
    ghost var s := a[..];
    var i := a.Length - 1;
    next := pos;
    while i > 0
      invariant 0 <= i < a.Length == |s|
      invariant next == pos + (a.Length - 1 - i)
      invariant a[..] == FisherYates(s, a.Length - 1 - i, rand, pos)
    {
      var j := Pick(rand(next), i + 1);
      SwapAt(a, i, j);
      i := i - 1;
      next := next + 1;
    }
  }

  /** `shuffleArray`: copies `s` into a fresh array and shuffles the copy, so
      the caller's sequence is never changed; returns the permutation and the
      next unused draw. */
  method ShuffleArray<T>(s: seq<T>, rand: Random, pos: nat) returns (r: seq<T>, next: nat)
    ensures r == Shuffled(s, rand, pos)
    ensures |r| == |s| && multiset(r) == multiset(s)
    ensures next == pos + Draws(|s|)
  {
    if |s| == 0 {
      return s, pos;
    }
    var a := new T[|s|](k requires 0 <= k < |s| => s[k]);
    assert a[..] == s;
    next := ShuffleInPlace(a, rand, pos);
    r := a[..];
  }
}
