/** The injected replacement for `Math.random()`.

    A run of the generator draws random numbers one after another. The model
    receives them as an oracle `rand` (the k-th draw is `rand(k)`) and a
    position `pos` of the first unused draw; every operation that draws
    returns the position after its last draw. */
module Randomness {

  /** A value `Math.random()` can return: a number in [0, 1). */
  type Unit = r: real | 0.0 <= r < 1.0

  /** An infinite stream of draws. */
  type Random = nat -> Unit

  /** `Math.floor(r * n)`: the index a draw selects among `n` choices. */
  function Pick(r: Unit, n: nat): (j: nat)
    requires n > 0
    ensures j < n
    ensures j as real <= r * n as real < (j + 1) as real
  {
    ScaledBelow(r, n);
    (r * n as real).Floor
  }

  /** Scaling a draw below 1 by `n` stays below `n`. */
  lemma ScaledBelow(r: Unit, n: nat)
    requires n > 0
    ensures 0.0 <= r * n as real < n as real
  {
  }
}
