/** Drawing a list index with `Math.floor(Math.random() * n)`; the random number is a parameter. */
module Random {

  /** `Math.floor(roll * n)` for a `roll` in [0, 1): an index of a list of length `n` when there is one. */
  function Draw(roll: real, n: nat): (k: int)
    requires 0.0 <= roll < 1.0
    ensures n > 0 ==> 0 <= k < n
  {
    assert 0.0 <= roll * n as real;
    assert n > 0 ==> roll * n as real < n as real;
    (roll * n as real).Floor
  }

  /** Index `k` is drawn exactly by the rolls in the k-th of `n` equal slices of [0, 1). */
  lemma DrawSlices(roll: real, n: nat, k: nat)
    requires 0.0 <= roll < 1.0 && k < n
    ensures Draw(roll, n) == k <==> k as real <= roll * n as real < (k + 1) as real
  {
    var x := roll * n as real;
    assert x.Floor as real <= x < x.Floor as real + 1.0;
  }
}
