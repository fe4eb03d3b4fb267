/** Integer stand-ins for the floating-point rounding the program does (`Math.round`, `toFixed`). */
module Numeric {

  lemma MulMono(a: int, b: int, c: nat)
    requires a <= b
    ensures a * c <= b * c
  {
  }

  /**
   * `Math.round(num / den)`: the nearest integer to the ratio, halves rounded
   * up (towards positive infinity, as `Math.round` does for negative ratios too).
   */
  function RoundDiv(num: int, den: nat): (r: int)
    requires den > 0
    ensures 2 * den * r <= 2 * num + den < 2 * den * (r + 1)
    ensures num >= 0 ==> r >= 0
  {
    var x := 2 * num + den;
    var d := 2 * den;
    assert (x / d) * d <= x < (x / d) * d + d;
    x / d
  }

  /** Rounding is monotone and exact on whole numbers. */
  lemma RoundDivBounds(num: int, den: nat, k: int)
    requires den > 0
    ensures num <= k * den ==> RoundDiv(num, den) <= k
    ensures k * den <= num ==> k <= RoundDiv(num, den)
    ensures num == k * den ==> RoundDiv(num, den) == k
  {
    var r := RoundDiv(num, den);
    if num <= k * den && r > k {
      MulMono(k + 1, r, 2 * den);
      assert false;
    }
    if k * den <= num && r < k {
      MulMono(r + 1, k, 2 * den);
      assert false;
    }
  }
}
