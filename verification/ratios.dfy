/**
 * The ratio check and the two counts of split_dataset. Ratios are exact reals:
 * the model does not follow IEEE rounding of the float arithmetic.
 */
module Ratios {
  import opened Wrappers

  datatype RatioError = RatiosMustSumToOne

  /**
   * Lines 16-20: an omitted test ratio becomes `1 - train - val`; then the three
   * ratios must sum to exactly one. On success the result is the test ratio in use.
   */
  function CheckRatios(train: real, val: real, test: Option<real>): (r: Result<real, RatioError>)
    ensures r.Failure? <==> test.Some? && train + val + test.value != 1.0
    ensures r.Success? ==> train + val + r.value == 1.0
    ensures r.Success? && test.Some? ==> r.value == test.value
  {
    var t := if test.None? then 1.0 - train - val else test.value;
    if train + val + t != 1.0 then Failure(RatiosMustSumToOne) else Success(t)
  }

  /** Python's `int()` on a float: truncation toward zero. */
  function Trunc(x: real): (k: int)
    ensures 0.0 <= x ==> 0 <= k && k as real <= x < k as real + 1.0
    ensures x < 0.0 ==> k <= 0 && k as real - 1.0 < x <= k as real
  {
    if x >= 0.0 then x.Floor else -((-x).Floor)
  }

  /** A non-negative total times a ratio in [0, 1] stays between zero and the total. */
  lemma ProductBounds(n: real, ratio: real)
    requires 0.0 <= n
    ensures 0.0 <= ratio ==> 0.0 <= n * ratio
    ensures ratio <= 1.0 ==> n * ratio <= n
  {
    if ratio <= 1.0 {
      assert n - n * ratio == n * (1.0 - ratio);
    }
  }

  /** The total times the ratio, truncated: the size asked of the train or the val split. */
  function Count(total: nat, ratio: real): (k: int)
    ensures 0.0 <= ratio ==> 0 <= k && k as real <= total as real * ratio < k as real + 1.0
    ensures 0.0 <= ratio <= 1.0 ==> 0 <= k <= total
  {
    var x := total as real * ratio;
    ProductBounds(total as real, ratio);
    Trunc(x)
  }

  /**
   * For non-negative ratios that together leave room for a test split, the train
   * and val counts fit in the list: this is what makes the slices exact.
   */
  lemma CountsFit(total: nat, train: real, val: real)
    requires 0.0 <= train && 0.0 <= val && train + val <= 1.0
    ensures 0 <= Count(total, train) && 0 <= Count(total, val)
    ensures Count(total, train) + Count(total, val) <= total
  {
    TruncatedSharesFit(total as real, Count(total, train), Count(total, val), train, val);
  }

  /** Two integers below the two shares of a non-negative total sum to at most the total. */
  lemma TruncatedSharesFit(n: real, a: int, b: int, train: real, val: real)
    requires 0.0 <= n && 0.0 <= train && 0.0 <= val && train + val <= 1.0
    requires a as real <= n * train && b as real <= n * val
    ensures (a + b) as real <= n
  {
    assert n * train + n * val <= n by {
      assert n * train + n * val == n * (train + val);
      ProductBounds(n, train + val);
    }
    assert (a + b) as real == a as real + b as real;
  }

  /**
   * The test split receives the remainder, so it absorbs every rounding loss: it is
   * never smaller than its own share `total * test` and exceeds it by less than two,
   * even when an explicit test ratio was given and checked.
   */
  lemma TestAbsorbsRounding(total: nat, train: real, val: real, test: real)
    requires 0.0 <= train && 0.0 <= val
    requires train + val + test == 1.0
    ensures var rest := total - Count(total, train) - Count(total, val);
      && total as real * test <= rest as real < total as real * test + 2.0
      && Trunc(total as real * test) <= rest
  {
    var n := total as real;
    assert n * train + n * val + n * test == n * (train + val + test);
  }

  /** The counts of a five-image directory with the default ratios 0.8 and 0.1. */
  lemma DefaultRatiosOnFiveImages()
    ensures Count(5, 0.8) == 4 && Count(5, 0.1) == 0 && 5 - Count(5, 0.8) - Count(5, 0.1) == 1
  {
  }
}
