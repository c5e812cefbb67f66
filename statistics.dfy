/**
 * The statistics helpers of the Naive Bayes model (src/app/naive-bayes/model.ts):
 * recognising and parsing numeric cells, and the mean and population variance
 * of a class's values. Floating point is modelled by exact reals.
 */
module Statistics {
  import opened Js
  import opened Seqs

  /**
   * `isNumericValue`: `null`/`undefined` never are; a number is when it is
   * finite; anything else is when `parseFloat` of its text, stripped of every
   * character but digits, dots and minus signs, is finite.
   */
  function IsNumericValue(rt: Runtime, v: Value): bool {
    match v
    case Undefined => false
    case Null => false
    case Num(n) => n.IsFinite()
    case _ => rt.parseFloat(KeepNumericChars(ToString(rt, v))).IsFinite()
  }

  /**
   * `parseNumber`: a number passes through unchanged, anything else is parsed
   * the same way `IsNumericValue` tests it, with `NaN` for failure. The two
   * agree: the parse is finite exactly when the value counts as numeric.
   */
  function ParseNumber(rt: Runtime, v: Value): (n: Number)
    ensures n.IsFinite() <==> IsNumericValue(rt, v)
    ensures v.Num? ==> n == v.n
    ensures !v.Num? && !IsNumericValue(rt, v) ==> n == NaN
  {
    match v
    case Undefined => NaN
    case Null => NaN
    case Num(n) => n
    case _ =>
      var n := rt.parseFloat(KeepNumericChars(ToString(rt, v)));
      if n.IsFinite() then n else NaN
  }

  /** `mean`: the sum divided by the length, `NaN` (0 / 0) for no values. */
  function Mean(nums: seq<real>): (m: Number)
    ensures m == NaN <==> |nums| == 0
    ensures |nums| > 0 ==> m.Finite? && m.r * |nums| as real == Sum(nums)
  {
    if |nums| == 0 then NaN else Finite(Sum(nums) / |nums| as real)
  }

  lemma {:induction false} SumBetween(nums: seq<real>, lo: real, hi: real)
    requires forall i :: 0 <= i < |nums| ==> lo <= nums[i] <= hi
    ensures |nums| as real * lo <= Sum(nums) <= |nums| as real * hi
  {
    if |nums| > 0 {
      SumBetween(nums[..|nums| - 1], lo, hi);
    }
  }

  /** The mean of values that lie in [lo, hi] lies in [lo, hi] too. */
  lemma MeanBetween(nums: seq<real>, lo: real, hi: real)
    requires |nums| > 0
    requires forall i :: 0 <= i < |nums| ==> lo <= nums[i] <= hi
    ensures lo <= Mean(nums).r <= hi
  {
    SumBetween(nums, lo, hi);
    var n := |nums| as real;
    var m := Mean(nums).r;
    assert m * n == Sum(nums);
    assert (m - lo) * n >= 0.0;
    assert (hi - m) * n >= 0.0;
  }

  /** The sum of squared deviations from `mu`: never negative, zero when every value is `mu`. */
  function SumOfSquares(nums: seq<real>, mu: real): (s: real)
    ensures s >= 0.0
    ensures (forall i :: 0 <= i < |nums| ==> nums[i] == mu) ==> s == 0.0
  {
    if |nums| == 0 then 0.0 else
      var d := nums[|nums| - 1] - mu;
      SumOfSquares(nums[..|nums| - 1], mu) + d * d
  }

  /**
   * `variance`: the population variance `s / n`, replaced by 1e-9 when that
   * is 0 or NaN (`|| 1e-9`). It is therefore always strictly positive.
   */
  function Variance(nums: seq<real>, mu: real): (v: real)
    ensures v > 0.0
    ensures (forall i :: 0 <= i < |nums| ==> nums[i] == mu) ==> v == 0.000000001
    ensures |nums| > 0 && SumOfSquares(nums, mu) > 0.0 ==> v == SumOfSquares(nums, mu) / |nums| as real
  {
    if |nums| == 0 then 0.000000001 else
      var v := SumOfSquares(nums, mu) / |nums| as real;
      if v == 0.0 then 0.000000001 else v
  }
}
