/**
 * The per-step transmission budget of the Top-K sparsifier: the number k of
 * coordinates a worker uploads, derived from the total coordinate count n and
 * the configured compression ratio, and the realised ratio k / n that the
 * worker reports to the parameter server once at start-up.
 */
module Budget {
  import opened Errors

  /** Python's `int(x)` on a float: truncation toward zero. */
  function Truncate(x: real): (i: int)
    ensures 0.0 <= x ==> i as real <= x < i as real + 1.0
    ensures x < 0.0 ==> i as real - 1.0 < x <= i as real
  {
    if x >= 0.0 then x.Floor else -((-x).Floor)
  }

  /**
   * `k = int(n * ratio)`, replaced by 1 when it is not positive.  The same
   * expression gives `compression_num` in the worker set-up.
   */
  function CompressionNum(paramNum: nat, ratio: real): (k: nat)
    ensures 1 <= k
    ensures paramNum as real * ratio < 1.0 ==> k == 1
    ensures 1.0 <= paramNum as real * ratio ==>
              k as real <= paramNum as real * ratio < k as real + 1.0
  {
    var t := Truncate(paramNum as real * ratio);
    if t > 0 then t else 1
  }

  /** With a ratio in [0, 1] and at least one coordinate, the budget never exceeds the coordinate count. */
  lemma {:induction false} CompressionNumWithinCount(paramNum: nat, ratio: real)
    requires 1 <= paramNum
    requires 0.0 <= ratio <= 1.0
    ensures CompressionNum(paramNum, ratio) <= paramNum
  {
    var n := paramNum as real;
    assert n * ratio <= n * 1.0 by {
      assert n * (1.0 - ratio) >= 0.0;
    }
  }

  /** A ratio above 1 can ask for more coordinates than exist; then the selection fails. */
  lemma {:induction false} CompressionNumCanExceedCount(paramNum: nat, ratio: real)
    requires 1 <= paramNum
    requires (paramNum + 1) as real <= paramNum as real * ratio
    ensures paramNum < CompressionNum(paramNum, ratio)
  {
  }

  /**
   * The scalar gathered to the server after the initial parameters arrive:
   * `compression_num / param_num`, which raises when the model has no
   * coordinates.
   */
  function ReportedRatio(paramNum: nat, ratio: real): (r: Result<real>)
    ensures r.Failure? <==> paramNum == 0
    ensures r.Failure? ==> r.error == DivisionByZero
    ensures r.Success? ==> r.value * paramNum as real == CompressionNum(paramNum, ratio) as real
    ensures r.Success? ==> 0.0 < r.value
    ensures r.Success? && paramNum as real * ratio < 1.0 ==> r.value * paramNum as real == 1.0
    ensures r.Success? && 1.0 <= paramNum as real * ratio ==> r.value <= ratio
  {
    if paramNum == 0 then Failure(DivisionByZero)
    else Success(CompressionNum(paramNum, ratio) as real / paramNum as real)
  }

  /** The realised ratio lies in (0, 1] whenever the configured ratio does and the model has coordinates. */
  lemma {:induction false} ReportedRatioInUnitInterval(paramNum: nat, ratio: real)
    requires 1 <= paramNum
    requires 0.0 <= ratio <= 1.0
    ensures ReportedRatio(paramNum, ratio).Success?
    ensures 0.0 < ReportedRatio(paramNum, ratio).value <= 1.0
  {
    CompressionNumWithinCount(paramNum, ratio);
    var r := ReportedRatio(paramNum, ratio).value;
    var n := paramNum as real;
    assert r * n <= n;
  }
}
