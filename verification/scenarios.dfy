/**
 * Worked examples of selection steps with literal values, each derived from
 * the definitions and lemmas of TopK; the last two call GetUpload on arrays
 * for two consecutive steps.  Most examples use a model whose every
 * parameter is a single scalar.
 */
module Scenarios {
  import opened Budget
  import opened OrderStatistic
  import opened Layers
  import opened TopK

  /** One single-coordinate layer per entry of v. */
  function Scalars(v: seq<real>): seq<seq<real>>
  {
    seq(|v|, i requires 0 <= i < |v| => [v[i]])
  }

  lemma {:induction false} ScalarsFlatten(v: seq<real>)
    ensures Flatten(Scalars(v)) == v
    decreases |v|
  {
    if |v| > 0 {
      var front := v[..|v| - 1];
      assert Scalars(v)[..|v| - 1] == Scalars(front);
      ScalarsFlatten(front);
      assert v == front + [v[|v| - 1]];
    }
  }

  lemma {:induction false} ScalarsMagnitudes(v: seq<real>)
    ensures MagnitudeVector(Scalars(v)) == AbsLayer(v)
  {
    assert AbsLayers(Scalars(v)) == Scalars(AbsLayer(v)) by {
      forall i | 0 <= i < |v| ensures AbsLayer([v[i]]) == [Abs(v[i])] { }
    }
    ScalarsFlatten(AbsLayer(v));
  }

  lemma {:induction false} ScalarsStep(v: seq<real>, t: real)
    ensures UploadLayers(Scalars(v), t) == Scalars(UploadLayer(v, t))
    ensures KeptLayers(Scalars(v), t) == Scalars(KeptLayer(v, t))
  {
    forall i | 0 <= i < |v|
      ensures UploadLayer([v[i]], t) == [UploadLayer(v, t)[i]]
      ensures KeptLayer([v[i]], t) == [KeptLayer(v, t)[i]]
    { }
  }

  lemma {:induction false} ScalarsAdd(a: seq<real>, b: seq<real>)
    requires |a| == |b|
    ensures SameShape(Scalars(a), Scalars(b))
    ensures AddLayers(Scalars(a), Scalars(b)) == Scalars(AddLayer(a, b))
  {
    forall i | 0 <= i < |a| ensures AddLayer([a[i]], [b[i]]) == [a[i] + b[i]] { }
  }

  lemma {:induction false} ScalarsKthLargest(v: seq<real>, k: nat, t: real)
    requires IsKthLargest(MagnitudeVector(Scalars(v)), k, t)
    ensures IsKthLargest(AbsLayer(v), k, t)
  {
    ScalarsMagnitudes(v);
  }

  lemma {:induction false} ScalarsSelected(v: seq<real>, t: real)
    ensures SelectedCount(Scalars(v), t) == CountAtLeast(AbsLayer(v), t)
  {
    SelectedCountIsFlatCount(Scalars(v), t);
    ScalarsMagnitudes(v);
  }

  lemma {:induction false} FirstThreshold(t: real)
    requires IsKthLargest(MagnitudeVector(Scalars([1.0, -2.0, 0.5, 0.1])), 1, t)
    ensures t == 2.0
  {
    var v := [1.0, -2.0, 0.5, 0.1];
    ScalarsKthLargest(v, 1, t);
    assert AbsLayer(v) == [1.0, 2.0, 0.5, 0.1];
    FirstLargestIsMaximum(AbsLayer(v), 1, t);
  }

  lemma {:induction false} FirstMasks()
    ensures UploadLayers(Scalars([1.0, -2.0, 0.5, 0.1]), 2.0) == Scalars([0.0, -2.0, 0.0, 0.0])
    ensures KeptLayers(Scalars([1.0, -2.0, 0.5, 0.1]), 2.0) == Scalars([1.0, 0.0, 0.5, 0.1])
  {
    var v := [1.0, -2.0, 0.5, 0.1];
    ScalarsStep(v, 2.0);
    assert UploadLayer(v, 2.0) == [0.0, -2.0, 0.0, 0.0];
    assert KeptLayer(v, 2.0) == [1.0, 0.0, 0.5, 0.1];
  }

  /** Scalars [1, -2, 0.5, 0.1] with k = 1 (ratio 0.25): threshold 2, only -2 is uploaded. */
  lemma {:induction false} SingleLargestUploaded(t: real)
    requires IsKthLargest(MagnitudeVector(Scalars([1.0, -2.0, 0.5, 0.1])), 1, t)
    ensures CompressionNum(4, 0.25) == 1
    ensures t == 2.0
    ensures UploadLayers(Scalars([1.0, -2.0, 0.5, 0.1]), t) == Scalars([0.0, -2.0, 0.0, 0.0])
    ensures KeptLayers(Scalars([1.0, -2.0, 0.5, 0.1]), t) == Scalars([1.0, 0.0, 0.5, 0.1])
  {
    FirstThreshold(t);
    FirstMasks();
  }

  lemma {:induction false} SecondAccumulation()
    ensures AddLayers(Scalars([1.0, 0.0, 0.5, 0.1]), Scalars([0.0, 0.0, 0.0, 2.0])) == Scalars([1.0, 0.0, 0.5, 2.1])
  {
    ScalarsAdd([1.0, 0.0, 0.5, 0.1], [0.0, 0.0, 0.0, 2.0]);
    assert AddLayer([1.0, 0.0, 0.5, 0.1], [0.0, 0.0, 0.0, 2.0]) == [1.0, 0.0, 0.5, 2.1];
  }

  lemma {:induction false} SecondThreshold(t: real)
    requires IsKthLargest(MagnitudeVector(Scalars([1.0, 0.0, 0.5, 2.1])), 1, t)
    ensures t == 2.1
  {
    var v := [1.0, 0.0, 0.5, 2.1];
    ScalarsKthLargest(v, 1, t);
    assert AbsLayer(v) == v;
    FirstLargestIsMaximum(v, 3, t);
  }

  lemma {:induction false} SecondMasks()
    ensures UploadLayers(Scalars([1.0, 0.0, 0.5, 2.1]), 2.1) == Scalars([0.0, 0.0, 0.0, 2.1])
    ensures KeptLayers(Scalars([1.0, 0.0, 0.5, 2.1]), 2.1) == Scalars([1.0, 0.0, 0.5, 0.0])
  {
    var v := [1.0, 0.0, 0.5, 2.1];
    ScalarsStep(v, 2.1);
    assert UploadLayer(v, 2.1) == [0.0, 0.0, 0.0, 2.1];
    assert KeptLayer(v, 2.1) == [1.0, 0.0, 0.5, 0.0];
  }

  /** The next step adds [0, 0, 0, 2] to the residual [1, 0, 0.5, 0.1]: 2.1 is uploaded. */
  lemma {:induction false} ResidualCatchesUp(t: real)
    requires IsKthLargest(MagnitudeVector(Scalars([1.0, 0.0, 0.5, 2.1])), 1, t)
    ensures AddLayers(Scalars([1.0, 0.0, 0.5, 0.1]), Scalars([0.0, 0.0, 0.0, 2.0])) == Scalars([1.0, 0.0, 0.5, 2.1])
    ensures t == 2.1
    ensures UploadLayers(Scalars([1.0, 0.0, 0.5, 2.1]), t) == Scalars([0.0, 0.0, 0.0, 2.1])
    ensures KeptLayers(Scalars([1.0, 0.0, 0.5, 2.1]), t) == Scalars([1.0, 0.0, 0.5, 0.0])
  {
    SecondAccumulation();
    SecondThreshold(t);
    SecondMasks();
  }

  /** In a vector [2, 2] the largest entry is 2, and both entries reach it. */
  lemma {:induction false} TwoIsLargest(v: seq<real>, t: real)
    requires |v| == 2 && v[0] == 2.0 && v[1] == 2.0
    requires IsKthLargest(v, 1, t)
    ensures t == 2.0
    ensures CountAtLeast(v, t) == 2
  {
    FirstLargestIsMaximum(v, 0, t);
    CountAll(v, x => x >= t);
  }

  lemma {:induction false} TiedThreshold(t: real)
    requires IsKthLargest(MagnitudeVector(Scalars([2.0, -2.0])), 1, t)
    ensures t == 2.0
    ensures SelectedCount(Scalars([2.0, -2.0]), t) == 2
  {
    var v := [2.0, -2.0];
    ScalarsKthLargest(v, 1, t);
    TwoIsLargest(AbsLayer(v), t);
    ScalarsSelected(v, t);
  }

  /** Two scalars tied at the threshold with k = 1: both are selected and uploaded. */
  lemma {:induction false} TiesSelectMoreThanK(t: real)
    requires IsKthLargest(MagnitudeVector(Scalars([2.0, -2.0])), 1, t)
    ensures t == 2.0
    ensures SelectedCount(Scalars([2.0, -2.0]), t) == 2
    ensures UploadLayers(Scalars([2.0, -2.0]), t) == Scalars([2.0, -2.0])
  {
    TiedThreshold(t);
    ScalarsStep([2.0, -2.0], 2.0);
    assert UploadLayer([2.0, -2.0], 2.0) == [2.0, -2.0];
  }

  /** A ratio of 0 still asks for one coordinate. */
  lemma {:induction false} ZeroRatioStillSendsOne(paramNum: nat)
    ensures CompressionNum(paramNum, 0.0) == 1
  {
  }

  /** In a vector [3, 0, 0] the second largest entry is 0, and every entry is at or above it. */
  lemma {:induction false} ZeroIsSecondLargest(v: seq<real>, t: real)
    requires |v| == 3 && v[0] == 3.0 && v[1] == 0.0 && v[2] == 0.0
    requires IsKthLargest(v, 2, t)
    ensures t == 0.0
    ensures CountAtLeast(v, t) == 3
  {
    var z := 0.0;
    var head, tail := v[..1], v[1..];
    assert v == head + tail;
    assert tail[0] == 0.0 && tail[1] == 0.0;
    CountConcat(head, tail, x => x > z);
    CountNone(tail, x => x > z);
    CountAll(head, x => x > z);
    CountAll(v, x => x >= z);
    KthLargestUnique(v, 2, t, z);
  }

  lemma {:induction false} ZeroThreshold(t: real)
    requires IsKthLargest(MagnitudeVector(Scalars([3.0, 0.0, 0.0])), 2, t)
    ensures t == 0.0
    ensures SelectedCount(Scalars([3.0, 0.0, 0.0]), t) == 3
  {
    var v := [3.0, 0.0, 0.0];
    ScalarsKthLargest(v, 2, t);
    ZeroIsSecondLargest(AbsLayer(v), t);
    ScalarsSelected(v, t);
  }

  lemma {:induction false} ZeroThresholdUpload()
    ensures UploadLayers(Scalars([3.0, 0.0, 0.0]), 0.0) == Scalars([3.0, 0.0, 0.0])
    ensures Count(Flatten(Scalars([3.0, 0.0, 0.0])), x => x != 0.0) == 1
  {
    var v := [3.0, 0.0, 0.0];
    ScalarsStep(v, 0.0);
    assert UploadLayer(v, 0.0) == v;
    ScalarsFlatten(v);
    assert v == [3.0] + [0.0, 0.0];
    CountConcat([3.0], [0.0, 0.0], x => x != 0.0);
    CountNone([0.0, 0.0], x => x != 0.0);
    CountAll([3.0], x => x != 0.0);
  }

  /**
   * Selection counts coordinates, not non-zero uploads: with scalars
   * [3, 0, 0] and k = 2 the threshold is 0, all three coordinates are
   * selected, and the upload has a single non-zero entry, fewer than k.
   */
  lemma {:induction false} ZeroThresholdUploadsZeros(t: real)
    requires IsKthLargest(MagnitudeVector(Scalars([3.0, 0.0, 0.0])), 2, t)
    ensures t == 0.0
    ensures SelectedCount(Scalars([3.0, 0.0, 0.0]), t) == 3
    ensures UploadLayers(Scalars([3.0, 0.0, 0.0]), t) == Scalars([3.0, 0.0, 0.0])
    ensures Count(Flatten(UploadLayers(Scalars([3.0, 0.0, 0.0]), t)), x => x != 0.0) == 1 < 2
  {
    ZeroThreshold(t);
    ZeroThresholdUpload();
  }

  lemma {:induction false} FirstStepSizes()
    ensures AddLayers(Scalars([0.0, 0.0, 0.0, 0.0]), Scalars([1.0, -2.0, 0.5, 0.1])) == Scalars([1.0, -2.0, 0.5, 0.1])
    ensures |MagnitudeVector(Scalars([1.0, -2.0, 0.5, 0.1]))| == 4
  {
    ScalarsAdd([0.0, 0.0, 0.0, 0.0], [1.0, -2.0, 0.5, 0.1]);
    assert AddLayer([0.0, 0.0, 0.0, 0.0], [1.0, -2.0, 0.5, 0.1]) == [1.0, -2.0, 0.5, 0.1];
    ScalarsMagnitudes([1.0, -2.0, 0.5, 0.1]);
  }

  lemma {:induction false} SecondStepSizes()
    ensures |MagnitudeVector(Scalars([1.0, 0.0, 0.5, 2.1]))| == 4
  {
    ScalarsMagnitudes([1.0, 0.0, 0.5, 2.1]);
  }

  /** The first step on arrays holding a zero residual for four single-scalar layers. */
  method FirstStep(residual: seq<array<real>>) returns (upload: seq<array<real>>)
    requires Distinct(residual)
    requires Contents(residual) == Scalars([0.0, 0.0, 0.0, 0.0])
    modifies residual
    ensures Contents(upload) == Scalars([0.0, -2.0, 0.0, 0.0])
    ensures Contents(residual) == Scalars([1.0, 0.0, 0.5, 0.1])
  {
    FirstStepSizes();
    var result, t := GetUpload(residual, Scalars([1.0, -2.0, 0.5, 0.1]), 0.25, false);
    SingleLargestUploaded(t);
    upload := result.value;
  }

  /** The second step, from the residual the first step leaves. */
  method SecondStep(residual: seq<array<real>>) returns (upload: seq<array<real>>)
    requires Distinct(residual)
    requires Contents(residual) == Scalars([1.0, 0.0, 0.5, 0.1])
    modifies residual
    ensures Contents(upload) == Scalars([0.0, 0.0, 0.0, 2.1])
    ensures Contents(residual) == Scalars([1.0, 0.0, 0.5, 0.0])
  {
    SecondAccumulation();
    SecondStepSizes();
    var result, t := GetUpload(residual, Scalars([0.0, 0.0, 0.0, 2.0]), 0.25, true);
    ResidualCatchesUp(t);
    upload := result.value;
  }
}
