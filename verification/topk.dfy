/**
 * Residual-compensated Top-K sparsification of one training step
 * (`get_upload`).  The residual is a list of per-layer arrays that the step
 * updates in place: the new gradient is added into it, the k largest
 * magnitudes over all layers (at least k with ties) are moved into freshly
 * allocated upload arrays, and they are zeroed in the residual.
 *
 * The pure functions below say what one step produces from the accumulated
 * residual and the threshold; the lemmas state what one step guarantees
 * (conservation, at least k selected, the largest coordinate selected,
 * structure kept); the methods do the work on arrays and are proved to
 * produce exactly those functions' values.
 */
module TopK {
  import opened Errors
  import opened Budget
  import opened OrderStatistic
  import opened Layers

  // ---------------------------------------------------------------------
  // One step on values

  /** The upload for one layer: zeros, plus the residual where |r| >= t. */
  function UploadLayer(layer: seq<real>, t: real): (u: seq<real>)
    ensures |u| == |layer|
  {
    seq(|layer|, j requires 0 <= j < |layer| => if Abs(layer[j]) >= t then 0.0 + layer[j] else 0.0)
  }

  /** The residual of one layer after selection: zero where |r| >= t, unchanged elsewhere. */
  function KeptLayer(layer: seq<real>, t: real): (r: seq<real>)
    ensures |r| == |layer|
  {
    seq(|layer|, j requires 0 <= j < |layer| => if Abs(layer[j]) >= t then 0.0 else layer[j])
  }

  function UploadLayers(layers: seq<seq<real>>, t: real): (u: seq<seq<real>>)
    ensures SameShape(u, layers)
  {
    seq(|layers|, i requires 0 <= i < |layers| => UploadLayer(layers[i], t))
  }

  function KeptLayers(layers: seq<seq<real>>, t: real): (r: seq<seq<real>>)
    ensures SameShape(r, layers)
  {
    seq(|layers|, i requires 0 <= i < |layers| => KeptLayer(layers[i], t))
  }

  /** The flattened vector of magnitudes that the threshold is taken from. */
  function MagnitudeVector(layers: seq<seq<real>>): (v: seq<real>)
    ensures |v| == Size(layers)
  {
    SizeSameShape(AbsLayers(layers), layers);
    Flatten(AbsLayers(layers))
  }

  /** Number of coordinates, over all layers, whose magnitude reaches t (the size of all masks together). */
  function SelectedCount(layers: seq<seq<real>>, t: real): (c: nat)
    ensures c <= Size(layers)
  {
    CountFlatten(AbsLayers(layers), x => x >= t);
    SizeSameShape(AbsLayers(layers), layers);
    CountLayers(AbsLayers(layers), x => x >= t)
  }

  // ---------------------------------------------------------------------
  // Properties of one step

  /**
   * The budget computed at worker start-up from the parameter shapes is the
   * k every step selects with, and with a ratio in [0, 1] and at least one
   * coordinate the selection never asks for more coordinates than exist.
   */
  lemma {:induction false} StepBudgetIsStartupBudget(params: seq<seq<real>>, acc: seq<seq<real>>, ratio: real)
    requires SameShape(acc, params)
    ensures CompressionNum(|MagnitudeVector(acc)|, ratio) == CompressionNum(Size(params), ratio)
    ensures 1 <= Size(params) && 0.0 <= ratio <= 1.0 ==>
              CompressionNum(|MagnitudeVector(acc)|, ratio) <= |MagnitudeVector(acc)|
  {
    SizeSameShape(acc, params);
    if 1 <= Size(params) && 0.0 <= ratio <= 1.0 {
      CompressionNumWithinCount(Size(params), ratio);
    }
  }

  /** Upload plus new residual gives back the accumulated residual, coordinate by coordinate. */
  lemma {:induction false} StepConservation(acc: seq<seq<real>>, t: real)
    ensures SameShape(UploadLayers(acc, t), KeptLayers(acc, t))
    ensures AddLayers(UploadLayers(acc, t), KeptLayers(acc, t)) == acc
  {
    var sum := AddLayers(UploadLayers(acc, t), KeptLayers(acc, t));
    forall i | 0 <= i < |acc|
      ensures sum[i] == acc[i]
    {
      assert AddLayer(UploadLayer(acc[i], t), KeptLayer(acc[i], t)) == acc[i];
    }
  }

  /**
   * Conservation across the whole step: old residual plus gradient equals
   * new residual plus upload.
   */
  lemma {:induction false} StepConservesMass(remain: seq<seq<real>>, grad: seq<seq<real>>, t: real)
    requires SameShape(remain, grad)
    ensures var acc := AddLayers(remain, grad);
            AddLayers(KeptLayers(acc, t), UploadLayers(acc, t)) == acc
  {
    var acc := AddLayers(remain, grad);
    var u, r := UploadLayers(acc, t), KeptLayers(acc, t);
    StepConservation(acc, t);
    assert AddLayers(r, u) == AddLayers(u, r) by {
      forall i | 0 <= i < |acc| ensures AddLayer(r[i], u[i]) == AddLayer(u[i], r[i]) { }
    }
  }

  /** The per-layer masks together select the coordinates the flattened vector counts. */
  lemma {:induction false} SelectedCountIsFlatCount(layers: seq<seq<real>>, t: real)
    ensures SelectedCount(layers, t) == CountAtLeast(MagnitudeVector(layers), t)
  {
    CountFlatten(AbsLayers(layers), x => x >= t);
  }

  /**
   * With the k-th largest magnitude as threshold, at least k coordinates are
   * selected, and fewer than k have a magnitude strictly above the threshold
   * (so any excess over k consists of ties at the threshold).
   */
  lemma {:induction false} SelectedAtLeastK(layers: seq<seq<real>>, k: nat, t: real)
    requires IsKthLargest(MagnitudeVector(layers), k, t)
    ensures k <= SelectedCount(layers, t)
    ensures CountLayers(AbsLayers(layers), x => x > t) < k
  {
    SelectedCountIsFlatCount(layers, t);
    CountFlatten(AbsLayers(layers), x => x > t);
  }

  /** The threshold is the magnitude of some coordinate, so a largest-magnitude coordinate is always selected. */
  lemma {:induction false} LargestSelected(layers: seq<seq<real>>, k: nat, t: real, i: nat, j: nat)
    requires IsKthLargest(MagnitudeVector(layers), k, t)
    requires i < |layers| && j < |layers[i]|
    requires forall p, q :: 0 <= p < |layers| && 0 <= q < |layers[p]| ==> Abs(layers[p][q]) <= Abs(layers[i][j])
    ensures Abs(layers[i][j]) >= t
    ensures UploadLayers(layers, t)[i][j] == layers[i][j]
    ensures KeptLayers(layers, t)[i][j] == 0.0
  {
    var p, q := FlattenEntry(AbsLayers(layers), t);
    assert AbsLayers(layers)[p][q] == Abs(layers[p][q]);
  }

  /** The threshold is the entry at position k - 1 of the magnitudes sorted in descending order. */
  lemma {:induction false} ThresholdIsSortPosition(layers: seq<seq<real>>, k: nat, t: real, sorted: seq<real>)
    requires IsKthLargest(MagnitudeVector(layers), k, t)
    requires |sorted| == |MagnitudeVector(layers)|
    requires multiset(sorted) == multiset(MagnitudeVector(layers)) && IsDescending(sorted)
    ensures 1 <= k <= |sorted| && t == sorted[k - 1]
  {
    var v := MagnitudeVector(layers);
    assert 1 <= k <= |v|;
    DescendingSortPositionIsKth(v, sorted, k);
    KthLargestUnique(v, k, t, sorted[k - 1]);
  }

  /** When every coordinate reaches the threshold, the whole residual is uploaded and nothing is kept. */
  lemma {:induction false} AllSelectedUploadsEverything(layers: seq<seq<real>>, t: real)
    requires forall i, j :: 0 <= i < |layers| && 0 <= j < |layers[i]| ==> Abs(layers[i][j]) >= t
    ensures UploadLayers(layers, t) == layers
    ensures forall i, j :: 0 <= i < |layers| && 0 <= j < |layers[i]| ==> KeptLayers(layers, t)[i][j] == 0.0
  {
    forall i | 0 <= i < |layers|
      ensures UploadLayers(layers, t)[i] == layers[i]
    {
      assert UploadLayer(layers[i], t) == layers[i];
    }
  }

  /** Every selected coordinate has a strictly larger magnitude than every coordinate left in the residual. */
  lemma {:induction false} SelectedDominateKept(layers: seq<seq<real>>, t: real, i: nat, j: nat, p: nat, q: nat)
    requires i < |layers| && j < |layers[i]| && p < |layers| && q < |layers[p]|
    requires UploadLayers(layers, t)[i][j] != 0.0
    requires KeptLayers(layers, t)[p][q] != 0.0
    ensures Abs(layers[i][j]) > Abs(layers[p][q])
  {
  }

  /**
   * Each coordinate goes entirely one way: either its accumulated value is
   * uploaded and the residual is zeroed there, or nothing is uploaded and the
   * residual keeps it.
   */
  lemma {:induction false} UploadOrKeep(layers: seq<seq<real>>, t: real, i: nat, j: nat)
    requires i < |layers| && j < |layers[i]|
    ensures Abs(layers[i][j]) >= t ==>
              UploadLayers(layers, t)[i][j] == layers[i][j] && KeptLayers(layers, t)[i][j] == 0.0
    ensures Abs(layers[i][j]) < t ==>
              UploadLayers(layers, t)[i][j] == 0.0 && KeptLayers(layers, t)[i][j] == layers[i][j]
  {
    assert UploadLayers(layers, t)[i] == UploadLayer(layers[i], t);
    assert KeptLayers(layers, t)[i] == KeptLayer(layers[i], t);
  }

  /**
   * A coordinate that is not selected keeps its old residual plus the new
   * gradient; when the two have the same sign (or either is zero), its
   * magnitude does not shrink.
   */
  lemma {:induction false} SkippedCoordinateGrows(remain: seq<seq<real>>, grad: seq<seq<real>>, t: real, i: nat, j: nat)
    requires SameShape(remain, grad)
    requires i < |remain| && j < |remain[i]|
    requires Abs(remain[i][j] + grad[i][j]) < t
    ensures KeptLayers(AddLayers(remain, grad), t)[i][j] == remain[i][j] + grad[i][j]
    ensures UploadLayers(AddLayers(remain, grad), t)[i][j] == 0.0
    ensures 0.0 <= remain[i][j] * grad[i][j] ==>
              Abs(remain[i][j]) <= Abs(KeptLayers(AddLayers(remain, grad), t)[i][j])
  {
    var acc := AddLayers(remain, grad);
    assert acc[i][j] == remain[i][j] + grad[i][j];
    UploadOrKeep(acc, t, i, j);
  }

  /** Within one layer, the non-zero uploads are the selected coordinates whose value is not zero. */
  lemma {:induction false} NonZeroUploadLayer(layer: seq<real>, t: real)
    requires 0.0 <= t
    ensures 0.0 < t ==> Count(UploadLayer(layer, t), x => x != 0.0) == Count(AbsLayer(layer), x => x >= t)
    ensures t == 0.0 ==> Count(UploadLayer(layer, t), x => x != 0.0) == Count(AbsLayer(layer), x => x > t)
    decreases |layer|
  {
    if |layer| > 0 {
      var n := |layer| - 1;
      assert UploadLayer(layer, t)[..n] == UploadLayer(layer[..n], t);
      assert AbsLayer(layer)[..n] == AbsLayer(layer[..n]);
      NonZeroUploadLayer(layer[..n], t);
    }
  }

  lemma {:induction false} NonZeroUploadLayers(layers: seq<seq<real>>, t: real)
    requires 0.0 <= t
    ensures 0.0 < t ==>
              CountLayers(UploadLayers(layers, t), x => x != 0.0) == CountLayers(AbsLayers(layers), x => x >= t)
    ensures t == 0.0 ==>
              CountLayers(UploadLayers(layers, t), x => x != 0.0) == CountLayers(AbsLayers(layers), x => x > t)
    decreases |layers|
  {
    if |layers| > 0 {
      var n := |layers| - 1;
      assert UploadLayers(layers, t)[..n] == UploadLayers(layers[..n], t);
      assert AbsLayers(layers)[..n] == AbsLayers(layers[..n]);
      NonZeroUploadLayers(layers[..n], t);
      NonZeroUploadLayer(layers[n], t);
    }
  }

  /**
   * How many upload entries are non-zero.  With a positive threshold they are
   * exactly the selected coordinates, so there are at least k of them; with a
   * threshold of 0 every coordinate is selected but fewer than k are non-zero.
   */
  lemma {:induction false} NonZeroUploads(layers: seq<seq<real>>, k: nat, t: real)
    requires IsKthLargest(MagnitudeVector(layers), k, t)
    ensures 0.0 <= t
    ensures 0.0 < t ==> CountLayers(UploadLayers(layers, t), x => x != 0.0) == SelectedCount(layers, t)
    ensures 0.0 < t ==> k <= CountLayers(UploadLayers(layers, t), x => x != 0.0)
    ensures t == 0.0 ==> SelectedCount(layers, t) == Size(layers)
    ensures t == 0.0 ==> CountLayers(UploadLayers(layers, t), x => x != 0.0) < k
  {
    var i, j := FlattenEntry(AbsLayers(layers), t);
    assert 0.0 <= AbsLayers(layers)[i][j];
    NonZeroUploadLayers(layers, t);
    SelectedAtLeastK(layers, k, t);
    if t == 0.0 {
      var v := MagnitudeVector(layers);
      assert forall m :: 0 <= m < |v| ==> v[m] >= t by {
        forall m | 0 <= m < |v| ensures v[m] >= t {
          var p, q := FlattenEntry(AbsLayers(layers), v[m]);
          assert 0.0 <= AbsLayers(layers)[p][q];
        }
      }
      CountAll(v, x => x >= t);
      SelectedCountIsFlatCount(layers, t);
    }
  }

  /**
   * The outcome of a step depends only on the accumulated residual and k:
   * any two thresholds that are both the k-th largest magnitude give the
   * same upload and the same new residual.  No other input, in particular
   * not `isCompensate`, can change it.
   */
  lemma {:induction false} OutcomeDetermined(acc: seq<seq<real>>, k: nat, t1: real, t2: real)
    requires IsKthLargest(MagnitudeVector(acc), k, t1)
    requires IsKthLargest(MagnitudeVector(acc), k, t2)
    ensures UploadLayers(acc, t1) == UploadLayers(acc, t2)
    ensures KeptLayers(acc, t1) == KeptLayers(acc, t2)
  {
    KthLargestUnique(MagnitudeVector(acc), k, t1, t2);
  }

  // ---------------------------------------------------------------------
  // The step on arrays

  /** The values currently held by a list of layer arrays. */
  ghost function Contents(layers: seq<array<real>>): (c: seq<seq<real>>)
    reads layers
    ensures |c| == |layers|
    ensures forall i :: 0 <= i < |layers| ==> c[i] == layers[i][..]
  {
    seq(|layers|, i requires 0 <= i < |layers| reads layers => layers[i][..])
  }

  predicate Distinct(layers: seq<array<real>>)
  {
    forall i, j :: 0 <= i < j < |layers| ==> layers[i] != layers[j]
  }

  predicate ShapedLike(grad: seq<seq<real>>, layers: seq<array<real>>)
  {
    |grad| == |layers| && forall i :: 0 <= i < |grad| ==> |grad[i]| == layers[i].Length
  }

  /** Adds each gradient layer into the matching residual array, in place. */
  method Accumulate(residual: seq<array<real>>, grad: seq<seq<real>>)
    requires Distinct(residual) && ShapedLike(grad, residual)
    modifies residual
    ensures SameShape(old(Contents(residual)), grad)
    ensures Contents(residual) == AddLayers(old(Contents(residual)), grad)
  {
    ghost var before := Contents(residual);
    var idx := 0;
    while idx < |grad|
      invariant 0 <= idx <= |grad|
      invariant forall i :: 0 <= i < idx ==> residual[i][..] == AddLayer(before[i], grad[i])
      invariant forall i :: idx <= i < |residual| ==> residual[i][..] == before[i]
    {
      var layer := residual[idx];
      forall j | 0 <= j < layer.Length {
        layer[j] := layer[j] + grad[idx][j];
      }
      idx := idx + 1;
    }
  }

  /** The magnitudes of every layer and their concatenation in layer order. */
  method FlattenMagnitudes(residual: seq<array<real>>) returns (mags: seq<seq<real>>, vector: seq<real>)
    ensures mags == AbsLayers(Contents(residual))
    ensures vector == MagnitudeVector(Contents(residual))
  {
    mags, vector := [], [];
    var idx := 0;
    while idx < |residual|
      invariant 0 <= idx <= |residual|
      invariant mags == AbsLayers(Contents(residual)[..idx])
      invariant vector == Flatten(mags)
    {
      var layerAbs := AbsLayer(residual[idx][..]);
      assert (mags + [layerAbs])[..idx] == mags;
      mags := mags + [layerAbs];
      vector := vector + layerAbs;
      idx := idx + 1;
    }
    assert Contents(residual)[..idx] == Contents(residual);
  }

  /**
   * One layer of the selection: a zero array receives the coordinates whose
   * magnitude reaches the threshold, and those coordinates are zeroed in the
   * residual layer.
   */
  method MaskLayer(layer: array<real>, layerAbs: seq<real>, threshold: real) returns (up: array<real>)
    requires layerAbs == AbsLayer(layer[..])
    modifies layer
    ensures fresh(up)
    ensures up[..] == UploadLayer(old(layer[..]), threshold)
    ensures layer[..] == KeptLayer(old(layer[..]), threshold)
  {
    up := new real[layer.Length](_ => 0.0);
    forall j | 0 <= j < layer.Length && layerAbs[j] >= threshold {
      up[j] := up[j] + layer[j];
    }
    forall j | 0 <= j < layer.Length && layerAbs[j] >= threshold {
      layer[j] := 0.0;
    }
  }

  /** Selection over every layer, in layer order, collecting one fresh upload array per layer. */
  method MaskAndClear(residual: seq<array<real>>, mags: seq<seq<real>>, threshold: real)
      returns (upload: seq<array<real>>)
    requires Distinct(residual)
    requires mags == AbsLayers(Contents(residual))
    modifies residual
    ensures |upload| == |residual| && Distinct(upload)
    ensures forall i :: 0 <= i < |upload| ==> fresh(upload[i])
    ensures Contents(upload) == UploadLayers(old(Contents(residual)), threshold)
    ensures Contents(residual) == KeptLayers(old(Contents(residual)), threshold)
  {
    ghost var before := Contents(residual);
    upload := [];
    var idx := 0;
    while idx < |mags|
      invariant 0 <= idx <= |mags|
      invariant |upload| == idx && Distinct(upload)
      invariant forall i :: 0 <= i < idx ==> fresh(upload[i])
      invariant forall i :: 0 <= i < idx ==> upload[i][..] == UploadLayer(before[i], threshold)
      invariant forall i :: 0 <= i < idx ==> residual[i][..] == KeptLayer(before[i], threshold)
      invariant forall i :: idx <= i < |residual| ==> residual[i][..] == before[i]
    {
      var up := MaskLayer(residual[idx], mags[idx], threshold);
      upload := upload + [up];
      idx := idx + 1;
    }
  }

  /**
   * One step of residual-compensated Top-K selection.  `isCompensate` is
   * accepted and never read.  On success the residual arrays hold what was
   * not selected and the result holds one fresh upload array per layer; when
   * the budget exceeds the number of coordinates the selection raises, after
   * the gradient has already been added into the residual.
   */
  method GetUpload(residual: seq<array<real>>, grad: seq<seq<real>>, ratio: real, isCompensate: bool)
      returns (result: Result<seq<array<real>>>, ghost threshold: real)
    requires Distinct(residual) && ShapedLike(grad, residual)
    modifies residual
    ensures SameShape(old(Contents(residual)), grad)
    ensures var acc := AddLayers(old(Contents(residual)), grad);
            var k := CompressionNum(|MagnitudeVector(acc)|, ratio);
            && (result.Failure? <==> |MagnitudeVector(acc)| < k)
            && (result.Failure? ==> result.error == SelectionOutOfRange && Contents(residual) == acc)
            && (result.Success? ==>
                  && IsKthLargest(MagnitudeVector(acc), k, threshold)
                  && |result.value| == |residual| && Distinct(result.value)
                  && (forall i :: 0 <= i < |result.value| ==> fresh(result.value[i]))
                  && Contents(result.value) == UploadLayers(acc, threshold)
                  && Contents(residual) == KeptLayers(acc, threshold))
  {
    Accumulate(residual, grad);
    var mags, vector := FlattenMagnitudes(residual);
    var paramNum := |vector|;
    var k := CompressionNum(paramNum, ratio);
    if paramNum < k {
      result, threshold := Failure(SelectionOutOfRange), 0.0;
      return;
    }
    ghost var someKth := KthLargestExists(vector, k);
    var t :| t in vector && IsKthLargest(vector, k, t);
    var upload := MaskAndClear(residual, mags, t);
    result, threshold := Success(upload), t;
  }
}
