# Residual-compensated Top-K gradient sparsification

This project models the worker-side compression step of a parameter-server
trainer. After every backward pass the worker adds the new per-layer
gradient (`delta_ws`) into a per-layer residual (`g_remain`). It then flattens
the magnitudes of all layers into one vector. It takes the k-th largest
magnitude as a threshold, with k = `int(param_num * ratio)` raised to 1 when
it is not positive. Every coordinate whose magnitude reaches the threshold is
copied into a fresh upload tensor and zeroed in the residual. Everything else
stays in the residual and is carried over to later steps. At start-up the
worker also reports the realised ratio `compression_num / param_num` to the
server.

The model is organised as follows:

- `errors.dfy` holds the two ways the modelled code raises:
  - `torch.topk` is asked for more elements than exist;
  - the reported ratio divides by a zero parameter count.
- `budget.dfy` holds the budget k (`compression_num`), Python's truncating
  `int()` on a float, and the reported ratio.
- `order_statistic.dfy` specifies the threshold that `torch.topk(v, k)[0][k-1]`
  returns, as the k-th largest entry of v:
  - fewer than k entries lie strictly above it;
  - at least k entries lie at or above it.

  It proves that this entry exists when 1 <= k <= |v| and that it is unique.
  It also proves that it is entry k - 1 of any descending rearrangement of v.
- `layers.dfy` models the list of layer tensors as sequences of reals. It
  defines element-wise addition, absolute values, flattening in layer order,
  and counting over all layers.
- `topk.dfy` holds one step.
  - It defines the upload and the new residual as functions of the
    accumulated residual and the threshold, and proves lemmas about them.
  - The method `GetUpload` does the step on arrays: it updates the residual
    arrays in place and allocates the upload arrays. It is proved to produce
    exactly those functions' values.
- `scenarios.dfy` holds worked examples with literal values. `FirstStep` and
  `SecondStep` drive `GetUpload` for two consecutive steps.

Numbers are exact reals. The gradient is an immutable snapshot. The residual
is a list of distinct arrays, one per layer.

One might expect the upload to have at least k non-zero entries, at exactly
the selected coordinates. The code guarantees this only when the threshold is
positive. The mask selects at least k *coordinates*, but a selected coordinate
whose accumulated value is 0 uploads a 0. `TopK.NonZeroUploads` proves both
sides:

- with a positive threshold, the non-zero uploads are exactly the selected
  coordinates, so there are at least k of them;
- with a threshold of 0, every coordinate is selected but fewer than k upload
  entries are non-zero.

`Scenarios.ZeroThresholdUploadsZeros` shows the second case with scalars
[3, 0, 0] and k = 2. The model follows the code.

## Model

| member | source | states |
|---|---|---|
| Budget.Truncate | TopK_R/learner.py:58 | `int()` of a float truncates toward zero: floor for non-negative arguments, ceiling for negative ones |
| Budget.CompressionNum | TopK_R/learner.py:57-59 | k >= 1; k == 1 when n*ratio < 1; otherwise k is the integer part of n*ratio |
| Budget.CompressionNumWithinCount | TopK_R/learner.py:57-60 | with at least one coordinate and 0 <= ratio <= 1, k <= n, so the top-k request is in range |
| Budget.CompressionNumCanExceedCount | TopK_R/learner.py:57-60 | a ratio with n*ratio >= n+1 asks for more than n coordinates |
| Budget.ReportedRatio | TopK_R/learner.py:89-91 | fails with a division by zero exactly when the parameter count is 0; otherwise value * n == compression_num, the value is positive, it is 1/n when n*ratio < 1, and it is at most the configured ratio otherwise |
| Budget.ReportedRatioInUnitInterval | TopK_R/learner.py:89-91 | with n >= 1 and 0 <= ratio <= 1 the reported ratio succeeds and lies in (0, 1] |
| OrderStatistic.IsKthLargest | TopK_R/learner.py:60-61 | definition of the threshold `topk(v, k)[0][k-1]`: an entry of v with fewer than k entries strictly above it and at least k at or above it |
| OrderStatistic.KthLargestInRange | TopK_R/learner.py:60-61 | a k-th largest entry exists only when 1 <= k <= |v|, the range in which `topk` succeeds |
| OrderStatistic.KthLargestExists | TopK_R/learner.py:60-61 | for 1 <= k <= |v| some entry of v is the k-th largest |
| OrderStatistic.KthLargestUnique | TopK_R/learner.py:60-61 | the k-th largest entry is unique, so the threshold is determined by v and k |
| OrderStatistic.FirstLargestIsMaximum | TopK_R/learner.py:60-61 | with k = 1 the threshold is exactly the maximum |
| OrderStatistic.DescendingSortPositionIsKth | TopK_R/learner.py:60-61 | entry k-1 of any descending rearrangement of v (what `topk(v, k)[0][k-1]` reads) is the k-th largest |
| OrderStatistic.CountPermutation | TopK_R/learner.py:60 | counts of entries meeting a condition do not depend on the order of the vector |
| Layers.AbsLayer | TopK_R/learner.py:52 | `torch.abs` of one layer keeps its length and has only non-negative entries |
| Layers.AddLayer | TopK_R/learner.py:47 | the elementwise sum `+=` of two layers of equal length keeps that length |
| Layers.AddLayers | TopK_R/learner.py:46-47 | adding the gradient layer by layer keeps the residual's shape |
| Layers.Size | TopK_R/learner.py:57 | definition of the total coordinate count, the sum of `numel` over the layers (as at lines 82-84) |
| Layers.Abs | TopK_R/learner.py:52 | the magnitude is non-negative and equals x or -x |
| Layers.AbsLayers | TopK_R/learner.py:50-53 | the per-layer magnitudes have the shape of the layers |
| Layers.Flatten | TopK_R/learner.py:49-55 | the concatenation in layer order has as many entries as all layers together |
| Layers.FlattenAt | TopK_R/learner.py:54-55 | entry j of layer i sits at offset (sizes of layers before i) + j of the flat vector |
| Layers.FlattenEntry | TopK_R/learner.py:54-55 | every entry of the flat vector is some entry of some layer |
| Layers.CountFlatten | TopK_R/learner.py:54-65 | counting over the flat vector equals counting layer by layer |
| Layers.SizeSameShape | TopK_R/learner.py:46-57 | layer lists of the same shape have the same total count |
| TopK.UploadLayer | TopK_R/learner.py:66-67 | the upload of a layer has the layer's length |
| TopK.KeptLayer | TopK_R/learner.py:68 | the new residual of a layer has the layer's length |
| TopK.UploadLayers | TopK_R/learner.py:63-69 | the upload has the same shape as the residual |
| TopK.KeptLayers | TopK_R/learner.py:63-69 | the new residual has the same shape as before |
| TopK.MagnitudeVector | TopK_R/learner.py:49-57 | `g_remain_abs_vector`, whose length `param_num` is the total number of coordinates |
| TopK.SelectedCount | TopK_R/learner.py:64-65 | the total size of the per-layer masks, never more than the number of coordinates |
| TopK.StepBudgetIsStartupBudget | TopK_R/learner.py:57-59 | the k of every step equals the start-up `compression_num` for the same shapes (lines 89-90), and k <= n for ratios in [0, 1] |
| TopK.StepConservation | TopK_R/learner.py:63-69 | upload + new residual == accumulated residual, coordinate by coordinate |
| TopK.StepConservesMass | TopK_R/learner.py:45-71 | old residual + gradient == new residual + upload |
| TopK.SelectedCountIsFlatCount | TopK_R/learner.py:49-65 | the per-layer masks together select exactly the flat-vector entries at or above the threshold |
| TopK.SelectedAtLeastK | TopK_R/learner.py:57-65 | at least k coordinates are selected, and fewer than k lie strictly above the threshold, so any excess over k is ties |
| TopK.NonZeroUploads | TopK_R/learner.py:57-67 | the threshold is non-negative; if it is positive, the non-zero upload entries are exactly the selected coordinates, so there are at least k; if it is 0, every coordinate is selected and fewer than k upload entries are non-zero |
| TopK.LargestSelected | TopK_R/learner.py:60-68 | a largest-magnitude coordinate is always uploaded whole and zeroed in the residual |
| TopK.ThresholdIsSortPosition | TopK_R/learner.py:60-61 | the threshold is entry k-1 of the magnitudes in descending order, and 1 <= k <= n |
| TopK.AllSelectedUploadsEverything | TopK_R/learner.py:65-68 | when every magnitude reaches the threshold, the upload is the whole residual and the residual becomes zero |
| TopK.SelectedDominateKept | TopK_R/learner.py:65-68 | every non-zero uploaded coordinate has a strictly larger magnitude than every non-zero coordinate left behind |
| TopK.UploadOrKeep | TopK_R/learner.py:65-68 | each coordinate is either uploaded with the residual zeroed, or kept with nothing uploaded, according to its magnitude against the threshold |
| TopK.SkippedCoordinateGrows | TopK_R/learner.py:46-68 | a coordinate that is not selected keeps old residual + gradient and uploads 0; with agreeing signs its magnitude does not shrink |
| TopK.OutcomeDetermined | TopK_R/learner.py:45-71 | any two valid thresholds give the same upload and residual, so the step depends only on residual, gradient and ratio (`isCompensate` is never read) |
| TopK.Accumulate | TopK_R/learner.py:46-47 | each residual array becomes its old contents plus the matching gradient layer, in place |
| TopK.FlattenMagnitudes | TopK_R/learner.py:49-55 | returns the per-layer magnitudes and their concatenation in layer order, without changing anything |
| TopK.MaskLayer | TopK_R/learner.py:65-69 | a fresh array equal to the layer's upload, with the layer itself zeroed exactly at the selected coordinates |
| TopK.MaskAndClear | TopK_R/learner.py:63-70 | one fresh upload array per layer equal to the upload, with the residual arrays left holding the new residual |
| TopK.GetUpload | TopK_R/learner.py:45-71 | if k exceeds the coordinate count, it fails after accumulating; otherwise the threshold is the k-th largest accumulated magnitude, the result is fresh arrays holding the upload, and the residual arrays hold the new residual |
| Scenarios.SingleLargestUploaded | TopK_R/learner.py:45-71 | scalars [1, -2, 0.5, 0.1] with ratio 0.25: k = 1, threshold 2, only -2 is uploaded |
| Scenarios.ResidualCatchesUp | TopK_R/learner.py:45-71 | the next gradient [0, 0, 0, 2] makes the kept 0.1 grow to 2.1, which is then uploaded |
| Scenarios.TiesSelectMoreThanK | TopK_R/learner.py:60-67 | with k = 1 and magnitudes tied at 2, both coordinates are selected and uploaded |
| Scenarios.ZeroRatioStillSendsOne | TopK_R/learner.py:58-59 | a ratio of 0 still selects one coordinate |
| Scenarios.ZeroThresholdUploadsZeros | TopK_R/learner.py:57-67 | with scalars [3, 0, 0] and k = 2 the threshold is 0, all three coordinates are selected, and only one uploaded entry is non-zero |
| Scenarios.FirstStep | TopK_R/learner.py:45-71 | on a zero residual of four scalar layers, the step uploads [0, -2, 0, 0] and leaves [1, 0, 0.5, 0.1] |
| Scenarios.SecondStep | TopK_R/learner.py:45-71 | from that residual, the gradient [0, 0, 0, 2] uploads [0, 0, 0, 2.1] and leaves [1, 0, 0.5, 0] |

## Left out

- The distributed exchange (`dist.scatter`, `dist.gather`, process groups, lines 78-91 and 146-153) is left out. Only the scalar that is gathered, the reported ratio, is modelled.
- The training loop, the optimizer, learning-rate decay, loss functions, logging, timing and the command-line, dataset and process set-up are left out. They are outside the compression step.
- Floating point is not modelled: values are exact reals, so rounding in the accumulation and in `param_num * ratio` is not captured.
- `torch.topk` and `torch.cat` are modelled by what they return (the k-th largest entry, concatenation in layer order), not by how they compute it.
- The gradient is a value snapshot. Aliasing between the gradient tensors and the residual arrays is excluded by the model, as is aliasing among the residual arrays (`Distinct`).
- Mismatched layer shapes and PyTorch broadcasting are excluded by a precondition. In the trainer, the residual is created with the parameters' shapes.
- TopK.GetUpload: returns only the upload. The source also returns `g_remain`, but that is the caller's own list, whose arrays the method updates in place.
- TopK.SkippedCoordinateGrows: proves the starvation bound only for one step and only under agreeing signs. It does not prove eventual selection over several steps, because that depends on the sign of future gradients.
