/**
 * A list of parameter-shaped tensors, each seen as the flat sequence of its
 * coordinates, and the single vector obtained by concatenating them in layer
 * order (what repeated `torch.cat` of reshaped layers builds).
 */
module Layers {
  import opened OrderStatistic

  function Abs(x: real): (a: real)
    ensures 0.0 <= a && (a == x || a == -x)
  {
    if x < 0.0 then -x else x
  }

  predicate SameShape(a: seq<seq<real>>, b: seq<seq<real>>)
  {
    |a| == |b| && forall i :: 0 <= i < |a| ==> |a[i]| == |b[i]|
  }

  /** Elementwise absolute value of one layer (`torch.abs`). */
  function AbsLayer(layer: seq<real>): (m: seq<real>)
    ensures |m| == |layer|
    ensures forall j :: 0 <= j < |m| ==> 0.0 <= m[j]
  {
    seq(|layer|, j requires 0 <= j < |layer| => Abs(layer[j]))
  }

  function AbsLayers(layers: seq<seq<real>>): (m: seq<seq<real>>)
    ensures SameShape(m, layers)
  {
    seq(|layers|, i requires 0 <= i < |layers| => AbsLayer(layers[i]))
  }

  /** Elementwise sum of two layers of the same length (`+=` on a tensor). */
  function AddLayer(a: seq<real>, b: seq<real>): (s: seq<real>)
    requires |a| == |b|
    ensures |s| == |a|
  {
    seq(|a|, j requires 0 <= j < |a| => a[j] + b[j])
  }

  function AddLayers(a: seq<seq<real>>, b: seq<seq<real>>): (s: seq<seq<real>>)
    requires SameShape(a, b)
    ensures SameShape(s, a)
  {
    seq(|a|, i requires 0 <= i < |a| => AddLayer(a[i], b[i]))
  }

  /** Total number of coordinates across all layers (the sum of `numel`). */
  function Size(layers: seq<seq<real>>): nat
  {
    if |layers| == 0 then 0 else Size(layers[..|layers| - 1]) + |layers[|layers| - 1]|
  }

  /** All coordinates of all layers, in layer order. */
  function Flatten(layers: seq<seq<real>>): (v: seq<real>)
    ensures |v| == Size(layers)
  {
    if |layers| == 0 then [] else Flatten(layers[..|layers| - 1]) + layers[|layers| - 1]
  }

  lemma {:induction false} SizeSameShape(a: seq<seq<real>>, b: seq<seq<real>>)
    requires SameShape(a, b)
    ensures Size(a) == Size(b)
    decreases |a|
  {
    if |a| > 0 {
      SizeSameShape(a[..|a| - 1], b[..|b| - 1]);
    }
  }

  /**
   * Coordinate j of layer i sits at logical offset Size(layers[..i]) + j of
   * the flattened vector.
   */
  lemma {:induction false} FlattenAt(layers: seq<seq<real>>, i: nat, j: nat)
    requires i < |layers| && j < |layers[i]|
    ensures Size(layers[..i]) + j < Size(layers)
    ensures Flatten(layers)[Size(layers[..i]) + j] == layers[i][j]
    decreases |layers|
  {
    var front := layers[..|layers| - 1];
    if i == |layers| - 1 {
      assert layers[..i] == front;
    } else {
      assert front[..i] == layers[..i];
      FlattenAt(front, i, j);
    }
  }

  /** Every entry of the flattened vector is some coordinate of some layer. */
  lemma {:induction false} FlattenEntry(layers: seq<seq<real>>, x: real) returns (i: nat, j: nat)
    requires x in Flatten(layers)
    ensures i < |layers| && j < |layers[i]| && layers[i][j] == x
    decreases |layers|
  {
    var front := layers[..|layers| - 1];
    var last := layers[|layers| - 1];
    if x in Flatten(front) {
      i, j := FlattenEntry(front, x);
    } else {
      var p :| 0 <= p < |Flatten(layers)| && Flatten(layers)[p] == x;
      i, j := |layers| - 1, p - |Flatten(front)|;
    }
  }

  /** Counting over the flattened vector is counting layer by layer. */
  function CountLayers(layers: seq<seq<real>>, p: real -> bool): nat
  {
    if |layers| == 0 then 0 else CountLayers(layers[..|layers| - 1], p) + Count(layers[|layers| - 1], p)
  }

  lemma {:induction false} CountFlatten(layers: seq<seq<real>>, p: real -> bool)
    ensures Count(Flatten(layers), p) == CountLayers(layers, p)
    decreases |layers|
  {
    if |layers| > 0 {
      var front := layers[..|layers| - 1];
      CountFlatten(front, p);
      CountConcat(Flatten(front), layers[|layers| - 1], p);
    }
  }
}
