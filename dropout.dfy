/**
 * The dropout bridge: in training, every element of the input is either dropped
 * (set to 0) or kept and scaled by 1 / (1 - ratio), according to a 0/1 mask drawn
 * once when the bridge is built; in testing the input is copied unchanged.
 * Backward applies the training map to the output gradient, with the same mask.
 */
module Dropout {
  import opened Tensor
  import opened Layers

  // ---------------------------------------------------------------------------
  // The elementwise maps
  // ---------------------------------------------------------------------------

  /** The scale applied to kept elements: the inverse of the keep probability 1 - ratio. */
  function ScaleOf(ratio: real): (scale: real)
    requires ratio < 1.0
    ensures scale * (1.0 - ratio) == 1.0
    ensures scale > 0.0
    ensures 0.0 <= ratio ==> scale >= 1.0
  {
    var keep := 1.0 - ratio;
    assert keep * (1.0 / keep) == 1.0;
    1.0 / keep
  }

  /** A mask entry as the value it multiplies by: 1 for a kept element, 0 for a dropped one. */
  function Keep(kept: bool): real
  {
    if kept then 1.0 else 0.0
  }

  /** The training map: element i is x[i] * mask[i] * scale. */
  function Masked(x: seq<real>, mask: seq<bool>, scale: real): (r: seq<real>)
    requires |x| == |mask|
    ensures |r| == |x|
    ensures forall i :: 0 <= i < |x| && mask[i] ==> r[i] == x[i] * scale
    ensures forall i :: 0 <= i < |x| && !mask[i] ==> r[i] == 0.0
  {
    seq(|x|, (i: int) requires 0 <= i < |x| => x[i] * Keep(mask[i]) * scale)
  }

  /** The output of forward: the training map in training, the input itself in testing. */
  function ForwardOutput(train: bool, x: seq<real>, mask: seq<bool>, scale: real): (r: seq<real>)
    requires |x| == |mask|
    ensures |r| == |x|
    ensures !train ==> r == x
    ensures train ==> r == Masked(x, mask, scale)
  {
    if train then Masked(x, mask, scale) else x
  }

  /** The input gradient backward computes from the output gradient dy. */
  function BackwardGrad(dy: seq<real>, mask: seq<bool>, scale: real): (r: seq<real>)
    requires |dy| == |mask|
    ensures |r| == |dy|
  {
    Masked(dy, mask, scale)
  }

  // ---------------------------------------------------------------------------
  // Properties of the maps
  // ---------------------------------------------------------------------------

  /**
   * The training map is its own adjoint: <Masked(x), y> = <x, Masked(y)>. So the
   * gradient backward computes is the gradient of <forward(x), dy> in x.
   */
  lemma BackwardIsAdjoint(x: seq<real>, dy: seq<real>, mask: seq<bool>, scale: real)
    requires |x| == |dy| == |mask|
    ensures Dot(ForwardOutput(true, x, mask, scale), dy) == Dot(x, BackwardGrad(dy, mask, scale))
  {
    var y, g := Masked(x, mask, scale), Masked(dy, mask, scale);
    forall i: nat | i < |x|
      ensures Products(y, dy)(i) == Products(x, g)(i)
    {
      var a, b, k := x[i], dy[i], Keep(mask[i]);
      assert a * k * scale * b == a * (b * k * scale);
    }
    SumExt(|x|, Products(y, dy), Products(x, g));
  }

  /** With ratio 0 and every element kept, training forward is the identity. */
  lemma ZeroRatioIsIdentity(x: seq<real>, mask: seq<bool>)
    requires |x| == |mask| && forall i :: 0 <= i < |mask| ==> mask[i]
    ensures ForwardOutput(true, x, mask, ScaleOf(0.0)) == x
  {
    assert ScaleOf(0.0) == 1.0;
  }

  /**
   * Applying the training map twice with the same mask keeps the same elements and
   * scales them twice: the dropped set does not change between calls.
   */
  lemma MaskedTwice(x: seq<real>, mask: seq<bool>, scale: real)
    requires |x| == |mask|
    ensures Masked(Masked(x, mask, scale), mask, scale) == Masked(x, mask, scale * scale)
  {
    var y := Masked(x, mask, scale);
    forall i | 0 <= i < |x|
      ensures Masked(y, mask, scale)[i] == Masked(x, mask, scale * scale)[i]
    {
      if mask[i] {
        assert x[i] * scale * scale == x[i] * (scale * scale);
      }
    }
  }

  // ---------------------------------------------------------------------------
  // The elementwise passes over buffers
  // ---------------------------------------------------------------------------

  /**
   * The training map over buffers, one element at a time: dst[i] := src[i] *
   * mask[i] * scale. The two buffers may be the same one.
   */
  method MapMasked(src: array<real>, dst: array<real>, mask: seq<bool>, scale: real)
    requires src.Length == dst.Length == |mask|
    modifies dst
    ensures dst[..] == Masked(old(src[..]), mask, scale)
  {
    var i := 0;
    while i < dst.Length
      invariant 0 <= i <= dst.Length
      invariant forall j :: 0 <= j < i ==> dst[j] == old(src[j]) * Keep(mask[j]) * scale
      invariant forall j :: i <= j < src.Length ==> src[j] == old(src[j])
    {
      dst[i] := src[i] * Keep(mask[i]) * scale;
      i := i + 1;
    }
    assert forall j :: 0 <= j < dst.Length ==> dst[..][j] == Masked(old(src[..]), mask, scale)[j];
  }

  /** The test map over buffers: dst[i] := src[i]. The two buffers may be the same one. */
  method MapCopy(src: array<real>, dst: array<real>)
    requires src.Length == dst.Length
    modifies dst
    ensures dst[..] == old(src[..])
  {
    var i := 0;
    while i < dst.Length
      invariant 0 <= i <= dst.Length
      invariant forall j :: 0 <= j < i ==> dst[j] == old(src[j])
      invariant forall j :: i <= j < src.Length ==> src[j] == old(src[j])
    {
      dst[i] := src[i];
      i := i + 1;
    }
  }

  // ---------------------------------------------------------------------------
  // The bridge
  // ---------------------------------------------------------------------------

  /** The device the bridge runs its maps on. Only the host CPU is supported. */
  datatype Driver = CPUDriver | DeviceDriver

  /** How a pass ended: done, or stopped at the failing assertion of a non-CPU driver. */
  datatype Status = Done | Aborted

  class DropoutBridge {
    const input: Layer
    const output: Layer
    const ratio: real
    const scale: real
    const mask: seq<bool>
    const driver: Driver

    predicate Valid()
    {
      input.Valid() && output.Valid() &&
      input.dataCube.shape == output.dataCube.shape &&
      |mask| == input.dataCube.shape.Count() &&
      ratio < 1.0 && scale == ScaleOf(ratio)
    }

    /**
     * Builds the bridge: the output has the input's shape, the ratio is below 1
     * and, unless the bridge is built for snapshots, above 0. The mask holds one
     * keep flag per input element, drawn once here and never changed.
     */
    constructor(input: Layer, output: Layer, ratio: real, snapshot: bool, mask: seq<bool>, driver: Driver)
      requires input.Valid() && output.Valid()
      requires input.dataCube.shape == output.dataCube.shape
      requires snapshot || ratio > 0.0
      requires ratio < 1.0
      requires |mask| == input.dataCube.shape.Count()
      ensures Valid()
      ensures this.input == input && this.output == output && this.ratio == ratio
      ensures this.mask == mask && this.driver == driver
      ensures scale * (1.0 - ratio) == 1.0
    {
      this.input := input;
      this.output := output;
      this.ratio := ratio;
      this.driver := driver;
      scale := ScaleOf(ratio);
      this.mask := mask;
    }

    /**
     * Forward: in training, output data := Masked(input data); in testing, a copy
     * of the input data. A driver other than the CPU stops with Aborted and leaves
     * the host output unchanged.
     */
    method Forward(train: bool) returns (status: Status)
      requires Valid()
      modifies output.dataCube.data
      ensures driver.CPUDriver? ==>
        status == Done &&
        output.dataCube.data[..] == ForwardOutput(train, old(input.dataCube.data[..]), mask, scale)
      ensures driver.DeviceDriver? ==> status == Aborted && unchanged(output.dataCube.data)
    {
      if !driver.CPUDriver? {
        return Aborted;
      }
      if train {
        MapMasked(input.dataCube.data, output.dataCube.data, mask, scale);
      } else {
        MapCopy(input.dataCube.data, output.dataCube.data);
      }
      status := Done;
    }

    /**
     * Backward: input gradient := Masked(output gradient), with the mask and scale
     * of forward, whatever the phase. A driver other than the CPU stops with
     * Aborted and leaves the host input gradient unchanged.
     */
    method Backward() returns (status: Status)
      requires Valid()
      modifies input.gradientCube.data
      ensures driver.CPUDriver? ==>
        status == Done &&
        input.gradientCube.data[..] == BackwardGrad(old(output.gradientCube.data[..]), mask, scale)
      ensures driver.DeviceDriver? ==> status == Aborted && unchanged(input.gradientCube.data)
    {
      if !driver.CPUDriver? {
        return Aborted;
      }
      MapMasked(output.gradientCube.data, input.gradientCube.data, mask, scale);
      status := Done;
    }
  }
}
