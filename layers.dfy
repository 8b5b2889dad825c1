/**
 * Cubes and layers: the buffers the bridges read and write in place.
 */
module Layers {
  import opened Tensor

  /** A cube: its shape and the buffer holding its elements in CRDB order. */
  class Cube {
    const shape: Shape
    const data: array<real>

    predicate Valid()
    {
      data.Length == shape.Count()
    }

    /** Allocates a fresh buffer for a cube of the given shape. */
    constructor(shape: Shape)
      ensures this.shape == shape && fresh(data) && Valid()
    {
      this.shape := shape;
      data := new real[shape.Count()];
    }
  }

  /** A layer: a data cube and a gradient cube of the same shape, in separate buffers. */
  class Layer {
    const dataCube: Cube
    const gradientCube: Cube

    predicate Valid()
    {
      dataCube.Valid() && gradientCube.Valid() &&
      dataCube.shape == gradientCube.shape && dataCube.data != gradientCube.data
    }

    constructor(dataCube: Cube, gradientCube: Cube)
      requires dataCube.Valid() && gradientCube.Valid()
      requires dataCube.shape == gradientCube.shape && dataCube.data != gradientCube.data
      ensures this.dataCube == dataCube && this.gradientCube == gradientCube && Valid()
    {
      this.dataCube := dataCube;
      this.gradientCube := gradientCube;
    }
  }

  /** Overwrites a buffer with the given contents. */
  method Store(a: array<real>, s: seq<real>)
    requires a.Length == |s|
    modifies a
    ensures a[..] == s
  {
    forall i | 0 <= i < a.Length {
      a[i] := s[i];
    }
  }
}
