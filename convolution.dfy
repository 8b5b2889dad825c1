/**
 * The convolution bridge with lowering type 1: forward lowers the input cube,
 * multiplies the model matrix with it, applies the nonlinearity and remaps the
 * product into the output cube; backward computes the input gradient through
 * the transposed model matrix and inverse lowering, and updates the model in
 * place by one gradient-descent step.
 */
module Convolution {
  import opened Tensor
  import opened Kernels
  import opened Lowering
  import opened Layers

  // ---------------------------------------------------------------------------
  // Sizes
  // ---------------------------------------------------------------------------

  /** The element counts of the cubes and matrices of one geometry, as the bridge multiplies them out. */
  lemma Sizes(g: Geometry)
    ensures OutputShape(g).Count() == g.mB * LoweredCols(g)
    ensures Shape(1, Positions(g), g.mB, g.iB).Count() == g.mB * LoweredCols(g)
    ensures Shape(1, Positions(g), g.iB, g.mB).Count() == g.mB * LoweredCols(g)
    ensures ModelShape(g).Count() == g.mB * LoweredRows(g)
  {
    var R, C := OutRows(g), OutCols(g);
    assert OutputShape(g).Count() == R * C * g.mB * g.iB;
    assert g.mB * LoweredCols(g) == g.mB * (R * C * 1 * g.iB);
  }

  // Single facts of Sizes, for the length clauses of the functions below.

  lemma OutputSize(g: Geometry)
    ensures OutputShape(g).Count() == g.mB * LoweredCols(g)
  {
    Sizes(g);
  }

  lemma RemapSize(g: Geometry)
    ensures Shape(1, Positions(g), g.mB, g.iB).Count() == OutputShape(g).Count()
  {
    Sizes(g);
  }

  lemma GradSize(g: Geometry)
    ensures Shape(1, Positions(g), g.iB, g.mB).Count() == g.mB * LoweredCols(g)
  {
    Sizes(g);
  }

  lemma ModelSize(g: Geometry)
    ensures ModelShape(g).Count() == g.mB * LoweredRows(g)
  {
    Sizes(g);
  }

  // ---------------------------------------------------------------------------
  // Forward: the specification
  // ---------------------------------------------------------------------------

  /** The lowered output: model matrix (mB x K) times lowered input (K x N), grouped by channel. */
  function LoweredOutput(g: Geometry, x: seq<real>, m: seq<real>): (r: seq<real>)
    ensures |r| == g.mB * LoweredCols(g) == OutputShape(g).Count()
  {
    OutputSize(g);
    MatMul(NoTransNoTrans, g.mB, LoweredCols(g), LoweredRows(g), m, Lower(g, x))
  }

  /** The output cube forward produces from input cube x and model cube m. */
  function ForwardOutput(g: Geometry, func: NonLinearFunction, x: seq<real>, m: seq<real>): (r: seq<real>)
    ensures |r| == OutputShape(g).Count()
  {
    RemapSize(g);
    Remap(g.mB, g.iB, Positions(g), Apply(func, LoweredOutput(g, x, m)))
  }

  /**
   * The terms of the direct convolution at output (i, j, o, b): for window position
   * l = (kr, kc, d), weight (kr, kc, d) of kernel o times input element
   * (i + kr, j + kc, d, b).
   */
  function ConvTerms(g: Geometry, x: seq<real>, m: seq<real>, i: nat, j: nat, o: nat, b: nat): nat -> real
  {
    (l: nat) => ConvTerm(g, x, m, i, j, o, b, CoordOf(WindowShape(g), l))
  }

  /** The term of window position w = (kr, kc, d). */
  function ConvTerm(g: Geometry, x: seq<real>, m: seq<real>, i: nat, j: nat, o: nat, b: nat, w: Coord): real
  {
    At(m, Offset(ModelShape(g), Coord(w.r, w.c, w.d, o))) *
    At(x, Offset(InputShape(g), Coord(i + w.r, j + w.c, w.d, b)))
  }

  /** The direct (valid, stride 1) convolution of input x with kernel o of m at output (i, j) of image b. */
  function Convolve(g: Geometry, x: seq<real>, m: seq<real>, i: nat, j: nat, o: nat, b: nat): real
  {
    Sum(LoweredRows(g), ConvTerms(g, x, m, i, j, o, b))
  }

  // Offset identities between the output cube, the remap blocks and the lowered matrices.

  lemma OutputOffset(R: nat, C: nat, O: nat, B: nat, i: nat, j: nat, o: nat, b: nat)
    ensures Offset(Shape(R, C, O, B), Coord(i, j, o, b))
         == Offset(Shape(1, R * C, O, B), Coord(0, i * C + j, o, b))
  {
    var t := b * O + o;
    assert (t * R + i) * C == t * (R * C) + i * C;
  }

  lemma ProductOffset(R: nat, C: nat, O: nat, B: nat, i: nat, j: nat, o: nat, b: nat)
    ensures Offset(Shape(1, R * C, B, O), Coord(0, i * C + j, b, o))
         == o * Shape(R, C, 1, B).Count() + Offset(Shape(R, C, 1, B), Coord(i, j, 0, b))
  {
    assert (o * B + b) * (R * C) == o * (R * C * 1 * B) + b * R * C;
    assert (b * R + i) * C == b * R * C + i * C;
  }

  lemma ModelOffset(k: nat, D: nat, O: nat, w: Coord, o: nat)
    requires w.b == 0
    ensures Offset(Shape(k, k, D, O), Coord(w.r, w.c, w.d, o))
         == o * Shape(k, k, D, 1).Count() + Offset(Shape(k, k, D, 1), w)
  {
    assert (o * D + w.d) * k == o * D * k + w.d * k;
    assert (o * D * k + w.d * k + w.r) * k == o * (k * k * D * 1) + (w.d * k + w.r) * k;
  }

  /** Term l of the lowered product at (o, n) is term l of the direct convolution. */
  lemma ConvTermAt(g: Geometry, x: seq<real>, m: seq<real>, i: nat, j: nat, o: nat, b: nat, l: nat)
    requires i < OutRows(g) && j < OutCols(g) && b < g.iB && l < LoweredRows(g)
    ensures ProductTerms(NoTransNoTrans, m, Lower(g, x), g.mB, LoweredRows(g), LoweredCols(g),
                         o, Offset(PositionShape(g), Coord(i, j, 0, b)))(l)
         == ConvTerms(g, x, m, i, j, o, b)(l)
  {
    var K, N, n := LoweredRows(g), LoweredCols(g), Offset(PositionShape(g), Coord(i, j, 0, b));
    var w := CoordOf(WindowShape(g), l);
    WindowFactors(g, x, m, i, j, o, b, l);
    ProductTermAt(m, Lower(g, x), g.mB, K, N, o, n, l);
    MulBoth(At(m, o * K + l), At(m, Offset(ModelShape(g), Coord(w.r, w.c, w.d, o))),
      At(Lower(g, x), l * N + n), At(x, Offset(InputShape(g), Coord(i + w.r, j + w.c, w.d, b))));
    assert ConvTerms(g, x, m, i, j, o, b)(l) == ConvTerm(g, x, m, i, j, o, b, w);
  }

  /**
   * The two factors of term l: the model entry at row o, column l of the model
   * matrix, and the lowered entry at row l, column (i, j, b).
   */
  lemma WindowFactors(g: Geometry, x: seq<real>, m: seq<real>, i: nat, j: nat, o: nat, b: nat, l: nat)
    requires i < OutRows(g) && j < OutCols(g) && b < g.iB && l < LoweredRows(g)
    ensures var w := CoordOf(WindowShape(g), l);
      o * LoweredRows(g) + l == Offset(ModelShape(g), Coord(w.r, w.c, w.d, o)) &&
      At(Lower(g, x), l * LoweredCols(g) + Offset(PositionShape(g), Coord(i, j, 0, b)))
        == At(x, Offset(InputShape(g), Coord(i + w.r, j + w.c, w.d, b)))
  {
    OffsetOfCoord(WindowShape(g), l);
    var w := CoordOf(WindowShape(g), l);
    LowerAt(g, x, w, Coord(i, j, 0, b));
    ModelIndex(g, w, o, l);
  }

  lemma ModelIndex(g: Geometry, w: Coord, o: nat, l: nat)
    requires w.b == 0 && Offset(WindowShape(g), w) == l
    ensures o * LoweredRows(g) + l == Offset(ModelShape(g), Coord(w.r, w.c, w.d, o))
  {
    ModelOffset(g.k, g.iD, g.mB, w, o);
  }


  /** Entry (o, n) of the lowered output is the direct convolution at output position n of channel o. */
  lemma LoweredOutputAt(g: Geometry, x: seq<real>, m: seq<real>, i: nat, j: nat, o: nat, b: nat)
    requires InShape(OutputShape(g), Coord(i, j, o, b))
    ensures o * LoweredCols(g) + Offset(PositionShape(g), Coord(i, j, 0, b)) < |LoweredOutput(g, x, m)|
    ensures LoweredOutput(g, x, m)[o * LoweredCols(g) + Offset(PositionShape(g), Coord(i, j, 0, b))]
         == Convolve(g, x, m, i, j, o, b)
  {
    var n := Offset(PositionShape(g), Coord(i, j, 0, b));
    OffsetInRange(PositionShape(g), Coord(i, j, 0, b));
    GemmAt(GemmKernel(NoTransNoTrans, 1.0, 0.0), g.mB, LoweredCols(g), LoweredRows(g), m, Lower(g, x), [], o, n);
    forall l: nat | l < LoweredRows(g)
      ensures ProductTerms(NoTransNoTrans, m, Lower(g, x), g.mB, LoweredRows(g), LoweredCols(g), o, n)(l)
           == ConvTerms(g, x, m, i, j, o, b)(l)
    {
      ConvTermAt(g, x, m, i, j, o, b, l);
    }
    SumExt(LoweredRows(g), ProductTerms(NoTransNoTrans, m, Lower(g, x), g.mB, LoweredRows(g), LoweredCols(g), o, n),
      ConvTerms(g, x, m, i, j, o, b));
  }

  /**
   * Forward computes the convolution: output element (i, j, o, b) is the
   * nonlinearity applied to the direct convolution of image b with kernel o at (i, j).
   */
  lemma ForwardIsConvolution(g: Geometry, func: NonLinearFunction, x: seq<real>, m: seq<real>,
                             i: nat, j: nat, o: nat, b: nat)
    requires InShape(OutputShape(g), Coord(i, j, o, b))
    ensures Offset(OutputShape(g), Coord(i, j, o, b)) < |ForwardOutput(g, func, x, m)|
    ensures ForwardOutput(g, func, x, m)[Offset(OutputShape(g), Coord(i, j, o, b))]
         == ApplyOne(func, Convolve(g, x, m, i, j, o, b))
  {
    var R, C, S := OutRows(g), OutCols(g), Positions(g);
    var P := Apply(func, LoweredOutput(g, x, m));
    var q := Offset(OutputShape(g), Coord(i, j, o, b));
    var s := i * C + j;
    var n := o * LoweredCols(g) + Offset(PositionShape(g), Coord(i, j, 0, b));
    OffsetInRange(OutputShape(g), Coord(i, j, o, b));
    OutputOffset(R, C, g.mB, g.iB, i, j, o, b);
    assert q == Offset(Shape(1, S, g.mB, g.iB), Coord(0, s, o, b));
    ProductOffset(R, C, g.mB, g.iB, i, j, o, b);
    assert n == Offset(Shape(1, S, g.iB, g.mB), Coord(0, s, b, o));
    assert s < S by { OffsetInRange(Shape(R, C, 1, 1), Coord(i, j, 0, 0)); }
    RemapAt(g.mB, g.iB, S, P, o, b, s);
    assert ForwardOutput(g, func, x, m)[q] == At(P, n);
    LoweredOutputAt(g, x, m, i, j, o, b);
    assert P[n] == ApplyOne(func, LoweredOutput(g, x, m)[n]);
  }

  // ---------------------------------------------------------------------------
  // Backward: the specification
  // ---------------------------------------------------------------------------

  /**
   * The gradient backward propagates: the output gradient itself without a
   * nonlinearity, otherwise its elementwise product with the output data.
   */
  function BackpropGrad(func: NonLinearFunction, y: seq<real>, dy: seq<real>): (r: seq<real>)
    requires |y| == |dy|
    ensures |r| == |dy|
    ensures func.NoFunc? ==> r == dy
    ensures func.Func? ==> forall q :: 0 <= q < |r| ==> r[q] == y[q] * dy[q]
  {
    if func.NoFunc? then dy else Hadamard(y, dy)
  }

  /** An output-shaped gradient read back in the channel-major order of the lowered output. */
  function LoweredGrad(g: Geometry, dy: seq<real>): (r: seq<real>)
    ensures |r| == g.mB * LoweredCols(g)
  {
    GradSize(g);
    UnRemap(g.mB, g.iB, Positions(g), dy)
  }

  /** The lowered input gradient: model matrix transposed (K x mB) times the lowered output gradient. */
  function LoweredInputGrad(g: Geometry, m: seq<real>, dy: seq<real>): (r: seq<real>)
    ensures |r| == LoweredRows(g) * LoweredCols(g)
  {
    MatMul(TransNoTrans, LoweredRows(g), LoweredCols(g), g.mB, m, LoweredGrad(g, dy))
  }

  /** The input gradient: the lowered input gradient, inverse lowered. */
  function InputGrad(g: Geometry, m: seq<real>, dy: seq<real>): (r: seq<real>)
    ensures |r| == InputShape(g).Count()
  {
    InverseLower(g, LoweredInputGrad(g, m, dy))
  }

  /** The model gradient: the lowered output gradient (mB x N) times the lowered input transposed. */
  function WeightGrad(g: Geometry, lowered: seq<real>, dy: seq<real>): (r: seq<real>)
    ensures |r| == g.mB * LoweredRows(g)
  {
    MatMul(NoTransTrans, g.mB, LoweredRows(g), LoweredCols(g), LoweredGrad(g, dy), lowered)
  }

  /** The model after the update GEMM with alpha = -stepsize and beta = 1. */
  function WeightUpdate(g: Geometry, stepsize: real, m: seq<real>, lowered: seq<real>, dy: seq<real>): (r: seq<real>)
    ensures |r| == g.mB * LoweredRows(g)
  {
    Gemm(GemmKernel(NoTransTrans, -stepsize, 1.0), g.mB, LoweredRows(g), LoweredCols(g),
      LoweredGrad(g, dy), lowered, m)
  }

  /**
   * The input gradient is the gradient of <Forward(x), dy> in x: without a
   * nonlinearity forward is linear in x and InputGrad is its adjoint.
   */
  lemma InputGradIsAdjoint(g: Geometry, x: seq<real>, m: seq<real>, dy: seq<real>)
    requires |x| == InputShape(g).Count() && |dy| == OutputShape(g).Count()
    ensures Dot(ForwardOutput(g, NoFunc, x, m), dy) == Dot(x, InputGrad(g, m, dy))
  {
    Sizes(g);
    var S := Positions(g);
    var P := LoweredOutput(g, x, m);
    RemapAdjoint(g.mB, g.iB, S, P, dy);
    GemmAdjointRight(m, Lower(g, x), LoweredGrad(g, dy), g.mB, LoweredCols(g), LoweredRows(g));
    LowerAdjoint(g, x, LoweredInputGrad(g, m, dy));
  }

  /**
   * The model gradient is the gradient of <Forward(x), dy> in the model: forward
   * is linear in m and WeightGrad of the lowered input is its adjoint.
   */
  lemma WeightGradIsAdjoint(g: Geometry, x: seq<real>, m: seq<real>, dy: seq<real>)
    requires |m| == ModelShape(g).Count() && |dy| == OutputShape(g).Count()
    ensures Dot(ForwardOutput(g, NoFunc, x, m), dy) == Dot(m, WeightGrad(g, Lower(g, x), dy))
  {
    Sizes(g);
    var S := Positions(g);
    var P := LoweredOutput(g, x, m);
    RemapAdjoint(g.mB, g.iB, S, P, dy);
    GemmAdjointLeft(m, Lower(g, x), LoweredGrad(g, dy), g.mB, LoweredCols(g), LoweredRows(g));
  }

  /** The model update is one gradient-descent step: m' = m - stepsize * WeightGrad. */
  lemma WeightUpdateIsDescent(g: Geometry, stepsize: real, m: seq<real>, lowered: seq<real>, dy: seq<real>)
    requires |m| == ModelShape(g).Count()
    ensures |WeightUpdate(g, stepsize, m, lowered, dy)| == |m|
    ensures forall q :: 0 <= q < |m| ==>
      WeightUpdate(g, stepsize, m, lowered, dy)[q] == m[q] - stepsize * WeightGrad(g, lowered, dy)[q]
  {
    Sizes(g);
    forall q | 0 <= q < |m|
      ensures WeightUpdate(g, stepsize, m, lowered, dy)[q] == m[q] - stepsize * WeightGrad(g, lowered, dy)[q]
    {
      WeightUpdateAt(g, stepsize, m, lowered, dy, q);
    }
  }

  lemma WeightUpdateAt(g: Geometry, stepsize: real, m: seq<real>, lowered: seq<real>, dy: seq<real>, q: nat)
    requires |m| == g.mB * LoweredRows(g) && q < |m|
    ensures WeightUpdate(g, stepsize, m, lowered, dy)[q] == m[q] - stepsize * WeightGrad(g, lowered, dy)[q]
  {
    var G := LoweredGrad(g, dy);
    var W := MatMul(NoTransTrans, g.mB, LoweredRows(g), LoweredCols(g), G, lowered);
    var U := Gemm(GemmKernel(NoTransTrans, -stepsize, 1.0), g.mB, LoweredRows(g), LoweredCols(g), G, lowered, m);
    GemmDescent(NoTransTrans, stepsize, g.mB, LoweredRows(g), LoweredCols(g), G, lowered, m, q);
    assert WeightGrad(g, lowered, dy) == W;
    assert WeightUpdate(g, stepsize, m, lowered, dy) == U;
    MulEqual(W[q], WeightGrad(g, lowered, dy)[q], stepsize);
    assert U[q] == m[q] - stepsize * WeightGrad(g, lowered, dy)[q];
  }


  // ---------------------------------------------------------------------------
  // Backward as written: the remapped output gradient read as if it were not remapped
  // ---------------------------------------------------------------------------

  /**
   * The input gradient as the source computes it: the output gradient, which is
   * in the image-major order of the output cube, is read through the
   * channel-major mB x N view of the lowered output without undoing the remap.
   */
  function InputGradAsWritten(g: Geometry, m: seq<real>, dy: seq<real>): (r: seq<real>)
    ensures |r| == InputShape(g).Count()
  {
    InverseLower(g, MatMul(TransNoTrans, LoweredRows(g), LoweredCols(g), g.mB, m, dy))
  }

  /** The model gradient as the source computes it, through the same channel-major view. */
  function WeightGradAsWritten(g: Geometry, lowered: seq<real>, dy: seq<real>): (r: seq<real>)
    ensures |r| == g.mB * LoweredRows(g) == ModelShape(g).Count()
  {
    ModelSize(g);
    MatMul(NoTransTrans, g.mB, LoweredRows(g), LoweredCols(g), dy, lowered)
  }

  /**
   * What the as-written input gradient is the gradient of: the pairing of dy with
   * the lowered output before the remap, not with the output cube.
   */
  lemma InputGradAsWrittenPairsUnremapped(g: Geometry, x: seq<real>, m: seq<real>, dy: seq<real>)
    requires |x| == InputShape(g).Count() && |dy| == OutputShape(g).Count()
    ensures Dot(x, InputGradAsWritten(g, m, dy)) == Dot(LoweredOutput(g, x, m), dy)
  {
    Sizes(g);
    var K, N := LoweredRows(g), LoweredCols(g);
    var y := MatMul(TransNoTrans, K, N, g.mB, m, dy);
    GemmAdjointRight(m, Lower(g, x), dy, g.mB, N, K);
    assert Dot(LoweredOutput(g, x, m), dy) == Dot(Lower(g, x), y);
    LowerAdjoint(g, x, y);
  }

  /** What the as-written model gradient is the gradient of: the same unremapped pairing. */
  lemma WeightGradAsWrittenPairsUnremapped(g: Geometry, x: seq<real>, m: seq<real>, dy: seq<real>)
    requires |m| == ModelShape(g).Count() && |dy| == OutputShape(g).Count()
    ensures Dot(m, WeightGradAsWritten(g, Lower(g, x), dy)) == Dot(LoweredOutput(g, x, m), dy)
  {
    Sizes(g);
    GemmAdjointLeft(m, Lower(g, x), dy, g.mB, LoweredCols(g), LoweredRows(g));
  }

  /** With one image or one output channel the remap moves nothing, so both readings agree. */
  lemma AsWrittenAgreesWhenRemapTrivial(g: Geometry, m: seq<real>, lowered: seq<real>, dy: seq<real>)
    requires g.iB == 1 || g.mB == 1
    requires |dy| == OutputShape(g).Count()
    ensures InputGradAsWritten(g, m, dy) == InputGrad(g, m, dy)
    ensures WeightGradAsWritten(g, lowered, dy) == WeightGrad(g, lowered, dy)
  {
    Sizes(g);
    UnRemapTrivial(g.mB, g.iB, Positions(g), dy);
  }

  /** The dot product with the unit vector at position p picks u[p]. */
  lemma DotUnit(u: seq<real>, v: seq<real>, p: nat)
    requires |u| == |v| && p < |v| && v[p] == 1.0
    requires forall q :: 0 <= q < |v| && q != p ==> v[q] == 0.0
    ensures Dot(u, v) == u[p]
  {
    SumSingle(|u|, Products(u, v), p);
  }

  /**
   * The counterexample: a 1 x 1 input with one depth channel and two images
   * holding 1 and 0, a 1 x 1 kernel for each of two output channels with weights
   * 0 and 1, and an output gradient that is 1 at output (0, 0) of channel 1 of
   * image 0 (offset 1) and 0 elsewhere.
   */
  predicate IsCounterexample(g: Geometry, x: seq<real>, m: seq<real>, dy: seq<real>)
  {
    g.iR == 1 && g.iC == 1 && g.iD == 1 && g.iB == 2 && g.k == 1 && g.mB == 2 &&
    |x| == 2 && x[0] == 1.0 && x[1] == 0.0 &&
    |m| == 2 && m[0] == 0.0 && m[1] == 1.0 &&
    |dy| == 4 && dy[0] == 0.0 && dy[1] == 1.0 && dy[2] == 0.0 && dy[3] == 0.0
  }

  /** The first term of a convolution: weight (0, 0, 0) of kernel o times input (i, j, 0, b). */
  lemma ConvTermsOrigin(g: Geometry, x: seq<real>, m: seq<real>, i: nat, j: nat, o: nat, b: nat)
    requires g.k > 0 && g.iD > 0
    ensures ConvTerms(g, x, m, i, j, o, b)(0)
         == At(m, Offset(ModelShape(g), Coord(0, 0, 0, o))) * At(x, Offset(InputShape(g), Coord(i, j, 0, b)))
  {
    CoordOfOffset(WindowShape(g), Coord(0, 0, 0, 0));
  }

  /** With a 1 x 1 kernel over one depth channel, the convolution is a product of two elements. */
  lemma ConvolveUnitKernel(g: Geometry, x: seq<real>, m: seq<real>, i: nat, j: nat, o: nat, b: nat)
    requires g.k == 1 && g.iD == 1
    ensures Convolve(g, x, m, i, j, o, b) == At(m, o) * At(x, Offset(InputShape(g), Coord(i, j, 0, b)))
  {
    assert LoweredRows(g) == 1;
    SumSingle(1, ConvTerms(g, x, m, i, j, o, b), 0);
    ConvTermsOrigin(g, x, m, i, j, o, b);
  }

  /** For a 1 x 1 image and kernel over one depth channel, output (o, b) is m[o] * x[b]. */
  lemma ForwardUnitImage(g: Geometry, x: seq<real>, m: seq<real>, o: nat, b: nat)
    requires g.iR == 1 && g.iC == 1 && g.iD == 1 && g.k == 1 && o < g.mB && b < g.iB
    ensures b * g.mB + o < |ForwardOutput(g, NoFunc, x, m)|
    ensures ForwardOutput(g, NoFunc, x, m)[b * g.mB + o] == At(m, o) * At(x, b)
  {
    var L := LoweredOutput(g, x, m);
    assert Positions(g) == 1;
    assert Offset(Shape(1, 1, g.mB, g.iB), Coord(0, 0, o, b)) == b * g.mB + o;
    assert Offset(Shape(1, 1, g.iB, g.mB), Coord(0, 0, b, o)) == o * g.iB + b;
    RemapAt(g.mB, g.iB, 1, L, o, b, 0);
    LoweredUnitImage(g, x, m, o, b);
  }

  /** For a 1 x 1 image and kernel over one depth channel, lowered output (o, b) is m[o] * x[b]. */
  lemma LoweredUnitImage(g: Geometry, x: seq<real>, m: seq<real>, o: nat, b: nat)
    requires g.iR == 1 && g.iC == 1 && g.iD == 1 && g.k == 1 && o < g.mB && b < g.iB
    ensures o * g.iB + b < |LoweredOutput(g, x, m)|
    ensures LoweredOutput(g, x, m)[o * g.iB + b] == At(m, o) * At(x, b)
  {
    UnitImageOffsets(g, o, b);
    LoweredOutputAt(g, x, m, 0, 0, o, b);
    ConvolveUnitKernel(g, x, m, 0, 0, o, b);
    MulEqual(At(x, Offset(InputShape(g), Coord(0, 0, 0, b))), At(x, b), At(m, o));
  }

  /** The offsets of a 1 x 1 image under a 1 x 1 kernel. */
  lemma UnitImageOffsets(g: Geometry, o: nat, b: nat)
    requires g.iR == 1 && g.iC == 1 && g.iD == 1 && g.k == 1 && o < g.mB && b < g.iB
    ensures o * LoweredCols(g) + Offset(PositionShape(g), Coord(0, 0, 0, b)) == o * g.iB + b
    ensures Offset(InputShape(g), Coord(0, 0, 0, b)) == b
    ensures InShape(OutputShape(g), Coord(0, 0, o, b))
  {
    var N, n := LoweredCols(g), Offset(PositionShape(g), Coord(0, 0, 0, b));
    assert N == g.iB && n == b;
  }

  /** The sizes of a 1 x 1 image under a 1 x 1 kernel. */
  lemma UnitImageSizes(g: Geometry)
    requires g.iR == 1 && g.iC == 1 && g.k == 1
    ensures Positions(g) == 1 && LoweredCols(g) == g.iB
    ensures OutputShape(g).Count() == g.mB * g.iB == g.iB * g.mB
  {
    assert OutputShape(g) == Shape(1, 1, g.mB, g.iB);
  }

  /** For a 1 x 1 image, the unit gradient at output (o, b), offset p, pairs with forward to m[o] * x[b]. */
  lemma ForwardPairsWithSingle(g: Geometry, x: seq<real>, m: seq<real>, dy: seq<real>, o: nat, b: nat, p: nat)
    requires g.iR == 1 && g.iC == 1 && g.iD == 1 && g.k == 1 && o < g.mB && b < g.iB && p == b * g.mB + o
    requires |dy| == OutputShape(g).Count()
    requires p < |dy| && dy[p] == 1.0
    requires forall q :: 0 <= q < |dy| && q != p ==> dy[q] == 0.0
    ensures Dot(ForwardOutput(g, NoFunc, x, m), dy) == At(m, o) * At(x, b)
  {
    UnitImageSizes(g);
    ForwardUnitImage(g, x, m, o, b);
    DotUnit(ForwardOutput(g, NoFunc, x, m), dy, p);
  }

  /** For a 1 x 1 image, the unit gradient at offset p = o * iB + b pairs with the lowered output to m[o] * x[b]. */
  lemma LoweredPairsWithSingle(g: Geometry, x: seq<real>, m: seq<real>, dy: seq<real>, o: nat, b: nat, p: nat)
    requires g.iR == 1 && g.iC == 1 && g.iD == 1 && g.k == 1 && o < g.mB && b < g.iB && p == o * g.iB + b
    requires |dy| == OutputShape(g).Count()
    requires p < |dy| && dy[p] == 1.0
    requires forall q :: 0 <= q < |dy| && q != p ==> dy[q] == 0.0
    ensures Dot(LoweredOutput(g, x, m), dy) == At(m, o) * At(x, b)
  {
    UnitImageSizes(g);
    LoweredUnitImage(g, x, m, o, b);
    DotUnit(LoweredOutput(g, x, m), dy, p);
  }

  /** In the counterexample, forward pairs to 1 with dy. */
  lemma CounterexampleForward(g: Geometry, x: seq<real>, m: seq<real>, dy: seq<real>)
    requires IsCounterexample(g, x, m, dy)
    ensures Dot(ForwardOutput(g, NoFunc, x, m), dy) == 1.0
  {
    assert OutputShape(g).Count() == 4;
    ForwardPairsWithSingle(g, x, m, dy, 1, 0, 1);
  }

  /** In the counterexample, the lowered output before the remap pairs to 0 with dy. */
  lemma CounterexampleUnremapped(g: Geometry, x: seq<real>, m: seq<real>, dy: seq<real>)
    requires IsCounterexample(g, x, m, dy)
    ensures Dot(LoweredOutput(g, x, m), dy) == 0.0
  {
    assert OutputShape(g).Count() == 4;
    LoweredPairsWithSingle(g, x, m, dy, 0, 1, 1);
  }

  /**
   * A 1 x 1 input, one depth channel, two images, a 1 x 1 kernel and two output
   * channels: image 0 holds 1 and image 1 holds 0, kernel 0 has weight 0 and
   * kernel 1 weight 1, and the output gradient is 1 at output (0, 0) of channel 1
   * of image 0 only. The pairing of forward with that gradient is 1, so its
   * gradients in x and in m pair to 1 with x and m; the as-written gradients
   * pair to 0.
   */
  lemma AsWrittenIsNotTheGradient(g: Geometry, x: seq<real>, m: seq<real>, dy: seq<real>)
    requires IsCounterexample(g, x, m, dy)
    ensures Dot(ForwardOutput(g, NoFunc, x, m), dy) == 1.0
    ensures Dot(x, InputGrad(g, m, dy)) == 1.0 && Dot(m, WeightGrad(g, Lower(g, x), dy)) == 1.0
    ensures Dot(x, InputGradAsWritten(g, m, dy)) == 0.0
    ensures Dot(m, WeightGradAsWritten(g, Lower(g, x), dy)) == 0.0
  {
    CounterexampleForward(g, x, m, dy);
    CounterexampleGradients(g, x, m, dy);
    CounterexampleAsWritten(g, x, m, dy);
  }

  /** In the counterexample, the gradients in x and in m pair to 1 with x and m. */
  lemma CounterexampleGradients(g: Geometry, x: seq<real>, m: seq<real>, dy: seq<real>)
    requires IsCounterexample(g, x, m, dy)
    ensures Dot(x, InputGrad(g, m, dy)) == 1.0 && Dot(m, WeightGrad(g, Lower(g, x), dy)) == 1.0
  {
    CounterexampleForward(g, x, m, dy);
    CounterexampleSizes(g, x, m, dy);
    GradientsPairAsForward(g, x, m, dy, 1.0);
  }

  lemma CounterexampleSizes(g: Geometry, x: seq<real>, m: seq<real>, dy: seq<real>)
    requires IsCounterexample(g, x, m, dy)
    ensures |x| == InputShape(g).Count() && |m| == g.mB * LoweredRows(g) && |dy| == OutputShape(g).Count()
  {
  }

  /** Both gradients pair with x and m to the value forward pairs with dy. */
  lemma GradientsPairAsForward(g: Geometry, x: seq<real>, m: seq<real>, dy: seq<real>, v: real)
    requires |x| == InputShape(g).Count() && |m| == g.mB * LoweredRows(g) && |dy| == OutputShape(g).Count()
    requires Dot(ForwardOutput(g, NoFunc, x, m), dy) == v
    ensures Dot(x, InputGrad(g, m, dy)) == v && Dot(m, WeightGrad(g, Lower(g, x), dy)) == v
  {
    Sizes(g);
    InputGradIsAdjoint(g, x, m, dy);
    WeightGradIsAdjoint(g, x, m, dy);
  }

  /** In the counterexample, the as-written gradients pair to 0 with x and m. */
  lemma CounterexampleAsWritten(g: Geometry, x: seq<real>, m: seq<real>, dy: seq<real>)
    requires IsCounterexample(g, x, m, dy)
    ensures Dot(x, InputGradAsWritten(g, m, dy)) == 0.0
    ensures Dot(m, WeightGradAsWritten(g, Lower(g, x), dy)) == 0.0
  {
    CounterexampleUnremapped(g, x, m, dy);
    InputGradAsWrittenPairsUnremapped(g, x, m, dy);
    WeightGradAsWrittenPairsUnremapped(g, x, m, dy);
  }

  // ---------------------------------------------------------------------------
  // The bridge
  // ---------------------------------------------------------------------------

  /**
   * A convolution bridge between an input layer and an output layer. It owns the
   * lowered-input buffer (K x N, kept from forward for the model update) and the
   * lowered input-gradient buffer, and updates the model cube in place.
   */
  class ConvolutionBridge {
    const g: Geometry
    const func: NonLinearFunction
    const input: Layer
    const output: Layer
    const model: Cube
    const forwardLowered: array<real>
    const backwardInputGrad: array<real>
    const forwardKernel: GemmKernel
    const updateGradKernel: GemmKernel
    var backwardOutputGrad: array<real>
    var stepsize: real
    var updateWeightKernel: GemmKernel

    /** The seven buffers the bridge reads and writes are pairwise distinct. */
    predicate Separate()
    {
      var x, dx, y, dy, m := input.dataCube.data, input.gradientCube.data,
        output.dataCube.data, output.gradientCube.data, model.data;
      x != dx && x != y && x != dy && x != m && x != forwardLowered && x != backwardInputGrad &&
      dx != y && dx != dy && dx != m && dx != forwardLowered && dx != backwardInputGrad &&
      y != dy && y != m && y != forwardLowered && y != backwardInputGrad &&
      dy != m && dy != forwardLowered && dy != backwardInputGrad &&
      m != forwardLowered && m != backwardInputGrad &&
      forwardLowered != backwardInputGrad
    }

    predicate Valid()
      reads this
    {
      input.Valid() && output.Valid() && model.Valid() &&
      input.dataCube.shape == InputShape(g) && output.dataCube.shape == OutputShape(g) &&
      model.shape == ModelShape(g) &&
      forwardLowered.Length == LoweredRows(g) * LoweredCols(g) &&
      backwardInputGrad.Length == LoweredRows(g) * LoweredCols(g) &&
      backwardOutputGrad.Length == OutputShape(g).Count() &&
      forwardKernel == GemmKernel(NoTransNoTrans, 1.0, 0.0) &&
      updateGradKernel == GemmKernel(TransNoTrans, 1.0, 0.0) &&
      Separate()
    }

    /**
     * Binds the bridge to its layers and model. The input is iR x iC x iD x iB,
     * the model mR x mC x mD x mB and the output oR x oC x oD x oB, with
     * oR = iR - mR + 1, oC = iC - mC + 1, iD = mD, iB = oB, mB = oD and mR = mC.
     */
    constructor(input: Layer, output: Layer, model: Cube, func: NonLinearFunction, stepsize: real)
      requires input.Valid() && output.Valid() && model.Valid()
      requires var i, o, m := input.dataCube.shape, output.dataCube.shape, model.shape;
        o.R == i.R - m.R + 1 && o.C == i.C - m.C + 1 && i.D == m.D && i.B == o.B && m.B == o.D && m.R == m.C
      requires var x, dx, y, dy, m := input.dataCube.data, input.gradientCube.data,
        output.dataCube.data, output.gradientCube.data, model.data;
        x != y && x != dy && x != m && dx != y && dx != dy && dx != m && y != m && dy != m
      ensures Valid()
      ensures this.input == input && this.output == output && this.model == model
      ensures this.func == func && this.stepsize == stepsize
      ensures var i, m := input.dataCube.shape, model.shape;
        g == Geometry(i.R, i.C, i.D, i.B, m.R, m.B)
      ensures fresh(forwardLowered) && fresh(backwardInputGrad) && fresh(backwardOutputGrad)
      ensures updateWeightKernel == GemmKernel(NoTransTrans, -stepsize, 1.0)
    {
      var i, m := input.dataCube.shape, model.shape;
      var geometry: Geometry := Geometry(i.R, i.C, i.D, i.B, m.R, m.B);
      g := geometry;
      this.func := func;
      this.input := input;
      this.output := output;
      this.model := model;
      this.stepsize := stepsize;
      forwardLowered := new real[LoweredRows(geometry) * LoweredCols(geometry)];
      backwardOutputGrad := new real[OutputShape(geometry).Count()];
      backwardInputGrad := new real[LoweredRows(geometry) * LoweredCols(geometry)];
      forwardKernel := GemmKernel(NoTransNoTrans, 1.0, 0.0);
      updateGradKernel := GemmKernel(TransNoTrans, 1.0, 0.0);
      updateWeightKernel := GemmKernel(NoTransTrans, -stepsize, 1.0);
    }

    /**
     * Forward: lowers the input data into the lowered buffer, multiplies the model
     * matrix with it into the output data, applies the nonlinearity if there is
     * one, and remaps the output into image-major order.
     */
    method Forward()
      requires Valid()
      modifies forwardLowered, output.dataCube.data
      ensures Valid()
      ensures forwardLowered[..] == Lower(g, input.dataCube.data[..])
      ensures output.dataCube.data[..] == ForwardOutput(g, func, input.dataCube.data[..], model.data[..])
    {
      var y := output.dataCube.data;
      Sizes(g);
      Store(forwardLowered, Lower(g, input.dataCube.data[..]));
      GemmOverwrites(NoTransNoTrans, g.mB, LoweredCols(g), LoweredRows(g), model.data[..], forwardLowered[..], y[..]);
      Store(y, Gemm(forwardKernel, g.mB, LoweredCols(g), LoweredRows(g), model.data[..], forwardLowered[..], y[..]));
      ghost var product := y[..];
      assert product == LoweredOutput(g, input.dataCube.data[..], model.data[..]);
      if func.Func? {
        Store(y, Apply(func, y[..]));
      } else {
        assert Apply(func, product) == product;
      }
      assert y[..] == Apply(func, product);
      Store(y, Remap(g.mB, g.iB, Positions(g), y[..]));
    }

    /**
     * Backward: takes the output gradient cube as the backpropagated gradient,
     * multiplying it in place by the output data when there is a nonlinearity;
     * computes the lowered input gradient through the transposed model matrix,
     * inverse lowers it into the input gradient, and moves the model one step of
     * size stepsize against the model gradient of the lowered input kept by
     * forward.
     */
    method Backward()
      requires Valid()
      modifies this, output.gradientCube.data, backwardInputGrad, input.gradientCube.data, model.data
      ensures Valid()
      ensures backwardOutputGrad == output.gradientCube.data
      ensures output.gradientCube.data[..]
           == BackpropGrad(func, output.dataCube.data[..], old(output.gradientCube.data[..]))
      ensures backwardInputGrad[..] == LoweredInputGrad(g, old(model.data[..]), output.gradientCube.data[..])
      ensures input.gradientCube.data[..] == InputGrad(g, old(model.data[..]), output.gradientCube.data[..])
      ensures model.data[..]
           == WeightUpdate(g, stepsize, old(model.data[..]), forwardLowered[..], output.gradientCube.data[..])
      ensures stepsize == old(stepsize) && updateWeightKernel == GemmKernel(NoTransTrans, -stepsize, 1.0)
    {
      Sizes(g);
      backwardOutputGrad := output.gradientCube.data;
      if func.Func? {
        Store(backwardOutputGrad, Hadamard(output.dataCube.data[..], output.gradientCube.data[..]));
      }
      ghost var dy := backwardOutputGrad[..];
      ghost var m := model.data[..];
      GemmOverwrites(TransNoTrans, LoweredRows(g), LoweredCols(g), g.mB, m, LoweredGrad(g, dy), backwardInputGrad[..]);
      Store(backwardInputGrad, Gemm(updateGradKernel, LoweredRows(g), LoweredCols(g), g.mB,
        model.data[..], LoweredGrad(g, backwardOutputGrad[..]), backwardInputGrad[..]));
      Store(input.gradientCube.data, InverseLower(g, backwardInputGrad[..]));
      updateWeightKernel := GemmKernel(NoTransTrans, -stepsize, 1.0);
      Store(model.data, Gemm(updateWeightKernel, g.mB, LoweredRows(g), LoweredCols(g),
        LoweredGrad(g, backwardOutputGrad[..]), forwardLowered[..], model.data[..]));
    }
  }
}
