# CaffeConTroll convolution and dropout bridges, in Dafny

This project models two layer bridges of the CaffeConTroll CNN training engine.
A bridge connects an input layer to an output layer. Each layer holds a data cube
and a gradient cube: dense 4-D arrays of shape rows x cols x depth x batch, stored in
CRDB order (columns fastest, then rows, depth and batch).

**The convolution bridge (lowering type 1)**

- Forward lowers the input cube into a K x N matrix (im2col with stride 1 and no
  padding; K = k*k*iD, N = oR*oC*iB).
- It multiplies the mB x K model matrix with that matrix (GEMM, no transposes).
- It applies the optional nonlinearity.
- It remaps the product from channel-major to image-major order.
- Backward takes the output gradient cube as the gradient to propagate. When there is a
  nonlinearity, it first multiplies that cube in place by the output data.
- Backward then computes the lowered input gradient (model transposed times gradient).
- It inverse-lowers that gradient into the input gradient cube, adding every lowered
  entry back where it was read from.
- Last, it moves the model one gradient step: GEMM with alpha = -stepsize and beta = 1.

**The dropout bridge**

- Training forward multiplies every input element by its 0/1 mask flag and by
  scale = 1 / (1 - ratio).
- Test forward copies the input.
- Backward applies the training map to the output gradient, with the same mask.
- Any driver other than the CPU is an explicit failure.

**Modules**

- `Tensor` holds shapes, the CRDB offset, finite sums, dot products, and gather / scatter through an index table.
- `Kernels` holds the GEMM kernel (transpose configurations, alpha, beta) and the elementwise kernels.
- `Lowering` holds the convolution geometry, lowering, inverse lowering and the output remap.
- `Layers` holds cubes and layers as classes over arrays.
- `Convolution` holds the forward and backward specifications, their theorems and the `ConvolutionBridge` class.
- `Dropout` holds the dropout maps, their theorems and the `DropoutBridge` class.

The bridges' methods update arrays in place. Each method is specified against the
pure functions, and the theorems are proved about those functions:

- forward computes the direct convolution;
- inverse lowering and the inverse remap are the adjoints of lowering and the remap;
- without a nonlinearity, the input and model gradients of the corrected backward
  (see Findings) are the adjoints of forward;
- the model update is a descent step;
- dropout's backward is the adjoint of its training forward.

## Model

| member | source | states |
|---|---|---|
| Convolution.Sizes | src/bridges/ConvolutionBridge_impl.hxx:38-42 | The mB x N lowered-output view covers exactly the oR*oC*oD*oB output cube, in both remap orders. The mB x K lowered-model view covers exactly the model cube. |
| Lowering.SourceInRange | src/bridges/ConvolutionBridge_impl.hxx:33-36 | With stride 1 and no padding, every entry of every window of every output position lies inside the input cube. |
| Lowering.LowerAt | src/bridges/ConvolutionBridge_impl.hxx:112 | Lowered entry (window offset (kr,kc,d), output position (i,j,b)) is input element (i+kr, j+kc, d, b). |
| Lowering.LowerAdjoint | src/bridges/ConvolutionBridge_impl.hxx:191-192 | Inverse lowering is the adjoint of lowering: <Lower(x), y> = <x, InverseLower(y)> for all x and y. |
| Lowering.InverseLowerOnes | src/bridges/ConvolutionBridge_impl.hxx:191-192 | On an all-ones matrix, inverse lowering yields at p the number of lowered entries that read p. |
| Lowering.InverseLowerSums | src/bridges/ConvolutionBridge_impl.hxx:191-192 | For any lowered matrix y, inverse lowering puts at input position p the sum of exactly those entries y(l, n) that lowering read from p. |
| Lowering.InverseLowerCountsWindows | src/bridges/ConvolutionBridge_impl.hxx:191-192 | On an all-ones matrix, inverse lowering yields at input position (r, c, d, b) the number of output positions (i, j), i < oR and j < oC, whose window covers it: i <= r < i + k and j <= c < j + k. |
| Lowering.RemapAt | src/bridges/ConvolutionBridge_impl.hxx:117-124 | Entry (s, o, b) of the channel-major GEMM output lands at entry (s, b, o) of the image-major output cube. |
| Lowering.UnRemapRemap | src/bridges/ConvolutionBridge_impl.hxx:135 | The inverse remap undoes the remap. |
| Lowering.RemapUnRemap | src/bridges/ConvolutionBridge_impl.hxx:135 | The remap undoes the inverse remap, so the remap is a permutation. |
| Lowering.RemapAdjoint | src/bridges/ConvolutionBridge_impl.hxx:135 | The inverse remap is the adjoint of the remap. |
| Lowering.UnRemapTrivial | src/bridges/ConvolutionBridge_impl.hxx:135 | With one output channel or one image the remap moves nothing. |
| Kernels.GemmAt | src/bridges/ConvolutionBridge_impl.hxx:50-52 | Entry (i, j) of a GEMM is alpha * sum_l op(A)[i,l] * op(B)[l,j] + beta * C[i,j], with op given by the NOTRANS/TRANS configuration. |
| Kernels.GemmAccumulates | src/bridges/ConvolutionBridge_impl.hxx:72-73 | A GEMM with alpha and beta is alpha times the plain product plus beta times the old C, entry by entry. |
| Kernels.GemmOverwrites | src/bridges/ConvolutionBridge_impl.hxx:115 | With the default alpha = 1 and beta = 0 the old contents of C do not matter. |
| Kernels.GemmAdjointRight | src/bridges/ConvolutionBridge_impl.hxx:75-77 | <A x B, C> = <B, A^T x C>: the TRANS_NOTRANS GEMM is the adjoint of the NOTRANS_NOTRANS GEMM in its right operand. |
| Kernels.GemmAdjointLeft | src/bridges/ConvolutionBridge_impl.hxx:69-71 | <A x B, C> = <A, C x B^T>: the NOTRANS_TRANS GEMM is the adjoint of the NOTRANS_NOTRANS GEMM in its left operand. |
| Convolution.LoweredOutputAt | src/bridges/ConvolutionBridge_impl.hxx:112-115 | Before the remap, entry (o, (i, j, b)) of model x lowered input is the direct convolution of kernel o with image b at (i, j). |
| Convolution.ForwardIsConvolution | src/bridges/ConvolutionBridge_impl.hxx:98-135 | Output element (i, j, o, b) of forward is f applied to the sum over kr, kc, d of model(kr, kc, d, o) * input(i+kr, j+kc, d, b). |
| Convolution.InputGradIsAdjoint | src/bridges/ConvolutionBridge_impl.hxx:189-192 | Without a nonlinearity, the input gradient of the corrected backward is the gradient of <forward(x), dy> in x. |
| Convolution.WeightGradIsAdjoint | src/bridges/ConvolutionBridge_impl.hxx:195-197 | Without a nonlinearity, the model gradient of the corrected backward is the gradient of <forward(x), dy> in the model. |
| Convolution.WeightUpdateIsDescent | src/bridges/ConvolutionBridge_impl.hxx:195-197 | The updated model is model - stepsize * model gradient, entry by entry. |
| Convolution.InputGradAsWrittenPairsUnremapped | src/bridges/ConvolutionBridge_impl.hxx:185-192 | The input gradient read through the channel-major view is the gradient of the pairing of dy with the product before the remap. |
| Convolution.WeightGradAsWrittenPairsUnremapped | src/bridges/ConvolutionBridge_impl.hxx:185-197 | The model gradient read through the channel-major view is the gradient of that same unremapped pairing. |
| Convolution.AsWrittenAgreesWhenRemapTrivial | src/bridges/ConvolutionBridge_impl.hxx:185-186 | With one image or one output channel, the channel-major reading and the corrected reading give the same gradients. |
| Convolution.AsWrittenIsNotTheGradient | src/bridges/ConvolutionBridge_impl.hxx:185-197 | On a two-image, two-channel input, the forward pairing is 1 and so are the pairings of the corrected gradients, but the channel-major reading pairs to 0. |
| Convolution.ConvolutionBridge.constructor | src/bridges/ConvolutionBridge_impl.hxx:12-80 | It requires oR = iR-mR+1, oC = iC-mC+1, iD = mD, iB = oB, mB = oD and mR = mC. It sizes both lowered buffers K x N and the output-gradient buffer like the output. It sets the update kernel to alpha = -stepsize, beta = 1. |
| Convolution.ConvolutionBridge.Forward | src/bridges/ConvolutionBridge_impl.hxx:98-146 | Afterwards the lowered buffer is the lowered input and the output data is remap(f(model x lowered input)). Only those two buffers change. |
| Convolution.ConvolutionBridge.Backward | src/bridges/ConvolutionBridge_impl.hxx:169-206 | The output-gradient buffer becomes the output gradient cube and holds the propagated gradient. The lowered input gradient is model^T x UnRemap(gradient), with the model from before this call and the gradient put back into the channel-major order of the GEMM output, and the input gradient is its inverse lowering. The model moves one step against the model gradient of the lowered buffer from forward. |
| Dropout.ScaleOf | src/bridges/DropoutBridge_impl.hxx:31 | scale * (1 - ratio) = 1, so scale is positive and finite, and at least 1 when ratio >= 0. |
| Dropout.Masked | src/bridges/DropoutBridge_impl.hxx:66-75 | A kept element is scaled by scale and a dropped element becomes 0. |
| Dropout.BackwardIsAdjoint | src/bridges/DropoutBridge_impl.hxx:122-134 | Backward's masked map of the output gradient is the gradient of <training forward(x), dy> in x. |
| Dropout.ZeroRatioIsIdentity | src/bridges/DropoutBridge_impl.hxx:31-33 | With ratio 0 and every element kept, training forward is the identity. |
| Dropout.MaskedTwice | src/bridges/DropoutBridge_impl.hxx:66-75 | An algebraic property of the masked map that no call of the bridge performs: two masked passes with the same mask drop the same elements and scale the kept ones twice. |
| Dropout.MapMasked | src/bridges/DropoutBridge_impl.hxx:74-75 | The element-by-element pass writes dst = Masked(old src), even when src and dst are the same buffer. |
| Dropout.MapCopy | src/bridges/DropoutBridge_impl.hxx:80-81 | The element-by-element test pass writes dst = old src, even when src and dst are the same buffer. |
| Dropout.DropoutBridge.constructor | src/bridges/DropoutBridge_impl.hxx:12-36 | It requires the output shape to equal the input shape, ratio < 1, and ratio > 0 unless built for snapshots. It keeps one mask flag per input element and sets scale with scale * (1 - ratio) = 1. |
| Dropout.DropoutBridge.Forward | src/bridges/DropoutBridge_impl.hxx:41-98 | On the CPU, output data = Masked(input) in training and a copy of the input in testing. Any other driver aborts and leaves the host output unchanged. |
| Dropout.DropoutBridge.Backward | src/bridges/DropoutBridge_impl.hxx:103-150 | On the CPU, input gradient = Masked(output gradient) whatever the phase. Any other driver aborts and leaves the host input gradient unchanged. |

## Left out

- Timing reports, statistics and the "Allocating ... GB" messages have no effect on any buffer.
- The BLAS thread count (`openblas_set_num_threads`) is thread configuration only.
- Host/device staging, device pointers and `parallel_map` dispatch are not modelled. The dropout passes are loops over host arrays, and a non-CPU driver returns `Aborted` where the source fails an assertion.
- Bernoulli mask generation is random. The mask is a constructor parameter holding one keep flag per element.
- The training/testing phase is the process-wide flag `DeepNetConfig::train()` (DropoutBridge_impl.hxx:66). The model makes it the `train` parameter of `DropoutBridge.Forward`.
- Floating-point rounding is not modelled: arithmetic is over `real`. The nonlinearity is an arbitrary function `real -> real`.
- Dropout.Masked: the bodies of the map functions `_f_dropout_forward_train` / `_f_dropout_forward_test` are not part of this model. The element map is taken to be src[i] * mask[i] * scale for training and a copy for testing. The mask cube holds `unsigned int` elements but is handed to the map as a `char *` (DropoutBridge_impl.hxx:68 and :123), so the map's own indexing of it is not shown. The model reads it as one keep flag per element.
- The bodies of `Connector` (lower_cube / inverse_lower_cube), `Kernel` (GEMM and elementwise multiply), `Scanner` and `remap_output` are not part of this model. Each is specified as a function:
  - the lowered row order (d, kr, kc) matches the model cube's CRDB order, and the column order is (b, i, j);
  - inverse lowering clears the input gradient before adding into it;
  - GEMM kernels default to alpha = 1 and beta = 0;
  - the elementwise kernel multiplies its two inputs.
- The value of `_DEFAULT_STEPSIZE` is not shown, so the step size is a constructor parameter.
- The kernels are built with operand views in the constructor (:50-77), but `compute` is given its operands at each call. The model uses the operands of the `compute` calls.
- The scratch output-gradient cube allocated at :57 is lost when backward rebinds the pointer. Ownership and freeing of buffers are not modelled.
- Convolution.ConvolutionBridge.constructor: the bridge requires the five layer and model buffers to be distinct arrays. The source does not check this; with aliasing, the GEMMs would read partly updated operands.
- Convolution.ConvolutionBridge.Backward: it uses the corrected gradient reading described under Findings, not the channel-major reading of the source.
- Convolution.BackpropGrad: no property of the nonlinearity's derivative is claimed. With a nonlinearity the source multiplies the gradient by the output data itself (ConvolutionBridge_impl.hxx:179-183), and the model does the same. The adjoint theorems are stated without a nonlinearity.
- The MaxPooling test exercises a bridge whose implementation is not part of this model.
- The `_DO_ASSERT` shape checks become preconditions. The source checks them only in debug builds.

## Findings

| source | as written | input that shows it | evidently intended | confidence | as-written member | corrected member |
|---|---|---|---|---|---|---|
| src/bridges/ConvolutionBridge_impl.hxx:185-197 | Backward reads the output gradient cube through the channel-major mB x N view of the lowered output (:186). But forward remapped its output into image-major order (:135), and the gradient cube has that order. So both backward GEMMs pair each gradient element with the wrong output channel and image whenever iB > 1 and mB > 1. | 1 x 1 x 1 input with iB = 2 images holding 1 and 0; two 1 x 1 kernels with weights 0 and 1; output gradient 1 at offset 1 (channel 1 of image 0) and 0 elsewhere. The forward pairing is 1, but the as-written input and model gradients pair with x and m to 0. | Undo the remap on the gradient before the two GEMMs, so that the input and model gradients are the adjoints of forward. | not executed | Convolution.AsWrittenIsNotTheGradient | Convolution.InputGradIsAdjoint |
