# carnaval-rust layer stack in Dafny

A model of the layers of the carnaval-rust neural-network crate: the
zero-padding helper, the 2-D convolution, 2-D max pooling, the dense and
flatten layers, the `relu`/`leaky_relu` activations and the sequential
model's layer list. Tensors are three-axis arrays with exact `real`
elements; every operation is a total function whose error results include
the Rust panics the code can hit (a debug-build `usize` subtraction below
zero, a division by zero, an ndarray slice, broadcast or index that does
not fit, `todo!()`), so a contract can say exactly which inputs succeed.

| file | module | models |
|---|---|---|
| base.dfy | `Base` | `Option`, the crate's errors and the panics as values |
| sums.dfy | `Sums` | finite sums and maxima used by the dot products and pooling |
| arith.dfy | `Arith` | natural-number facts shared by the shape computations |
| tensors.dfy | `Tensors` | `Array3` with its shape, `zeros`, element-wise construction |
| activation.dfy | `Activation` | `ActivationFunctionType`, `relu`, `leaky_relu` |
| padding.dfy | `Padding` | `add_padding` |
| conv2d.dfy | `Conv2D` | `Conv2dLayer::new`, `get_output_dim`, kernel population, `forward` |
| maxpool2d.dfy | `MaxPool2D` | `MaxPool2D::new`, `get_output_dim`, the `step_by` window loop, `forward` |
| dense.dfy | `Dense` | `Dense::new`, `forward` |
| flatten.dfy | `Flatten` | `Flatten::new`, `forward`, `forward_with_no_channels` |
| sequential.dfy | `Sequential` | `Sequential::new`, `push_layer`, the `Layer` trait's getters |

Behaviour the model keeps because the code does it, where a reader of the
crate's intent might expect otherwise:

- `add_padding` copies the input into `[0..C, p0..H, p1..W]` of the padded
  buffer, not into `[.., p0..p0+H, p1..p1+W]`. Both range ends lie inside
  the padded axis and ndarray empties a range whose start is past its end,
  so the slice never fails; `assign` then broadcasts the input onto the
  region. Padding `(0, 0)` is the identity, any padding of an axis of
  length 0 or 1 leaves that axis's region empty and the array all zeros,
  and every other non-zero padding aborts in the broadcast
  (`Padding.AddPadding`).
- The convolution's forward pass slides a dense `K x K` window one element
  at a time; strides and dilation only change the output shape
  (`Conv2D.StrideAndDilationIgnored`). The convolution reads its input as
  `(height, width, channel)` while `add_padding` pads axes 1 and 2, so a
  convolution's padding is applied to the width and channel axes.
- `Conv2dLayer::new` stores the input shape as `(H + p0, W + p0, C)`: the
  width grows by the height padding.
- The dense layer's row value is element `[0, 0]` of the broadcast product
  of the weight row and the input, plus the bias:
  `w[0, r, 0] * x[0, 0, 0] + b[0, r, 0]`. It equals the affine map
  `Σ_k w[0, r, k] * x[0, k, 0] + b[0, r, 0]` only for a one-input layer
  (`Dense.RowValueIsAffineForOneInput`, `Dense.RowValueIsNotAffineForTwoInputs`).
- The dense dimension check rejects an input only when both axis 0 and
  axis 2 differ from 1.
- Max pooling is channel-first `(C, H, W)`; the crate's own pooling test
  writes its data channel-last, and `MaxPool2D.PoolExample` states it
  transposed.

`ndarray` arithmetic between two array references co-broadcasts (both
sides may be stretched along a length-1 axis); the convolution's channel
axis and the dense layer's column axis follow that rule.

## Model

| member | source | states |
|---|---|---|
| Activation.Variants | src/activation/mod.rs:7-14 | the enumeration lists six pairwise distinct activation kinds |
| Activation.VariantsAreExhaustive | src/activation/mod.rs:7-14 | every activation kind is one of those six |
| Activation.ReLU | src/activation/mod.rs:21-23 | `relu(x)` is non-negative, at least `x`, and equal to `x` or to 0 |
| Activation.ReluIsPiecewiseIdentity | src/activation/mod.rs:21-23 | `relu(x) = x` for `x >= 0` and 0 for `x < 0` |
| Activation.ReluIdempotent | src/activation/mod.rs:21-23 | applying `relu` twice is applying it once |
| Activation.ReluExamples | src/lib.rs:21-26 | `relu(-2) = 0` and `relu(3) = 3` |
| Activation.LeakyReLU | src/activation/mod.rs:25-28 | the result is the larger of `x` and `alpha * x`, with `alpha = 0.1` when none is given |
| Activation.LeakyReluIsPiecewiseLinear | src/activation/mod.rs:25-28 | for `0 <= alpha <= 1`, `x` on the non-negative side and `alpha * x` on the negative side |
| Activation.LeakyReluDefault | src/activation/mod.rs:25-28 | without a factor, negative inputs are divided by ten and others pass unchanged |
| Activation.LeakyReluZeroIsRelu | src/activation/mod.rs:25-28 | a zero leak factor makes `leaky_relu` coincide with `relu` |
| Padding.AddPadding | src/layer/util.rs:3-17 | succeeds exactly when each padded axis is unpadded or of length at most 1, with shape `(C, H + p0, W + p1)`; every failure is the broadcast panic, never a slice fault |
| Padding.ShortAxesAcceptAnyPadding | src/layer/util.rs:10-14 | an input whose padded axes have length 0 or 1 survives every padding, however far past the axis it reaches |
| Padding.AddPaddingCopiesIntoRegion | src/layer/util.rs:10-14 | a surviving result holds input cell `[[c, j - p0, k - p1]]` at `[[c, j, k]]` for `p0 <= j < H`, `p1 <= k < W`, and zero everywhere else |
| Padding.ZerosWithCopy | src/layer/util.rs:10-14 | the zero array of shape `(C, H + p0, W + p1)` with the input written into `[0..C, p0..H, p1..W]` |
| Padding.ZeroPaddingIsIdentity | src/layer/util.rs:10-16 | padding `(0, 0)` returns the input unchanged |
| Padding.NonZeroPaddingAborts | src/layer/util.rs:13-14 | any non-zero padding of an input at least 2 x 2 in the padded axes aborts |
| Padding.NonZeroPaddingCopiesNothing | src/layer/util.rs:10-14 | a surviving non-zero padding yields an all-zero array |
| Conv2D.AxisOutput | src/layer/conv2d.rs:144-153 | one output axis succeeds exactly when `K, d, s >= 1` and the dilated kernel fits the padded axis, with a count of at least 1; every failure is a panic, a division by zero exactly when only the stride is zero |
| Conv2D.UnderflowsIffTooLong | src/layer/conv2d.rs:144-147 | the `usize` subtractions go below zero exactly when `K` or `d` is zero or the dilated extent `(K - 1) * d + 1` exceeds the padded axis |
| Conv2D.Slack | src/layer/conv2d.rs:144-147 | the numerator plus the dilated extent is the padded axis length |
| Conv2D.AxisOutputCountsWholeWindows | src/layer/conv2d.rs:144-153 | the count is that of the dilated windows `s` apart that fit: the last fits and the next does not |
| Conv2D.GetOutputDim | src/layer/conv2d.rs:131-156 | the output shape is (height count, width count, filters) and fails when either axis does |
| Conv2D.DefaultOutputDim | src/layer/conv2d.rs:144-155 | with no padding and unit stride and dilation the shape is `(H - K + 1, W - K + 1, filters)`, and a kernel larger than the input underflows |
| Conv2D.OutputDimExamples | src/lib.rs:134-158 | the test input `(4, 6, 1)` with `K = 3` gives `(2, 4, 1)` |
| Conv2D.PopulateKernels | src/layer/conv2d.rs:111-129 | `filters` kernels, each of shape `(K, K, channels)`, holding the drawn values |
| Conv2D.New | src/layer/conv2d.rs:27-68 | fails with `KernelSizeError` exactly when `K = 0`, otherwise succeeds when the output shape can be computed; defaults padding `(0,0)`, strides and dilation `(1,1)`, activation None; stores `(H + p0, W + p0, C)` as input shape and `filters` kernels of shape `(K, K, C)` |
| Conv2D.Activate | src/layer/conv2d.rs:96-104 | relu never yields a negative value; every kind but sigmoid and tanh leaves a non-negative sum unchanged; None and softmax always pass it through |
| Conv2D.ActivationDispatch | src/layer/conv2d.rs:96-104 | relu, sigmoid, leaky relu with factor 0.1 and tanh are applied; None and softmax pass the sum through |
| Conv2D.WindowDot | src/layer/conv2d.rs:84-94 | `kernel.mul(&input_slice).sum()` over the `K x K` window at `(row, col)` and every co-broadcast channel; `Conv2D.WindowDotIsUnitStrideCell` relates it to the reference |
| Conv2D.Convolve | src/layer/conv2d.rs:80-105 | an `output_dim` array whose cell `(row, col, f)` is the activated window product with kernel `f` |
| Conv2D.Forward | src/layer/conv2d.rs:74-108 | succeeds exactly when padding survives and every unit-step window fits and broadcasts; the output has `output_dim`; each cell is the activated sum of kernel times the window at `(row, col)` |
| Conv2D.OutputWindowsInBounds | src/layer/conv2d.rs:82-87 | without padding every output row and column `r` has `r + K <= n` |
| Conv2D.ForwardTotal | src/layer/conv2d.rs:74-108 | a layer built without padding returns `Ok` on every input of its configured shape, each cell computed from the input itself, whatever the strides and dilation |
| Conv2D.WindowDotIsUnitStrideCell | src/layer/conv2d.rs:86-94 | the window dot product equals the strided, dilated cross-correlation reference at stride and dilation 1 |
| Conv2D.StrideAndDilationIgnored | src/layer/conv2d.rs:80-94 | layers differing only in stride and dilation agree on every cell both have |
| Conv2D.UnitKernelSelectsChannel | src/layer/conv2d.rs:82-104 | a `1 x 1` one-hot kernel without activation copies the selected input channel |
| Conv2D.ForwardIsCrossCorrelationAtDefaults | src/layer/conv2d.rs:74-108 | with default options each cell is the activated cross-correlation reference over the input |
| MaxPool2D.New | src/layer/maxpool2d.rs:14-23 | stores the pool size as given; strides default to `(1,1)` and padding to `(0,0)` |
| MaxPool2D.GetOutputDim | src/layer/maxpool2d.rs:25-29 | succeeds exactly when both pool sizes are non-zero, keeping the channel count; a zero pool size divides by zero |
| MaxPool2D.OutputDimCountsWholeWindows | src/layer/maxpool2d.rs:25-29 | each spatial extent is the number of whole windows, `d * p <= n < (d + 1) * p` |
| MaxPool2D.StepBy | src/layer/maxpool2d.rs:56 | `(0..end).step_by(step)` yields `ceil(end / step)` starts, the `i`-th being `i * step` |
| MaxPool2D.WindowStartsFillGrid | src/layer/maxpool2d.rs:56-60 | for `1 <= p <= n` the loop visits exactly `n / p` starts `0, p, 2p, ...`, each window ending inside the axis |
| MaxPool2D.WindowStarts | src/layer/maxpool2d.rs:56-60 | for `1 <= p <= n` the window corners along an axis are the `n / p` values `i * p` |
| MaxPool2D.WindowMax | src/layer/maxpool2d.rs:62-65 | `max()` of the window as the largest of its row maxima; `MaxPool2D.WindowMaxIsWindowElement` states what it is |
| MaxPool2D.WindowMaxIsWindowElement | src/layer/maxpool2d.rs:62-65 | the window maximum is at least every window element and equal to one of them |
| MaxPool2D.Pool | src/layer/maxpool2d.rs:43-72 | succeeds exactly when the pool is non-zero and, if there is a channel, fits the array; output shape `(C, H / ph, W / pw)`, cell `(c, i, j)` the maximum of the window at `(i * ph, j * pw)` |
| MaxPool2D.PoolWindows | src/layer/maxpool2d.rs:53-70 | for a pool that fits, the loops fill every cell `(c, i, j)` of the `(C, H / ph, W / pw)` output with the maximum of the window at `(i * ph, j * pw)`, never indexing past the output |
| MaxPool2D.Forward | src/layer/maxpool2d.rs:41-73 | pads, then pools; succeeds exactly when both steps do; a failed padding is the broadcast panic, otherwise the pooling's error |
| MaxPool2D.StridesIgnored | src/layer/maxpool2d.rs:25-29 | the configured strides never change the result |
| MaxPool2D.ForwardWithoutPadding | src/layer/maxpool2d.rs:41-42 | without padding the input itself is pooled |
| MaxPool2D.WindowMaxDependsOnWindow | src/layer/maxpool2d.rs:62-65 | a window maximum depends only on the window's elements |
| MaxPool2D.TrailingCellsIgnored | src/layer/maxpool2d.rs:56-60 | rows from `(H / ph) * ph` and columns from `(W / pw) * pw` on never affect the output |
| MaxPool2D.ChannelsPooledIndependently | src/layer/maxpool2d.rs:53-65 | the output keeps the channel count and output channel `c` depends only on input channel `c` |
| MaxPool2D.PoolExample | src/lib.rs:160-176 | the values `0..23` in a `(1, 4, 6)` array pooled by `2 x 2` give `[[7, 9, 11], [19, 21, 23]]` |
| Dense.New | src/layer/dense.rs:16-30 | weights of shape `(1, out, in)` and bias `(1, out, 1)` holding the drawn values; default activation Relu |
| Dense.Activate | src/layer/dense.rs:58-62 | relu yields a non-negative value and keeps non-negative ones, sigmoid is applied, every other kind passes the value through |
| Dense.RowValue | src/layer/dense.rs:50-53 | element `[0, 0]` of `layer_row * input[0] + bias`, `w[0,r,0] * x[0,0,0] + b[0,r,0]`; `Dense.RowValueIsAffineForOneInput` and `Dense.RowValueIsNotAffineForTwoInputs` compare it with the affine map |
| Dense.Forward | src/layer/dense.rs:42-68 | `IncorrectDimensions` exactly when axes 0 and 2 both differ from 1; otherwise `Ok` exactly when there are no rows or the row computation fits; output shape `(1, out, 1)`, row `r` the activated `w[0,r,0] * x[0,0,0] + b[0,r,0]` |
| Dense.ForwardRows | src/layer/dense.rs:55-65 | the row loop, visiting rows `0..out` in order and writing each once, computes the same result as the forward pass |
| Dense.RowsMakeForward | src/layer/dense.rs:48-65 | once every row value is computed and activated, the `(1, out, 1)` column of them is the forward result |
| Dense.DimensionCheckNeedsBothAxes | src/layer/dense.rs:43-46 | an input with axis 0 or axis 2 equal to 1 is never rejected for its dimensions; any other input is |
| Dense.ColumnInputAccepted | src/layer/dense.rs:42-65 | a non-empty column `(1, n, 1)` is accepted for any `n` and yields a `(1, out, 1)` output |
| Dense.OnlyFirstInputElementRead | src/layer/dense.rs:50-53 | inputs of one shape agreeing on `x[0,0,0]` give the same result |
| Dense.RowValueIsAffineForOneInput | src/layer/dense.rs:50-53 | with one input the row value is the affine map `w · x + b` |
| Dense.RowValueIsNotAffineForTwoInputs | src/layer/dense.rs:50-53 | with two inputs the row value misses the affine map by the dropped product `w[0,r,1] * x[0,1,0]` |
| Dense.ForwardIsAffineForOneInput | src/layer/dense.rs:42-65 | a one-input layer maps a column to the activated affine map in every row |
| Dense.DefaultActivationIsNonNegative | src/layer/dense.rs:28 | with the default Relu activation no output element is negative |
| Dense.TanhAndLeakyReluPassThrough | src/layer/dense.rs:58-62 | Tanh, LeakyRelu, Softmax and None leave the row value unchanged |
| Flatten.New | src/layer/flatten.rs:10-15 | `has_channels` defaults to false |
| Flatten.JoinUniform | src/layer/flatten.rs:38 | concatenating `n` rows of length `m` places element `j` of row `i` at `i * m + j` |
| Flatten.Elements | src/layer/flatten.rs:38 | `iter()` yields `C * H * W` elements, element `[[c, i, j]]` at row-major position `(c * H + i) * W + j` |
| Flatten.ForwardWithNoChannels | src/layer/flatten.rs:37-41 | always succeeds with shape `(1, C * H * W, 1)`, element `[[c, i, j]]` at its row-major position |
| Flatten.Forward | src/layer/flatten.rs:53-58 | fails, with the `todo!()` panic, exactly in channel mode |
| Flatten.UnflattenFlatten | src/layer/flatten.rs:37-41 | reading the column back into the input's shape restores the input |
| Flatten.FlatIndexOnto | src/layer/flatten.rs:38-40 | every output position holds some input element |
| Flatten.FlattenPreservesOrder | src/layer/flatten.rs:38-40 | elements earlier in row-major order come earlier in the column |
| Flatten.FlattenIdempotent | src/layer/flatten.rs:38-40 | a `(1, N, 1)` column flattens to itself |
| Flatten.FlattenExample | src/lib.rs:179-192 | the values `0..23` in `(1, 4, 6)` give shape `(1, 24, 1)` with 23 at index 23 |
| Sequential.OnlyDenseLayersActivate | src/layer/maxpool2d.rs:37-39 | pooling and flatten layers report activation None; a dense layer reports its own |
| Sequential.New | src/model/sequential.rs:8-12 | a new model holds no layers, whatever the capacity hint |
| Sequential.PushLayer | src/model/sequential.rs:14-16 | the pushed layer goes last, earlier layers keep their places, the length grows by one |
| Sequential.PushAllAppends | src/model/sequential.rs:14-16 | a run of pushes appends exactly that run, in order |
| Sequential.BuiltModelHoldsPushedLayers | src/model/sequential.rs:8-16 | a model built from `new` holds exactly the pushed layers in push order, independent of the capacity hint |
| Sequential.PushesKeepPrefix | src/model/sequential.rs:3-17 | pushes never remove or reorder: the earlier list stays a prefix |

## Left out

- `sigmoid`, `tanh` and `softmax`: floating-point exponentials; `sigmoid` and `tanh` appear only as the `Transcendentals` parameter so the dispatch tables can be stated, `softmax` is not called by any layer.
- `f32`/`f64` rounding: elements are exact reals, so sums are associative and `max` never meets NaN.
- Random initial values of kernels, weights and bias: parameters `draw`, `drawWeight`, `drawBias`; only counts, shapes and placement are modelled.
- `par_for_each` in the convolution: each cell writes its own location, so the cells are computed independently.
- `usize` overflow upwards (a sum past `2^64`): naturals are unbounded; only the underflows and divisions by zero a debug build panics on are modelled.
- Conv2D.Forward: requires the layer invariant `new` establishes, including `output_dim.2 == filters`; `output_dim` is a public field, and a caller that overwrites it with more features than kernels makes `self.kernels[feature]` panic, which is not modelled.
- Dense.Forward: requires the weight and bias shapes `new` gives; the fields are public, and a layer whose arrays were replaced by differently shaped ones is not modelled.
- Flatten.Forward: the channel mode is the `todo!()` panic; the commented-out sketch after it is not modelled.
- Sequential: the model has no forward pass or prediction; `Box<dyn Layer>` is a closed sum over the dense, max-pooling and flatten layers, the kinds that implement `Layer`. `get_layer_type` is modelled without a contract of its own.
- Error boxing (`Box<dyn Error>`, `thiserror` messages other than the dense layer's) and the plotting tests: I/O and formatting.
- The modules not wired into the crate (src/model/fully_connected.rs, src/model/dense.rs, src/nn/conv.rs, src/layer/input_layer.rs, src/layer/hidden_layer.rs, the stale src/layer/mod.rs): not part of this model.
