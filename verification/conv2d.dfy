/** The 2-D convolution layer `Conv2dLayer` (src/layer/conv2d.rs).

    Axes are `(height, width, channel)`. The output shape accounts for
    padding, stride and dilation, but the forward pass always slides a
    dense `K x K` window one element at a time: stride and dilation only
    change how many windows are taken, never where they start or which
    elements they read. The model keeps that behaviour. */
module Conv2D {
  import opened Base
  import opened Tensors
  import Sums
  import Activation
  import Padding
  import Arith

  type ActivationFunctionType = Activation.ActivationFunctionType

  datatype Conv2dLayer = Conv2dLayer(
    filters: nat,
    kernelSize: nat,
    kernels: seq<Tensor>,
    padding: (nat, nat),
    inputDim: Shape,
    outputDim: Shape,
    strides: (nat, nat),
    dilatationRate: (nat, nat),
    activationFunction: ActivationFunctionType)
  {
    /** What `new` establishes for every layer it returns. Every field but
        `output_dim` is private; `output_dim` is public, and a layer whose
        `output_dim` was overwritten by a caller is not one of these. */
    predicate Valid() {
      && kernelSize >= 1
      && |kernels| == filters
      && outputDim.d2 == filters
      && forall f :: 0 <= f < |kernels| ==> kernels[f].shape == Shape(kernelSize, kernelSize, inputDim.d2)
    }
  }

  /** The extent one dilated kernel axis covers: `K` taps `d` apart. */
  function DilatedExtent(kernelSize: nat, dilation: nat): nat {
    if kernelSize == 0 then 0 else (kernelSize - 1) * dilation + 1
  }

  /** One axis of `get_output_dim`:
      `1 + (n + 2 * pad - K - (K - 1) * (d - 1)) / s` in `usize`, with the
      panics of a debug build at each subtraction that would go below zero
      and at the division by a zero stride. */
  function AxisOutput(n: nat, pad: nat, kernelSize: nat, dilation: nat, stride: nat): (r: Result<nat>)
    ensures r.Ok? <==>
      kernelSize >= 1 && dilation >= 1 && stride >= 1 && DilatedExtent(kernelSize, dilation) <= n + 2 * pad
    ensures r.Err? ==> r.error.Panic?
    ensures r.Err? ==> (r.error.fault == DivideByZero <==>
      stride == 0 && kernelSize >= 1 && dilation >= 1 && DilatedExtent(kernelSize, dilation) <= n + 2 * pad)
    ensures r.Ok? ==> r.value >= 1
  {
    var total := n + 2 * pad;
    UnderflowsIffTooLong(total, kernelSize, dilation);
    if Underflows(total, kernelSize, dilation) then
      Err(Panic(SubtractWithOverflow))
    else if stride == 0 then
      Err(Panic(DivideByZero))
    else
      Ok(1 + Slack(total, kernelSize, dilation) / stride)
  }

  /** One of the `usize` subtractions `total - K - (K - 1) * (d - 1)` goes
      below zero. */
  predicate Underflows(total: nat, kernelSize: nat, dilation: nat) {
    || total < kernelSize || kernelSize == 0 || dilation == 0
    || total - kernelSize < (kernelSize - 1) * (dilation - 1)
  }

  /** The subtractions go below zero exactly when the dilated kernel does
      not fit in the axis. */
  lemma UnderflowsIffTooLong(total: nat, kernelSize: nat, dilation: nat)
    ensures Underflows(total, kernelSize, dilation) <==>
      !(kernelSize >= 1 && dilation >= 1 && DilatedExtent(kernelSize, dilation) <= total)
  {
    ExtentIdentity(kernelSize, dilation);
  }

  /** `total - K - (K - 1) * (d - 1)`: how far the dilated kernel can slide. */
  function Slack(total: nat, kernelSize: nat, dilation: nat): (x: nat)
    requires !Underflows(total, kernelSize, dilation)
    ensures x + DilatedExtent(kernelSize, dilation) == total
  {
    ExtentIdentity(kernelSize, dilation);
    total - kernelSize - (kernelSize - 1) * (dilation - 1)
  }

  /** The axis count is that of the windows, `s` apart, of a `K`-tap kernel
      dilated by `d` that fit in the padded axis: the last one fits and the
      next one would not. */
  lemma AxisOutputCountsWholeWindows(n: nat, pad: nat, kernelSize: nat, dilation: nat, stride: nat)
    requires kernelSize >= 1 && dilation >= 1 && stride >= 1
    requires DilatedExtent(kernelSize, dilation) <= n + 2 * pad
    ensures AxisOutput(n, pad, kernelSize, dilation, stride).Ok?
    ensures
      var out := AxisOutput(n, pad, kernelSize, dilation, stride).value;
      && (out - 1) * stride + DilatedExtent(kernelSize, dilation) <= n + 2 * pad
      && out * stride + DilatedExtent(kernelSize, dilation) > n + 2 * pad
  {
    var total := n + 2 * pad;
    UnderflowsIffTooLong(total, kernelSize, dilation);
    var x := Slack(total, kernelSize, dilation);
    Arith.FloorDivision(x, stride);
    assert AxisOutput(n, pad, kernelSize, dilation, stride).value == 1 + x / stride;
  }

  /** `K + (K - 1) * (d - 1)`, the form the source writes, is the dilated extent. */
  lemma ExtentIdentity(kernelSize: nat, dilation: nat)
    ensures kernelSize >= 1 && dilation >= 1 ==>
      kernelSize + (kernelSize - 1) * (dilation - 1) == DilatedExtent(kernelSize, dilation)
  {
    if kernelSize >= 1 && dilation >= 1 {
      var a := kernelSize - 1;
      assert a * (dilation - 1) == a * dilation - a;
    }
  }

  /** `get_output_dim`: height, then width, then the filter count. */
  function GetOutputDim(inputDim: Shape, padding: (nat, nat), kernelSize: nat,
                        dilatationRate: (nat, nat), strides: (nat, nat), filters: nat): (r: Result<Shape>)
    ensures r.Ok? <==>
      AxisOutput(inputDim.d0, padding.0, kernelSize, dilatationRate.0, strides.0).Ok? &&
      AxisOutput(inputDim.d1, padding.1, kernelSize, dilatationRate.1, strides.1).Ok?
    ensures r.Ok? ==> r.value == Shape(
      AxisOutput(inputDim.d0, padding.0, kernelSize, dilatationRate.0, strides.0).value,
      AxisOutput(inputDim.d1, padding.1, kernelSize, dilatationRate.1, strides.1).value,
      filters)
    ensures r.Err? ==> r.error.Panic?
  {
    match AxisOutput(inputDim.d0, padding.0, kernelSize, dilatationRate.0, strides.0)
    case Err(e) => Err(e)
    case Ok(height) =>
      match AxisOutput(inputDim.d1, padding.1, kernelSize, dilatationRate.1, strides.1)
      case Err(e) => Err(e)
      case Ok(width) => Ok(Shape(height, width, filters))
  }

  /** With no padding and unit stride and dilation the output is the
      familiar `(H - K + 1, W - K + 1, filters)`, and a kernel larger than
      the input aborts. */
  lemma DefaultOutputDim(inputDim: Shape, kernelSize: nat, filters: nat)
    requires kernelSize >= 1
    ensures kernelSize <= inputDim.d0 && kernelSize <= inputDim.d1 ==>
      GetOutputDim(inputDim, (0, 0), kernelSize, (1, 1), (1, 1), filters)
        == Ok(Shape(inputDim.d0 - kernelSize + 1, inputDim.d1 - kernelSize + 1, filters))
    ensures kernelSize > inputDim.d0 || kernelSize > inputDim.d1 ==>
      GetOutputDim(inputDim, (0, 0), kernelSize, (1, 1), (1, 1), filters) == Err(Panic(SubtractWithOverflow))
  {
  }

  /** The shapes of `conv2d_basic_test` in src/lib.rs and of a 6x6x3 input. */
  lemma OutputDimExamples()
    ensures GetOutputDim(Shape(4, 6, 1), (0, 0), 3, (1, 1), (1, 1), 1) == Ok(Shape(2, 4, 1))
    ensures GetOutputDim(Shape(6, 6, 3), (0, 0), 3, (1, 1), (1, 1), 1) == Ok(Shape(4, 4, 1))
  {
    DefaultOutputDim(Shape(4, 6, 1), 3, 1);
    DefaultOutputDim(Shape(6, 6, 3), 3, 1);
  }

  /** `populate_kernels_with_random`: `filters` kernels of shape
      `(K, K, channels)`. The uniform draws are the parameter `draw`, the
      value of element `[[i, j, c]]` of the kernel pushed `f`-th. */
  function PopulateKernels(kernelSize: nat, filters: nat, channels: nat,
                           draw: (nat, nat, nat, nat) -> real): (kernels: seq<Tensor>)
    ensures |kernels| == filters
    ensures forall f :: 0 <= f < filters ==> kernels[f].shape == Shape(kernelSize, kernelSize, channels)
    ensures forall f, i, j, c | 0 <= f < filters && kernels[f].shape.Contains(i, j, c) ::
      kernels[f].Get(i, j, c) == draw(f, i, j, c)
  {
    seq(filters, (f: nat) => Generate(Shape(kernelSize, kernelSize, channels), (i: nat, j: nat, c: nat) => draw(f, i, j, c)))
  }

  /** `Conv2dLayer::new`. Only a zero kernel size is rejected as an error;
      a configuration `get_output_dim` cannot evaluate aborts. */
  function New(filters: nat, kernelSize: nat, inputDim: Shape,
               padding: Option<(nat, nat)>, strides: Option<(nat, nat)>,
               dilationRate: Option<(nat, nat)>,
               activationFunctionType: Option<ActivationFunctionType>,
               draw: (nat, nat, nat, nat) -> real): (r: Result<Conv2dLayer>)
    ensures r == Err(KernelSizeError) <==> kernelSize == 0
    ensures r.Ok? <==> (kernelSize >= 1 &&
      GetOutputDim(inputDim, padding.UnwrapOr((0, 0)), kernelSize,
                   dilationRate.UnwrapOr((1, 1)), strides.UnwrapOr((1, 1)), filters).Ok?)
    ensures r.Ok? ==> r.value.Valid()
    ensures r.Ok? ==> r.value.filters == filters && r.value.kernelSize == kernelSize
    ensures r.Ok? ==> r.value.padding == padding.UnwrapOr((0, 0))
    ensures r.Ok? ==> r.value.strides == strides.UnwrapOr((1, 1))
    ensures r.Ok? ==> r.value.dilatationRate == dilationRate.UnwrapOr((1, 1))
    ensures r.Ok? ==> r.value.activationFunction == activationFunctionType.UnwrapOr(Activation.None)
    // the stored input shape grows the width by the HEIGHT padding
    ensures r.Ok? ==> (r.value.inputDim ==
      Shape(inputDim.d0 + r.value.padding.0, inputDim.d1 + r.value.padding.0, inputDim.d2))
    ensures r.Ok? ==> forall f :: 0 <= f < filters ==>
      r.value.kernels[f].shape == Shape(kernelSize, kernelSize, inputDim.d2)
    ensures r.Ok? ==> (r.value.outputDim ==
      GetOutputDim(inputDim, r.value.padding, kernelSize, r.value.dilatationRate, r.value.strides, filters).value)
  {
    if kernelSize < 1 then
      Err(KernelSizeError)
    else
      var padding := padding.UnwrapOr((0, 0));
      var dilatationRate := dilationRate.UnwrapOr((1, 1));
      var strides := strides.UnwrapOr((1, 1));
      var activationFunction := activationFunctionType.UnwrapOr(Activation.None);
      match GetOutputDim(inputDim, padding, kernelSize, dilatationRate, strides, filters)
      case Err(e) => Err(e)
      case Ok(outputDim) =>
        Ok(Conv2dLayer(
          filters,
          kernelSize,
          PopulateKernels(kernelSize, filters, inputDim.d2, draw),
          padding,
          Shape(inputDim.d0 + padding.0, inputDim.d1 + padding.0, inputDim.d2),
          outputDim,
          strides,
          dilatationRate,
          activationFunction))
  }

  /** The activation dispatch of `forward`: softmax is not wired in, so it
      and `None` leave the sum unchanged. */
  function Activate(a: ActivationFunctionType, x: real, tf: Activation.Transcendentals): (y: real)
    ensures a == Activation.Relu ==> y >= 0.0
    // the piecewise-linear kinds leave a non-negative sum unchanged
    ensures a != Activation.Sigmoid && a != Activation.Tanh && x >= 0.0 ==> y == x
    ensures a == Activation.None || a == Activation.Softmax ==> y == x
  {
    match a
    case Relu => Activation.ReLU(x)
    case Sigmoid => tf.sigmoid(x)
    case LeakyRelu => Activation.LeakyReLU(x, Option.None)
    case Tanh => tf.tanh(x)
    case None => x
    case Softmax => x
  }

  /** The dispatch table of `forward`: relu, sigmoid, leaky relu with the
      default factor 0.1 and tanh are applied; None and softmax pass the
      sum through. */
  lemma ActivationDispatch(x: real, tf: Activation.Transcendentals)
    ensures Activate(Activation.Relu, x, tf) == Activation.ReLU(x)
    ensures Activate(Activation.Sigmoid, x, tf) == tf.sigmoid(x)
    ensures Activate(Activation.LeakyRelu, x, tf) == Activation.LeakyReLU(x, Option.Some(0.1))
    ensures Activate(Activation.Tanh, x, tf) == tf.tanh(x)
    ensures Activate(Activation.None, x, tf) == x
    ensures Activate(Activation.Softmax, x, tf) == x
  {
  }

  /** ndarray co-broadcasting of the channel axis in `kernel * slice`:
      equal lengths, or a length-1 side repeated. */
  predicate ChannelsBroadcast(a: nat, b: nat) {
    a == b || a == 1 || b == 1
  }

  function BroadcastLength(a: nat, b: nat): nat {
    if a == b then a else if a == 1 then b else a
  }

  /** The element a broadcast axis of length `len` supplies at position `c`. */
  function BroadcastIndex(len: nat, c: nat): nat {
    if len == 1 then 0 else c
  }

  /** The channel products `kernel[[i, j, c]] * slice[[i, j, c]]` of one
      kernel position, as ndarray's co-broadcast multiplication forms them. */
  function ChannelProducts(kernel: Tensor, padded: Tensor, row: nat, col: nat, i: nat, j: nat): nat -> real {
    (c: nat) =>
      kernel.Get(i, j, BroadcastIndex(kernel.shape.d2, c))
      * padded.Get(row + i, col + j, BroadcastIndex(padded.shape.d2, c))
  }

  /** `kernel.mul(&slice).sum()` for the `size x size` slice of `padded`
      whose corner is `(row, col, 0)`, over all channels. */
  function WindowDot(kernel: Tensor, padded: Tensor, size: nat, row: nat, col: nat): real {
    var channels := BroadcastLength(kernel.shape.d2, padded.shape.d2);
    Sums.Sum(size, (i: nat) =>
      Sums.Sum(size, (j: nat) =>
        Sums.Sum(channels, ChannelProducts(kernel, padded, row, col, i, j))))
  }

  /** Every output cell's slice `row..row + K, col..col + K` lies inside an
      array of shape `s`. */
  predicate WindowsFit(layer: Conv2dLayer, s: Shape) {
    && layer.outputDim.d0 - 1 + layer.kernelSize <= s.d0
    && layer.outputDim.d1 - 1 + layer.kernelSize <= s.d1
  }

  /** What `forward` needs of an input of shape `s` to return. */
  predicate ForwardSucceeds(layer: Conv2dLayer, s: Shape) {
    && Padding.Accepted(s, layer.padding)
    && var padded := Shape(s.d0, s.d1 + layer.padding.0, s.d2 + layer.padding.1);
       (layer.outputDim.IsEmpty() ||
        (WindowsFit(layer, padded) && ChannelsBroadcast(layer.inputDim.d2, padded.d2)))
  }

  /** `forward`: pad, then fill every cell `(row, col, f)` of an
      `output_dim` array with the activated dot product of kernel `f` and
      the window whose corner is `(row, col, 0)`. The window always starts
      at `(row, col)`, whatever the stride and dilation. */
  function Forward(layer: Conv2dLayer, input: Tensor, tf: Activation.Transcendentals): (r: Result<Tensor>)
    requires layer.Valid()
    ensures r.Ok? <==> ForwardSucceeds(layer, input.shape)
    ensures r.Err? ==> r.error.Panic?
    ensures r.Ok? ==> r.value.shape == layer.outputDim
    ensures r.Ok? ==>
      var padded := Padding.AddPadding(input, layer.padding).value;
      forall row, col, f | layer.outputDim.Contains(row, col, f) ::
        r.value.Get(row, col, f) ==
          Activate(layer.activationFunction,
                   WindowDot(layer.kernels[f], padded, layer.kernelSize, row, col), tf)
  {
    match Padding.AddPadding(input, layer.padding)
    case Err(e) => Err(e)
    case Ok(padded) =>
      var out := layer.outputDim;
      if !out.IsEmpty() && !WindowsFit(layer, padded.shape) then
        Err(Panic(SliceOutOfBounds))
      else if !out.IsEmpty() && !ChannelsBroadcast(layer.inputDim.d2, padded.shape.d2) then
        Err(Panic(IncompatibleShapes))
      else
        Ok(Convolve(layer, padded, tf))
  }

  /** The `output_dim` array whose cell `(row, col, f)` is the activated
      dot product of kernel `f` with the window at `(row, col)`. */
  function Convolve(layer: Conv2dLayer, padded: Tensor, tf: Activation.Transcendentals): (t: Tensor)
    requires layer.Valid()
    ensures t.shape == layer.outputDim
    ensures forall row, col, f | layer.outputDim.Contains(row, col, f) ::
      t.Get(row, col, f) ==
        Activate(layer.activationFunction, WindowDot(layer.kernels[f], padded, layer.kernelSize, row, col), tf)
  {
    Generate(layer.outputDim, (row: nat, col: nat, f: nat) requires f < |layer.kernels| =>
      Activate(layer.activationFunction,
               WindowDot(layer.kernels[f], padded, layer.kernelSize, row, col), tf))
  }

  /** Without padding, every window a stride-`s`, dilation-`d` output axis
      asks for, `row..row + K` with `row < out`, lies inside the input axis:
      the forward pass's unit step never leaves the array. */
  lemma {:induction false} OutputWindowsInBounds(n: nat, kernelSize: nat, dilation: nat, stride: nat)
    requires AxisOutput(n, 0, kernelSize, dilation, stride).Ok?
    ensures AxisOutput(n, 0, kernelSize, dilation, stride).value - 1 + kernelSize <= n
  {
    var out := AxisOutput(n, 0, kernelSize, dilation, stride).value;
    AxisOutputCountsWholeWindows(n, 0, kernelSize, dilation, stride);
    assert (out - 1) * stride >= out - 1 by {
      Arith.MultiplyByPositive(out - 1, stride);
    }
    assert DilatedExtent(kernelSize, dilation) >= kernelSize by {
      Arith.MultiplyByPositive(kernelSize - 1, dilation);
    }
  }

  /** A layer built by `new` without padding accepts every input of the
      configured shape, whatever its strides and dilation: `forward`
      returns `Ok`, every window lies inside the input, and each cell is
      computed from the input itself. */
  lemma ForwardTotal(filters: nat, kernelSize: nat, inputDim: Shape,
                     padding: Option<(nat, nat)>, strides: Option<(nat, nat)>,
                     dilationRate: Option<(nat, nat)>,
                     activationFunctionType: Option<ActivationFunctionType>,
                     draw: (nat, nat, nat, nat) -> real,
                     input: Tensor, tf: Activation.Transcendentals)
    requires padding.UnwrapOr((0, 0)) == (0, 0)
    requires New(filters, kernelSize, inputDim, padding, strides, dilationRate, activationFunctionType, draw).Ok?
    requires input.shape == inputDim
    ensures
      var layer := New(filters, kernelSize, inputDim, padding, strides, dilationRate, activationFunctionType, draw).value;
      var r := Forward(layer, input, tf);
      && r.Ok?
      && r.value.shape == layer.outputDim
      && layer.outputDim.d0 - 1 + kernelSize <= inputDim.d0
      && layer.outputDim.d1 - 1 + kernelSize <= inputDim.d1
      && forall row, col, f | layer.outputDim.Contains(row, col, f) ::
           r.value.Get(row, col, f) ==
             Activate(layer.activationFunction, WindowDot(layer.kernels[f], input, kernelSize, row, col), tf)
  {
    var layer := New(filters, kernelSize, inputDim, padding, strides, dilationRate, activationFunctionType, draw).value;
    assert layer.padding == (0, 0);
    assert Padding.AddPadding(input, layer.padding) == Ok(input) by {
      Padding.ZeroPaddingIsIdentity(input);
    }
    assert WindowsFit(layer, input.shape) by {
      OutputWindowsInBounds(inputDim.d0, kernelSize, layer.dilatationRate.0, layer.strides.0);
      OutputWindowsInBounds(inputDim.d1, kernelSize, layer.dilatationRate.1, layer.strides.1);
    }
    assert ForwardSucceeds(layer, input.shape);
  }

  /** Reference: the products of kernel position `(i, j)` in a
      cross-correlation that honours stride and dilation, reading the input
      at `(row * s + i * d, col * s + j * d)`. */
  function StridedProducts(kernel: Tensor, input: Tensor, row: nat, col: nat, i: nat, j: nat,
                           strides: (nat, nat), dilation: (nat, nat)): nat -> real {
    (c: nat) => kernel.Get(i, j, c) * input.Get(row * strides.0 + i * dilation.0, col * strides.1 + j * dilation.1, c)
  }

  function StridedDilatedCell(kernel: Tensor, input: Tensor, size: nat, row: nat, col: nat,
                              strides: (nat, nat), dilation: (nat, nat)): real {
    Sums.Sum(size, (i: nat) =>
      Sums.Sum(size, (j: nat) =>
        Sums.Sum(kernel.shape.d2, StridedProducts(kernel, input, row, col, i, j, strides, dilation))))
  }

  /** The unit-step window agrees with the strided, dilated reference when
      stride and dilation are one, for a kernel with as many channels as
      the input. */
  lemma {:induction false} WindowDotIsUnitStrideCell(kernel: Tensor, input: Tensor, size: nat, row: nat, col: nat)
    requires kernel.shape.d2 == input.shape.d2
    ensures WindowDot(kernel, input, size, row, col) == StridedDilatedCell(kernel, input, size, row, col, (1, 1), (1, 1))
  {
    var ch := kernel.shape.d2;
    assert BroadcastLength(ch, ch) == ch;
    forall i: nat, j: nat
      ensures Sums.Sum(ch, ChannelProducts(kernel, input, row, col, i, j))
           == Sums.Sum(ch, StridedProducts(kernel, input, row, col, i, j, (1, 1), (1, 1)))
    {
      Sums.SumCongruent(ch, ChannelProducts(kernel, input, row, col, i, j),
                        StridedProducts(kernel, input, row, col, i, j, (1, 1), (1, 1)));
    }
    var rowsDot := (i: nat) => Sums.Sum(size, (j: nat) => Sums.Sum(ch, ChannelProducts(kernel, input, row, col, i, j)));
    var rowsRef := (i: nat) => Sums.Sum(size, (j: nat) => Sums.Sum(ch, StridedProducts(kernel, input, row, col, i, j, (1, 1), (1, 1))));
    forall i: nat | i < size
      ensures rowsDot(i) == rowsRef(i)
    {
      Sums.SumCongruent(size,
        (j: nat) => Sums.Sum(ch, ChannelProducts(kernel, input, row, col, i, j)),
        (j: nat) => Sums.Sum(ch, StridedProducts(kernel, input, row, col, i, j, (1, 1), (1, 1))));
    }
    Sums.SumCongruent(size, rowsDot, rowsRef);
  }

  /** Two layers that differ only in stride and dilation compute the same
      value in every cell both of them have: stride and dilation shrink the
      output but never move or spread a window. */
  lemma StrideAndDilationIgnored(filters: nat, kernelSize: nat, inputDim: Shape,
                                 padding: Option<(nat, nat)>,
                                 strides1: Option<(nat, nat)>, dilationRate1: Option<(nat, nat)>,
                                 strides2: Option<(nat, nat)>, dilationRate2: Option<(nat, nat)>,
                                 activationFunctionType: Option<ActivationFunctionType>,
                                 draw: (nat, nat, nat, nat) -> real,
                                 input: Tensor, tf: Activation.Transcendentals)
    requires New(filters, kernelSize, inputDim, padding, strides1, dilationRate1, activationFunctionType, draw).Ok?
    requires New(filters, kernelSize, inputDim, padding, strides2, dilationRate2, activationFunctionType, draw).Ok?
    requires Forward(New(filters, kernelSize, inputDim, padding, strides1, dilationRate1, activationFunctionType, draw).value, input, tf).Ok?
    requires Forward(New(filters, kernelSize, inputDim, padding, strides2, dilationRate2, activationFunctionType, draw).value, input, tf).Ok?
    ensures
      var r1 := Forward(New(filters, kernelSize, inputDim, padding, strides1, dilationRate1, activationFunctionType, draw).value, input, tf).value;
      var r2 := Forward(New(filters, kernelSize, inputDim, padding, strides2, dilationRate2, activationFunctionType, draw).value, input, tf).value;
      forall row, col, f | r1.shape.Contains(row, col, f) && r2.shape.Contains(row, col, f) ::
        r1.Get(row, col, f) == r2.Get(row, col, f)
  {
  }

  /** A `1 x 1` kernel that is one on channel `c0` and zero elsewhere,
      without activation, copies channel `c0` of the input into its
      feature map. */
  lemma {:induction false} UnitKernelSelectsChannel(layer: Conv2dLayer, input: Tensor, tf: Activation.Transcendentals,
                                                    f: nat, c0: nat)
    requires layer.Valid()
    requires layer.kernelSize == 1 && layer.padding == (0, 0)
    requires layer.activationFunction == Activation.None
    requires input.shape.d2 == layer.inputDim.d2
    requires f < layer.filters && c0 < layer.inputDim.d2
    requires forall c: nat :: c < layer.inputDim.d2 ==> layer.kernels[f].Get(0, 0, c) == (if c == c0 then 1.0 else 0.0)
    requires Forward(layer, input, tf).Ok?
    ensures forall row, col | layer.outputDim.Contains(row, col, f) ::
      Forward(layer, input, tf).value.Get(row, col, f) == input.Get(row, col, c0)
  {
    Padding.ZeroPaddingIsIdentity(input);
    var kernel := layer.kernels[f];
    forall row, col | layer.outputDim.Contains(row, col, f)
      ensures Forward(layer, input, tf).value.Get(row, col, f) == input.Get(row, col, c0)
    {
      OneByOneWindow(kernel, input, row, col, c0);
    }
  }

  lemma {:induction false} OneByOneWindow(kernel: Tensor, input: Tensor, row: nat, col: nat, c0: nat)
    requires kernel.shape.d2 == input.shape.d2 && c0 < kernel.shape.d2
    requires forall c: nat :: c < kernel.shape.d2 ==> kernel.Get(0, 0, c) == (if c == c0 then 1.0 else 0.0)
    ensures WindowDot(kernel, input, 1, row, col) == input.Get(row, col, c0)
  {
    var ch := kernel.shape.d2;
    assert BroadcastLength(ch, ch) == ch;
    var products := ChannelProducts(kernel, input, row, col, 0, 0);
    Sums.SumSingleTerm(ch, products, c0);
    var inner := (j: nat) => Sums.Sum(ch, ChannelProducts(kernel, input, row, col, 0, j));
    assert Sums.Sum(1, inner) == inner(0);
    assert WindowDot(kernel, input, 1, row, col) == Sums.Sum(1, inner);
  }

  /** With the default (unit) stride and dilation and no padding, `forward`
      is the textbook cross-correlation: every cell is the activated
      strided, dilated reference sum over the input itself. */
  lemma ForwardIsCrossCorrelationAtDefaults(filters: nat, kernelSize: nat, inputDim: Shape,
                                            activationFunctionType: Option<ActivationFunctionType>,
                                            draw: (nat, nat, nat, nat) -> real,
                                            input: Tensor, tf: Activation.Transcendentals)
    requires New(filters, kernelSize, inputDim, Option.None, Option.None, Option.None, activationFunctionType, draw).Ok?
    requires input.shape == inputDim
    ensures
      var layer := New(filters, kernelSize, inputDim, Option.None, Option.None, Option.None, activationFunctionType, draw).value;
      var r := Forward(layer, input, tf);
      && r.Ok?
      && forall row, col, f | layer.outputDim.Contains(row, col, f) ::
           r.value.Get(row, col, f) ==
             Activate(layer.activationFunction,
                      StridedDilatedCell(layer.kernels[f], input, kernelSize, row, col, layer.strides, layer.dilatationRate), tf)
  {
    var layer := New(filters, kernelSize, inputDim, Option.None, Option.None, Option.None, activationFunctionType, draw).value;
    ForwardTotal(filters, kernelSize, inputDim, Option.None, Option.None, Option.None, activationFunctionType, draw, input, tf);
    forall row, col, f | layer.outputDim.Contains(row, col, f)
      ensures WindowDot(layer.kernels[f], input, kernelSize, row, col)
           == StridedDilatedCell(layer.kernels[f], input, kernelSize, row, col, layer.strides, layer.dilatationRate)
    {
      WindowDotIsUnitStrideCell(layer.kernels[f], input, kernelSize, row, col);
    }
  }
}
