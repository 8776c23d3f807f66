/** The fully connected layer of src/layer/dense.rs.

    The weights are an array of shape `(1, output_size, input_size)` and the
    bias one of shape `(1, output_size, 1)`. The forward pass writes one
    output row per weight row; the value of row `r` is element `[0, 0]` of
    the broadcast product of weight row `r` with the input's first slab,
    plus `bias[0, r, 0]` — that is `w[0, r, 0] * x[0, 0, 0] + b[0, r, 0]`,
    which is the affine map `w · x + b` only when the layer has one input. */
module Dense {
  import opened Base
  import opened Tensors
  import Sums
  import Activation

  type ActivationFunctionType = Activation.ActivationFunctionType

  /** `layers` holds the weights (the source's field name). */
  datatype Dense = Dense(
    inputSize: nat,
    outputSize: nat,
    layers: Tensor,
    bias: Tensor,
    activationFunction: ActivationFunctionType)
  {
    /** The shapes `new` gives the weights and the bias. */
    predicate Valid() {
      && layers.shape == Shape(1, outputSize, inputSize)
      && bias.shape == Shape(1, outputSize, 1)
    }
  }

  /** `Dense::new`; the uniform random draws of the weights and the bias
      are the parameters `drawWeight(row, column)` and `drawBias(row)`. */
  function New(inputSize: nat, outputSize: nat, activationFunction: Option<ActivationFunctionType>,
               drawWeight: (nat, nat) -> real, drawBias: nat -> real): (layer: Dense)
    ensures layer.Valid()
    ensures layer.inputSize == inputSize && layer.outputSize == outputSize
    ensures activationFunction.None? ==> layer.activationFunction == Activation.Relu
    ensures activationFunction.Some? ==> layer.activationFunction == activationFunction.value
    ensures forall r, k | 0 <= r < outputSize && 0 <= k < inputSize ::
      layer.layers.Get(0, r, k) == drawWeight(r, k)
    ensures forall r | 0 <= r < outputSize :: layer.bias.Get(0, r, 0) == drawBias(r)
  {
    Dense(inputSize, outputSize,
          Generate(Shape(1, outputSize, inputSize), (i: nat, r: nat, k: nat) => drawWeight(r, k)),
          Generate(Shape(1, outputSize, 1), (i: nat, r: nat, k: nat) => drawBias(r)),
          activationFunction.UnwrapOr(Activation.Relu))
  }

  /** The dense layer's dispatch: only Relu and Sigmoid are applied, every
      other variant (Tanh and LeakyRelu included) passes the value through. */
  function Activate(a: ActivationFunctionType, x: real, tf: Activation.Transcendentals): (y: real)
    ensures a == Activation.Relu ==> y >= 0.0 && (x >= 0.0 ==> y == x)
    ensures a == Activation.Sigmoid ==> y == tf.sigmoid(x)
    // every other kind, Tanh and LeakyRelu included, falls into the `_` arm
    ensures a != Activation.Relu && a != Activation.Sigmoid ==> y == x
  {
    match a
    case Relu => Activation.ReLU(x)
    case Sigmoid => tf.sigmoid(x)
    case _ => x
  }

  /** The only input shapes the dimension check turns away: both outer axes
      differ from 1. */
  predicate HasIncorrectDimensions(s: Shape) {
    s.d0 != 1 && s.d2 != 1
  }

  const IncorrectDimensionsMessage: string := "input should have dimensions (1, input_size, 1)"

  /** Weight row `(1, input_size)` and input slab `(H, W)` co-broadcast
      column-wise: equal widths, or one of them is 1. */
  predicate RowBroadcasts(inputSize: nat, width: nat) {
    inputSize == width || inputSize == 1 || width == 1
  }

  /** Element `[0, 0]` of `layer_row * input[0] + bias[0, r, 0]`. */
  function RowValue(layer: Dense, input: Tensor, r: nat): real {
    layer.layers.Get(0, r, 0) * input.Get(0, 0, 0) + layer.bias.Get(0, r, 0)
  }

  /** The inputs for which every row of the loop body reaches its write:
      `index_axis(Axis(0), 0)` needs a first slab, the product must
      broadcast, and `[[0, 0]]` needs a non-empty product. */
  predicate RowsSucceed(layer: Dense, s: Shape) {
    && s.d0 >= 1
    && RowBroadcasts(layer.inputSize, s.d2)
    && s.d1 >= 1 && layer.inputSize >= 1 && s.d2 >= 1
  }

  /** `Dense::forward`. A layer with no output rows never enters the loop. */
  function Forward(layer: Dense, input: Tensor, tf: Activation.Transcendentals): (r: Result<Tensor>)
    requires layer.Valid()
    ensures (r.Err? && r.error == IncorrectDimensions(IncorrectDimensionsMessage))
      <==> HasIncorrectDimensions(input.shape)
    ensures r.Ok? <==>
      (!HasIncorrectDimensions(input.shape) && (layer.outputSize == 0 || RowsSucceed(layer, input.shape)))
    ensures r.Err? && !HasIncorrectDimensions(input.shape) ==> r.error.Panic?
    ensures r.Ok? ==> r.value.shape == Shape(1, layer.outputSize, 1)
    ensures r.Ok? ==> forall row | 0 <= row < layer.outputSize ::
      r.value.Get(0, row, 0) == Activate(layer.activationFunction, RowValue(layer, input, row), tf)
  {
    var s := input.shape;
    if HasIncorrectDimensions(s) then
      Err(IncorrectDimensions(IncorrectDimensionsMessage))
    else if layer.outputSize == 0 then
      Ok(Zeros(Shape(1, 0, 1)))
    else if s.d0 == 0 then
      Err(Panic(IndexOutOfBounds))
    else if !RowBroadcasts(layer.inputSize, s.d2) then
      Err(Panic(IncompatibleShapes))
    else if s.d1 == 0 || layer.inputSize == 0 || s.d2 == 0 then
      Err(Panic(IndexOutOfBounds))
    else
      Ok(Generate(Shape(1, layer.outputSize, 1), (i: nat, row: nat, k: nat) =>
        Activate(layer.activationFunction, RowValue(layer, input, row), tf)))
  }

  /** The row loop of `Dense::forward` as written: rows `0..output_size`
      in order, each either aborting the call or appending its activated
      value, then the values are laid out as a `(1, output_size, 1)` array. */
  method ForwardRows(layer: Dense, input: Tensor, tf: Activation.Transcendentals) returns (r: Result<Tensor>)
    requires layer.Valid()
    ensures r == Forward(layer, input, tf)
  {
    var s := input.shape;
    if HasIncorrectDimensions(s) {
      return Err(IncorrectDimensions(IncorrectDimensionsMessage));
    }
    var values: seq<real> := [];
    for row := 0 to layer.outputSize
      invariant |values| == row
      invariant row > 0 ==> RowsSucceed(layer, s)
      invariant forall i | 0 <= i < row ::
        values[i] == Activate(layer.activationFunction, RowValue(layer, input, i), tf)
    {
      if s.d0 == 0 {
        return Err(Panic(IndexOutOfBounds));
      }
      if !RowBroadcasts(layer.inputSize, s.d2) {
        return Err(Panic(IncompatibleShapes));
      }
      if s.d1 == 0 || layer.inputSize == 0 || s.d2 == 0 {
        return Err(Panic(IndexOutOfBounds));
      }
      values := values + [Activate(layer.activationFunction, RowValue(layer, input, row), tf)];
    }
    RowsMakeForward(layer, input, tf, values);
    r := Ok(Column(values));
  }

  /** The `(1, n, 1)` column holding `values` top to bottom. */
  function Column(values: seq<real>): (t: Tensor)
    ensures t.shape == Shape(1, |values|, 1)
    ensures forall k | 0 <= k < |values| :: t.Get(0, k, 0) == values[k]
  {
    Generate(Shape(1, |values|, 1), (a: nat, k: nat, b: nat) requires k < |values| => values[k])
  }

  /** Once every row has been computed, the column of the activated row
      values is what `forward` returns. */
  lemma RowsMakeForward(layer: Dense, input: Tensor, tf: Activation.Transcendentals, values: seq<real>)
    requires layer.Valid() && !HasIncorrectDimensions(input.shape)
    requires |values| == layer.outputSize
    requires |values| > 0 ==> RowsSucceed(layer, input.shape)
    requires forall i | 0 <= i < |values| ::
      values[i] == Activate(layer.activationFunction, RowValue(layer, input, i), tf)
    ensures Forward(layer, input, tf) == Ok(Column(values))
  {
    var expected := Forward(layer, input, tf);
    var column := Column(values);
    assert expected.Ok? && expected.value.shape == column.shape;
    forall i, j, k | column.shape.Contains(i, j, k)
      ensures column.Get(i, j, k) == expected.value.Get(i, j, k)
    {
    }
    Extensionality(column, expected.value);
  }

  /** The dimension check rejects an input only when both outer axes differ
      from 1: a `(1, n, m)` or a `(c, n, 1)` input passes it. */
  lemma DimensionCheckNeedsBothAxes(layer: Dense, input: Tensor, tf: Activation.Transcendentals)
    requires layer.Valid()
    ensures input.shape.d0 == 1 || input.shape.d2 == 1 ==>
      !(Forward(layer, input, tf).Err? && Forward(layer, input, tf).error.IncorrectDimensions?)
    ensures input.shape.d0 != 1 && input.shape.d2 != 1 ==>
      Forward(layer, input, tf) == Err(IncorrectDimensions(IncorrectDimensionsMessage))
  {
  }

  /** A column vector `(1, n, 1)` with `n >= 1` is always accepted, whatever
      `n` is relative to `input_size`. */
  lemma ColumnInputAccepted(layer: Dense, input: Tensor, tf: Activation.Transcendentals)
    requires layer.Valid() && layer.inputSize >= 1
    requires input.shape.d0 == 1 && input.shape.d1 >= 1 && input.shape.d2 == 1
    ensures Forward(layer, input, tf).Ok?
    ensures Forward(layer, input, tf).value.shape == Shape(1, layer.outputSize, 1)
  {
  }

  /** Only `x[0, 0, 0]` of the input is read: inputs of one shape that agree
      there give the same output. */
  lemma OnlyFirstInputElementRead(layer: Dense, a: Tensor, b: Tensor, tf: Activation.Transcendentals)
    requires layer.Valid()
    requires a.shape == b.shape && a.Get(0, 0, 0) == b.Get(0, 0, 0)
    ensures Forward(layer, a, tf) == Forward(layer, b, tf)
  {
    var fa := Forward(layer, a, tf);
    var fb := Forward(layer, b, tf);
    if fa.Ok? {
      forall i, j, k | fa.value.shape.Contains(i, j, k)
        ensures fa.value.Get(i, j, k) == fb.value.Get(i, j, k)
      {
        assert i == 0 && k == 0;
        assert RowValue(layer, a, j) == RowValue(layer, b, j);
      }
      Extensionality(fa.value, fb.value);
    }
  }

  /** The affine map `(w · x + b)[r] = Σ_k w[0, r, k] * x[0, k, 0] + b[0, r, 0]`
      that a fully connected layer is meant to compute on a column input. */
  function Affine(layer: Dense, input: Tensor, r: nat): real {
    Sums.Sum(layer.inputSize, WeightedInput(layer, input, r)) + layer.bias.Get(0, r, 0)
  }

  function WeightedInput(layer: Dense, input: Tensor, r: nat): nat -> real {
    k => layer.layers.Get(0, r, k) * input.Get(0, k, 0)
  }

  /** With one input the row value is the affine map. */
  lemma RowValueIsAffineForOneInput(layer: Dense, input: Tensor, r: nat)
    requires layer.Valid() && layer.inputSize == 1
    ensures RowValue(layer, input, r) == Affine(layer, input, r)
  {
    assert Sums.Sum(1, WeightedInput(layer, input, r)) == WeightedInput(layer, input, r)(0);
  }

  /** With two inputs the row value drops the second product: for the
      column input `(1, 1)` and a weight row `(w0, w1)` with `w1 != 0` the
      two differ by `w1`. */
  lemma RowValueIsNotAffineForTwoInputs(layer: Dense, input: Tensor, r: nat)
    requires layer.Valid() && layer.inputSize == 2 && r < layer.outputSize
    requires input.shape == Shape(1, 2, 1) && input.Get(0, 0, 0) == 1.0 && input.Get(0, 1, 0) == 1.0
    requires layer.layers.Get(0, r, 1) != 0.0
    ensures Affine(layer, input, r) == RowValue(layer, input, r) + layer.layers.Get(0, r, 1)
    ensures RowValue(layer, input, r) != Affine(layer, input, r)
  {
    var f := WeightedInput(layer, input, r);
    assert Sums.Sum(2, f) == f(0) + f(1);
  }

  /** The output the forward pass gives a one-input layer on a column
      vector: every row is the activated affine map. */
  lemma ForwardIsAffineForOneInput(layer: Dense, input: Tensor, tf: Activation.Transcendentals)
    requires layer.Valid() && layer.inputSize == 1
    requires input.shape.d0 == 1 && input.shape.d1 >= 1 && input.shape.d2 == 1
    ensures Forward(layer, input, tf).Ok?
    ensures forall r | 0 <= r < layer.outputSize ::
      Forward(layer, input, tf).value.Get(0, r, 0)
        == Activate(layer.activationFunction, Affine(layer, input, r), tf)
  {
    forall r: nat | r < layer.outputSize
      ensures RowValue(layer, input, r) == Affine(layer, input, r)
    {
      RowValueIsAffineForOneInput(layer, input, r);
    }
  }

  /** With the default activation (Relu) no output is negative. */
  lemma DefaultActivationIsNonNegative(inputSize: nat, outputSize: nat, drawWeight: (nat, nat) -> real,
                                       drawBias: nat -> real, input: Tensor, tf: Activation.Transcendentals)
    ensures var layer := New(inputSize, outputSize, Option.None, drawWeight, drawBias);
      Forward(layer, input, tf).Ok? ==>
        forall i, j, k :: Forward(layer, input, tf).value.Get(i, j, k) >= 0.0
  {
    var layer := New(inputSize, outputSize, Option.None, drawWeight, drawBias);
    var r := Forward(layer, input, tf);
    if r.Ok? {
      forall i, j, k
        ensures r.value.Get(i, j, k) >= 0.0
      {
        if r.value.shape.Contains(i, j, k) {
          assert i == 0 && k == 0;
        }
      }
    }
  }

  /** The dense dispatch differs from the convolution's: Tanh and LeakyRelu
      are not applied. */
  lemma TanhAndLeakyReluPassThrough(x: real, tf: Activation.Transcendentals)
    ensures Activate(Activation.Tanh, x, tf) == x
    ensures Activate(Activation.LeakyRelu, x, tf) == x
    ensures Activate(Activation.Softmax, x, tf) == x
    ensures Activate(Activation.None, x, tf) == x
  {
  }
}
