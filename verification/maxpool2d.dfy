/** The 2-D max-pooling layer `MaxPool2D` (src/layer/maxpool2d.rs).

    Axes are `(channel, height, width)`. Windows of `pool_size` are taken
    side by side (the loops step by the pool size); the configured strides
    are stored but never read. */
module MaxPool2D {
  import opened Base
  import opened Tensors
  import Sums
  import Padding
  import Arith

  datatype MaxPool2D = MaxPool2D(poolSize: (nat, nat), strides: (nat, nat), padding: (nat, nat))

  /** `MaxPool2D::new`: the pool size as given, strides `(1, 1)` and
      padding `(0, 0)` unless supplied. Nothing is validated. */
  function New(poolSize: (nat, nat), strides: Option<(nat, nat)>, padding: Option<(nat, nat)>): (layer: MaxPool2D)
    ensures layer.poolSize == poolSize
    ensures strides.None? ==> layer.strides == (1, 1)
    ensures padding.None? ==> layer.padding == (0, 0)
    ensures strides.Some? ==> layer.strides == strides.value
    ensures padding.Some? ==> layer.padding == padding.value
  {
    MaxPool2D(poolSize, strides.UnwrapOr((1, 1)), padding.UnwrapOr((0, 0)))
  }

  /** `get_output_dim((C, H, W)) = (C, H / ph, W / pw)`: the number of whole
      windows that fit along each axis; a zero pool size divides by zero. */
  function GetOutputDim(layer: MaxPool2D, inputDim: Shape): (r: Result<Shape>)
    ensures r.Ok? <==> layer.poolSize.0 >= 1 && layer.poolSize.1 >= 1
    ensures r.Err? ==> r.error == Panic(DivideByZero)
    ensures r.Ok? ==> r.value.d0 == inputDim.d0
  {
    if layer.poolSize.0 == 0 || layer.poolSize.1 == 0 then
      Err(Panic(DivideByZero))
    else
      Ok(Shape(inputDim.d0, inputDim.d1 / layer.poolSize.0, inputDim.d2 / layer.poolSize.1))
  }

  /** Each spatial extent of the output is the number of whole windows that
      fit: `d` windows fit along the axis and `d + 1` do not. */
  lemma OutputDimCountsWholeWindows(layer: MaxPool2D, inputDim: Shape)
    requires GetOutputDim(layer, inputDim).Ok?
    ensures var out := GetOutputDim(layer, inputDim).value;
      && out.d1 * layer.poolSize.0 <= inputDim.d1 < (out.d1 + 1) * layer.poolSize.0
      && out.d2 * layer.poolSize.1 <= inputDim.d2 < (out.d2 + 1) * layer.poolSize.1
  {
    Arith.FloorDivision(inputDim.d1, layer.poolSize.0);
    Arith.FloorDivision(inputDim.d2, layer.poolSize.1);
  }

  /** The starts `start, start + step, ...` below `end`. */
  function StepFrom(start: nat, end: nat, step: nat): seq<nat>
    requires step >= 1
    decreases end - start
  {
    if start >= end then [] else [start] + StepFrom(start + step, end, step)
  }

  lemma {:induction false} StepFromLength(start: nat, end: nat, step: nat)
    requires step >= 1 && start <= end
    ensures |StepFrom(start, end, step)| == (end - start + step - 1) / step
    decreases end - start
  {
    if start == end {
      DivisionUnique(step - 1, step, 0);
    } else if start + step <= end {
      StepFromLength(start + step, end, step);
      var x := end - start - 1;
      DivisionUnique(x, step, x / step);
      DivisionUnique(x + step, step, x / step + 1);
    } else {
      DivisionUnique(end - start + step - 1, step, 1);
    }
  }

  /** `q` is the quotient of `x` by `d` when `x` lies in `[q * d, (q + 1) * d)`. */
  lemma DivisionUnique(x: nat, d: nat, q: nat)
    requires d >= 1
    requires q * d <= x < q * d + d
    ensures x / d == q
  {
    var q' := x / d;
    assert q' * d <= x < q' * d + d;
    if q' < q {
      Arith.MultiplyMonotone(q' + 1, q, d);
    } else if q' > q {
      Arith.MultiplyMonotone(q + 1, q', d);
    }
  }

  lemma {:induction false} StepFromElements(start: nat, end: nat, step: nat)
    requires step >= 1
    ensures forall i :: 0 <= i < |StepFrom(start, end, step)| ==>
      StepFrom(start, end, step)[i] == start + i * step
    decreases end - start
  {
    if start < end {
      var rest := StepFrom(start + step, end, step);
      StepFromElements(start + step, end, step);
      forall i | 0 <= i < |StepFrom(start, end, step)|
        ensures StepFrom(start, end, step)[i] == start + i * step
      {
        if i > 0 {
          assert StepFrom(start, end, step)[i] == rest[i - 1];
          assert start + step + (i - 1) * step == start + i * step;
        }
      }
    }
  }

  /** `(0..end).step_by(step)`: `0, step, 2 * step, ...` below `end`, which
      is `ceil(end / step)` starts. */
  function StepBy(end: nat, step: nat): (starts: seq<nat>)
    requires step >= 1
    ensures |starts| == (end + step - 1) / step
    ensures forall i :: 0 <= i < |starts| ==> starts[i] == i * step
  {
    StepFromLength(0, end, step);
    StepFromElements(0, end, step);
    StepFrom(0, end, step)
  }

  /** The loop `for row in (0..H - p + 1).step_by(p)` visits exactly the
      `H / p` window starts `0, p, 2p, ...`: one per output row, so the
      output grid is filled exactly, no cell keeping its initial zero and
      no write landing outside it. */
  lemma {:induction false} WindowStartsFillGrid(extent: nat, pool: nat)
    requires 1 <= pool <= extent
    ensures |StepBy(extent - pool + 1, pool)| == extent / pool
    ensures forall i :: 0 <= i < extent / pool ==> StepBy(extent - pool + 1, pool)[i] == i * pool
    ensures forall i :: 0 <= i < extent / pool ==> i * pool + pool <= extent
  {
    assert extent - pool + 1 + pool - 1 == extent;
    forall i | 0 <= i < extent / pool
      ensures i * pool + pool <= extent
    {
      assert (extent / pool) * pool <= extent;
      assert i + 1 <= extent / pool;
      Arith.MultiplyMonotone(i + 1, extent / pool, pool);
    }
  }

  /** The starts `(0..n - p + 1).step_by(p)` of the windows along an axis
      of extent `n`. */
  function WindowStarts(extent: nat, pool: nat): (starts: seq<nat>)
    requires 1 <= pool <= extent
    ensures |starts| == extent / pool
    ensures forall i | 0 <= i < |starts| :: starts[i] == Corner(i, pool)
  {
    WindowStartsFillGrid(extent, pool);
    StepBy(extent - pool + 1, pool)
  }

  /** The elements `padded[[channel, row, col .. col + width]]` of one window row. */
  function WindowRow(padded: Tensor, channel: nat, row: nat, col: nat): nat -> real {
    (j: nat) => padded.Get(channel, row, col + j)
  }

  /** The maxima of the rows `row .. row + height` of one window. */
  function WindowRowMaxima(padded: Tensor, channel: nat, row: nat, col: nat, width: nat): nat -> real
    requires width >= 1
  {
    (i: nat) => Sums.MaxOver(width, WindowRow(padded, channel, row + i, col))
  }

  /** The first row (column) of window `i` when windows of extent `p` are
      taken side by side. */
  function Corner(i: nat, p: nat): nat {
    i * p
  }

  /** `*slice.max().unwrap()` for the window
      `[channel, row .. row + height, col .. col + width]`: the largest of
      the row maxima. */
  function WindowMax(padded: Tensor, channel: nat, row: nat, col: nat, height: nat, width: nat): real
    requires height >= 1 && width >= 1
  {
    Sums.MaxOver(height, WindowRowMaxima(padded, channel, row, col, width))
  }

  /** The window maximum is an element of the window no smaller than any other. */
  lemma WindowMaxIsWindowElement(padded: Tensor, channel: nat, row: nat, col: nat, height: nat, width: nat)
    requires height >= 1 && width >= 1
    ensures var m := WindowMax(padded, channel, row, col, height, width);
      && (forall r, q :: row <= r < row + height && col <= q < col + width ==> padded.Get(channel, r, q) <= m)
      && (exists r, q :: row <= r < row + height && col <= q < col + width && padded.Get(channel, r, q) == m)
  {
    var rowMaxima := WindowRowMaxima(padded, channel, row, col, width);
    var m := Sums.MaxOver(height, rowMaxima);
    forall r, q | row <= r < row + height && col <= q < col + width
      ensures padded.Get(channel, r, q) <= m
    {
      var i: nat := r - row;
      var j: nat := q - col;
      var rowI := WindowRow(padded, channel, row + i, col);
      assert rowMaxima(i) == Sums.MaxOver(width, rowI);
      assert rowI(j) <= Sums.MaxOver(width, rowI);
      assert rowI(j) == padded.Get(channel, r, q);
      assert rowMaxima(i) <= m;
    }
    var i: nat :| i < height && rowMaxima(i) == m;
    var rowI := WindowRow(padded, channel, row + i, col);
    assert rowMaxima(i) == Sums.MaxOver(width, rowI);
    assert exists j: nat :: j < width && rowI(j) == Sums.MaxOver(width, rowI);
    var j: nat :| j < width && rowI(j) == Sums.MaxOver(width, rowI);
    assert padded.Get(channel, row + i, col + j) == m;
  }

  /** The loops of `forward` over an already padded array: per channel,
      one output row per `step_by` row start and one output column per
      `step_by` column start. `H - ph` underflows when the pool is taller
      than the array, but only once some channel enters the loop. */
  function Pool(layer: MaxPool2D, padded: Tensor): (r: Result<Tensor>)
    ensures r.Ok? <==>
      && layer.poolSize.0 >= 1 && layer.poolSize.1 >= 1
      && (padded.shape.d0 == 0 || (layer.poolSize.0 <= padded.shape.d1 && layer.poolSize.1 <= padded.shape.d2))
    ensures r.Err? ==> (r.error ==
      Panic(if layer.poolSize.0 == 0 || layer.poolSize.1 == 0 then DivideByZero else SubtractWithOverflow))
    ensures r.Ok? ==> r.value.shape == GetOutputDim(layer, padded.shape).value
    ensures r.Ok? ==>
      forall c, i, j | r.value.shape.Contains(c, i, j) ::
        r.value.Get(c, i, j) ==
          WindowMax(padded, c, Corner(i, layer.poolSize.0), Corner(j, layer.poolSize.1), layer.poolSize.0, layer.poolSize.1)
  {
    match GetOutputDim(layer, padded.shape)
    case Err(e) => Err(e)
    case Ok(out) =>
      if padded.shape.d0 == 0 then
        Ok(Zeros(out))
      else if layer.poolSize.0 > padded.shape.d1 || layer.poolSize.1 > padded.shape.d2 then
        Err(Panic(SubtractWithOverflow))
      else
        PoolWindows(layer.poolSize, padded, out)
  }

  /** The two `step_by` loops of one channel, over every channel, for a
      pool that fits the array: one output row per row start and one
      output column per column start. */
  function PoolWindows(poolSize: (nat, nat), padded: Tensor, out: Shape): (r: Result<Tensor>)
    requires 1 <= poolSize.0 <= padded.shape.d1 && 1 <= poolSize.1 <= padded.shape.d2
    requires out == Shape(padded.shape.d0, padded.shape.d1 / poolSize.0, padded.shape.d2 / poolSize.1)
    ensures r.Ok? && r.value.shape == out
    ensures forall c, i, j | out.Contains(c, i, j) ::
      r.value.Get(c, i, j) == WindowMax(padded, c, Corner(i, poolSize.0), Corner(j, poolSize.1), poolSize.0, poolSize.1)
  {
    var (ph, pw) := poolSize;
    var rows := WindowStarts(padded.shape.d1, ph);
    var cols := WindowStarts(padded.shape.d2, pw);
    Ok(Generate(out, (c: nat, i: nat, j: nat) requires i < |rows| && j < |cols| =>
      WindowMax(padded, c, rows[i], cols[j], ph, pw)))
  }

  /** `forward`: pad, then pool. */
  function Forward(layer: MaxPool2D, input: Tensor): (r: Result<Tensor>)
    ensures r.Ok? <==>
      && Padding.Accepted(input.shape, layer.padding)
      && Pool(layer, Padding.AddPadding(input, layer.padding).value).Ok?
    ensures r.Err? ==> (r.error ==
      if Padding.Accepted(input.shape, layer.padding) then Pool(layer, Padding.AddPadding(input, layer.padding).value).error
      else Panic(IncompatibleShapes))
    ensures r.Ok? ==> r.value == Pool(layer, Padding.AddPadding(input, layer.padding).value).value
  {
    match Padding.AddPadding(input, layer.padding)
    case Err(e) => Err(e)
    case Ok(padded) => Pool(layer, padded)
  }

  /** The strides a layer carries never change what it computes. */
  lemma StridesIgnored(layer: MaxPool2D, strides: (nat, nat), input: Tensor)
    ensures Forward(layer.(strides := strides), input) == Forward(layer, input)
  {
    var other := layer.(strides := strides);
    assert other.padding == layer.padding && other.poolSize == layer.poolSize;
  }

  /** Without padding, `forward` pools the input itself. */
  lemma ForwardWithoutPadding(layer: MaxPool2D, input: Tensor)
    requires layer.padding == (0, 0)
    ensures Forward(layer, input) == Pool(layer, input)
  {
    Padding.ZeroPaddingIsIdentity(input);
  }

  /** A window maximum is determined by the window's elements alone. */
  lemma WindowMaxDependsOnWindow(a: Tensor, b: Tensor, channel: nat, row: nat, col: nat, height: nat, width: nat)
    requires height >= 1 && width >= 1
    requires forall r, q :: row <= r < row + height && col <= q < col + width ==> a.Get(channel, r, q) == b.Get(channel, r, q)
    ensures WindowMax(a, channel, row, col, height, width) == WindowMax(b, channel, row, col, height, width)
  {
    var ma := WindowMax(a, channel, row, col, height, width);
    var mb := WindowMax(b, channel, row, col, height, width);
    WindowMaxIsWindowElement(a, channel, row, col, height, width);
    WindowMaxIsWindowElement(b, channel, row, col, height, width);
    var r, q :| row <= r < row + height && col <= q < col + width && a.Get(channel, r, q) == ma;
    var r', q' :| row <= r' < row + height && col <= q' < col + width && b.Get(channel, r', q') == mb;
    assert ma <= mb by { assert b.Get(channel, r, q) <= mb; }
    assert mb <= ma by { assert a.Get(channel, r', q') <= ma; }
  }

  /** Cell `(c, i, j)` of a pooled array is the maximum of window `(i, j)` of channel `c`. */
  lemma PoolCell(layer: MaxPool2D, a: Tensor, c: nat, i: nat, j: nat)
    requires Pool(layer, a).Ok?
    requires Pool(layer, a).value.shape.Contains(c, i, j)
    ensures Pool(layer, a).value.Get(c, i, j) ==
      WindowMax(a, c, Corner(i, layer.poolSize.0), Corner(j, layer.poolSize.1), layer.poolSize.0, layer.poolSize.1)
  {
  }

  /** Whether pooling succeeds, and the shape it yields, depend on the input's shape only. */
  lemma PoolSameShape(layer: MaxPool2D, a: Tensor, b: Tensor)
    requires a.shape == b.shape
    requires Pool(layer, a).Ok?
    ensures Pool(layer, b).Ok? && Pool(layer, a).value.shape == Pool(layer, b).value.shape
  {
  }

  /** Rows from `(H / ph) * ph` on and columns from `(W / pw) * pw` on lie in
      no window: two arrays that differ only there pool to the same result. */
  lemma TrailingCellsIgnored(layer: MaxPool2D, a: Tensor, b: Tensor)
    requires a.shape == b.shape
    requires Pool(layer, a).Ok?
    requires forall c, r, q |
      && 0 <= c < a.shape.d0
      && 0 <= r < (a.shape.d1 / layer.poolSize.0) * layer.poolSize.0
      && 0 <= q < (a.shape.d2 / layer.poolSize.1) * layer.poolSize.1
      :: a.Get(c, r, q) == b.Get(c, r, q)
    ensures Pool(layer, a) == Pool(layer, b)
  {
    var (ph, pw) := layer.poolSize;
    var pa := Pool(layer, a).value;
    PoolSameShape(layer, a, b);
    var pb := Pool(layer, b).value;
    forall c, i, j | pa.shape.Contains(c, i, j)
      ensures pa.Get(c, i, j) == pb.Get(c, i, j)
    {
      WindowInsideWholeWindows(a, b, c, i, j, ph, pw);
      PoolCell(layer, a, c, i, j);
      PoolCell(layer, b, c, i, j);
    }
    Extensionality(pa, pb);
  }

  /** Window `(i, j)` of an output of `H / ph` rows and `W / pw` columns
      reads only rows below `(H / ph) * ph` and columns below `(W / pw) * pw`. */
  lemma WindowInsideWholeWindows(a: Tensor, b: Tensor, c: nat, i: nat, j: nat, ph: nat, pw: nat)
    requires ph >= 1 && pw >= 1 && a.shape == b.shape
    requires c < a.shape.d0 && i < a.shape.d1 / ph && j < a.shape.d2 / pw
    requires forall c', r, q |
      && 0 <= c' < a.shape.d0
      && 0 <= r < (a.shape.d1 / ph) * ph
      && 0 <= q < (a.shape.d2 / pw) * pw
      :: a.Get(c', r, q) == b.Get(c', r, q)
    ensures WindowMax(a, c, Corner(i, ph), Corner(j, pw), ph, pw) == WindowMax(b, c, Corner(i, ph), Corner(j, pw), ph, pw)
  {
    Arith.MultiplyMonotone(i + 1, a.shape.d1 / ph, ph);
    Arith.MultiplyMonotone(j + 1, a.shape.d2 / pw, pw);
    WindowMaxDependsOnWindow(a, b, c, Corner(i, ph), Corner(j, pw), ph, pw);
  }

  /** Channels are pooled independently: channel `c` of the output depends
      on channel `c` of the input only. */
  lemma ChannelsPooledIndependently(layer: MaxPool2D, a: Tensor, b: Tensor, c: nat)
    requires a.shape == b.shape
    requires Pool(layer, a).Ok?
    requires forall r, q :: a.Get(c, r, q) == b.Get(c, r, q)
    ensures Pool(layer, b).Ok?
    ensures Pool(layer, a).value.shape.d0 == a.shape.d0
    ensures forall i, j | Pool(layer, a).value.shape.Contains(c, i, j) ::
      Pool(layer, a).value.Get(c, i, j) == Pool(layer, b).value.Get(c, i, j)
  {
    var (ph, pw) := layer.poolSize;
    var pa := Pool(layer, a).value;
    PoolSameShape(layer, a, b);
    var pb := Pool(layer, b).value;
    forall i: nat, j: nat | pa.shape.Contains(c, i, j)
      ensures pa.Get(c, i, j) == pb.Get(c, i, j)
    {
      WindowOfChannel(a, b, c, i, j, ph, pw);
      PoolCell(layer, a, c, i, j);
      PoolCell(layer, b, c, i, j);
    }
  }

  lemma WindowOfChannel(a: Tensor, b: Tensor, c: nat, i: nat, j: nat, ph: nat, pw: nat)
    requires ph >= 1 && pw >= 1
    requires forall r, q :: a.Get(c, r, q) == b.Get(c, r, q)
    ensures WindowMax(a, c, Corner(i, ph), Corner(j, pw), ph, pw) == WindowMax(b, c, Corner(i, ph), Corner(j, pw), ph, pw)
  {
    WindowMaxDependsOnWindow(a, b, c, Corner(i, ph), Corner(j, pw), ph, pw);
  }

  /** `maxpool2d_basic_test` of src/lib.rs, transposed to channel-first
      layout: the values `0..23` in one `4 x 6` channel pooled by `2 x 2`
      give the maxima `7, 9, 11` and `19, 21, 23`. */
  lemma PoolExample(input: Tensor)
    requires input.shape == Shape(1, 4, 6)
    requires forall r, q | 0 <= r < 4 && 0 <= q < 6 :: input.Get(0, r, q) == (6 * r + q) as real
    ensures Forward(New((2, 2), Option.None, Option.None), input)
      == Ok(Array3(Shape(1, 2, 3), [[[7.0, 9.0, 11.0], [19.0, 21.0, 23.0]]]))
  {
    var layer := New((2, 2), Option.None, Option.None);
    PoolExampleCells(layer, input);
    var out := Forward(layer, input).value;
    ExpectedGrid(out);
  }

  /** The cells of the `maxpool2d_basic_test` output, for any layer with a
      `2 x 2` pool and no padding. */
  lemma PoolExampleCells(layer: MaxPool2D, input: Tensor)
    requires layer.poolSize == (2, 2) && layer.padding == (0, 0)
    requires input.shape == Shape(1, 4, 6)
    requires forall r, q | 0 <= r < 4 && 0 <= q < 6 :: input.Get(0, r, q) == (6 * r + q) as real
    ensures Forward(layer, input).Ok?
    ensures Forward(layer, input).value.shape == Shape(1, 2, 3)
    ensures forall i: nat, j: nat | i < 2 && j < 3 ::
      Forward(layer, input).value.Get(0, i, j) == (12 * i + 2 * j + 7) as real
  {
    ForwardWithoutPadding(layer, input);
    forall i: nat, j: nat | i < 2 && j < 3
      ensures Forward(layer, input).value.Get(0, i, j) == (12 * i + 2 * j + 7) as real
    {
      PoolCell(layer, input, 0, i, j);
      ExampleWindow(input, i, j);
    }
  }

  lemma ExpectedGrid(out: Tensor)
    requires out.shape == Shape(1, 2, 3)
    requires forall i: nat, j: nat | i < 2 && j < 3 :: out.Get(0, i, j) == (12 * i + 2 * j + 7) as real
    ensures out == Array3(Shape(1, 2, 3), [[[7.0, 9.0, 11.0], [19.0, 21.0, 23.0]]])
  {
    assert out.Get(0, 0, 0) == 7.0 && out.Get(0, 0, 1) == 9.0 && out.Get(0, 0, 2) == 11.0;
    assert out.Get(0, 1, 0) == 19.0 && out.Get(0, 1, 1) == 21.0 && out.Get(0, 1, 2) == 23.0;
    assert out.data[0][0] == [7.0, 9.0, 11.0];
    assert out.data[0][1] == [19.0, 21.0, 23.0];
    assert out.data[0] == [[7.0, 9.0, 11.0], [19.0, 21.0, 23.0]];
  }

  /** Window `(i, j)` of the `0..23` grid holds `6 * (2i + a) + (2j + b)`,
      largest at `a = b = 1`. */
  lemma ExampleWindow(input: Tensor, i: nat, j: nat)
    requires input.shape == Shape(1, 4, 6)
    requires forall r, q | 0 <= r < 4 && 0 <= q < 6 :: input.Get(0, r, q) == (6 * r + q) as real
    requires i < 2 && j < 3
    ensures WindowMax(input, 0, Corner(i, 2), Corner(j, 2), 2, 2) == (12 * i + 2 * j + 7) as real
  {
    var m := WindowMax(input, 0, Corner(i, 2), Corner(j, 2), 2, 2);
    WindowMaxIsWindowElement(input, 0, Corner(i, 2), Corner(j, 2), 2, 2);
    assert input.Get(0, 2 * i + 1, 2 * j + 1) == (12 * i + 2 * j + 7) as real;
    var r, q :| 2 * i <= r < 2 * i + 2 && 2 * j <= q < 2 * j + 2 && input.Get(0, r, q) == m;
    assert input.Get(0, r, q) == (6 * r + q) as real;
  }
}
