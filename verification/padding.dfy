/** The zero-padding helper `add_padding` (src/layer/util.rs).

    It allocates a zero array of shape `(C, H + p0, W + p1)` (axis 0 is
    never padded) and assigns the input into the region
    `[0..C, p0..H, p1..W]` of it. Both ends of each range lie inside the
    padded axis, and ndarray empties a range whose start is past its end,
    so the slice itself never fails. `assign` then broadcasts the input
    onto the region, which succeeds only when every axis of the input
    either matches the region or has length 1: the copy works as intended
    at padding `(0, 0)`, copies nothing when a padded axis has length 0 or
    1 (its region is then empty), and aborts otherwise. */
module Padding {
  import opened Base
  import opened Tensors

  /** ndarray broadcasting of one axis: equal extents, or a source of length 1. */
  predicate Broadcasts(from: nat, to: nat) {
    from == to || from == 1
  }

  /** The length of the range `start..len` of an axis `len + start` long:
      ndarray turns a range whose start is past its end into an empty one. */
  function RegionLength(len: nat, start: nat): nat {
    if start <= len then len - start else 0
  }

  /** The paddings `add_padding` survives for an input of shape `s`: on
      each padded axis, no padding or an axis of length at most 1. */
  predicate Accepted(s: Shape, padding: (nat, nat)) {
    && (padding.0 == 0 || s.d1 <= 1)
    && (padding.1 == 0 || s.d2 <= 1)
  }

  function AddPadding(input: Tensor, padding: (nat, nat)): (r: Result<Tensor>)
    ensures r.Ok? <==> Accepted(input.shape, padding)
    ensures r.Err? ==> r.error == Panic(IncompatibleShapes)
    ensures r.Ok? ==> r.value.shape == Shape(input.shape.d0, input.shape.d1 + padding.0, input.shape.d2 + padding.1)
  {
    var (c, h, w) := (input.shape.d0, input.shape.d1, input.shape.d2);
    if !Broadcasts(h, RegionLength(h, padding.0)) || !Broadcasts(w, RegionLength(w, padding.1)) then
      Err(Panic(IncompatibleShapes))
    else
      Ok(ZerosWithCopy(input, padding))
  }

  /** What survives of `add_padding` is the zero buffer with the input
      copied into `[0..C, p0..H, p1..W]`: the input's cells there, zero
      everywhere else. */
  lemma AddPaddingCopiesIntoRegion(input: Tensor, padding: (nat, nat))
    requires AddPadding(input, padding).Ok?
    ensures
      var padded := AddPadding(input, padding).value;
      forall i, j, k | padded.shape.Contains(i, j, k) ::
        padded.Get(i, j, k) ==
          if padding.0 <= j < input.shape.d1 && padding.1 <= k < input.shape.d2
          then input.Get(i, j - padding.0, k - padding.1) else 0.0
  {
    assert AddPadding(input, padding).value == ZerosWithCopy(input, padding);
  }

  /** The zero buffer of shape `(C, H + p0, W + p1)` with the input's
      elements written into the region `[0..C, p0..H, p1..W]`. */
  function ZerosWithCopy(input: Tensor, padding: (nat, nat)): (t: Tensor)
    ensures t.shape == Shape(input.shape.d0, input.shape.d1 + padding.0, input.shape.d2 + padding.1)
    ensures forall i, j, k | t.shape.Contains(i, j, k) ::
      t.Get(i, j, k) ==
        if padding.0 <= j < input.shape.d1 && padding.1 <= k < input.shape.d2
        then input.Get(i, j - padding.0, k - padding.1) else 0.0
  {
    Generate(Shape(input.shape.d0, input.shape.d1 + padding.0, input.shape.d2 + padding.1),
      (i, j, k) =>
        if padding.0 <= j < input.shape.d1 && padding.1 <= k < input.shape.d2
        then input.Get(i, j - padding.0, k - padding.1) else 0.0)
  }

  /** At padding `(0, 0)` the result is the input, element for element. */
  lemma ZeroPaddingIsIdentity(input: Tensor)
    ensures AddPadding(input, (0, 0)) == Ok(input)
  {
    assert AddPadding(input, (0, 0)).Ok? by {
      assert Accepted(input.shape, (0, 0));
    }
    var padded := AddPadding(input, (0, 0)).value;
    assert padded.shape == input.shape;
    forall i, j, k | padded.shape.Contains(i, j, k)
      ensures padded.Get(i, j, k) == input.Get(i, j, k)
    {
      AddPaddingCopiesIntoRegion(input, (0, 0));
    }
    Extensionality(padded, input);
  }

  /** Any non-zero padding of an input whose padded axes are longer than one
      aborts: the copy target `(C, H - p0, W - p1)` no longer matches the
      input `(C, H, W)`. */
  lemma NonZeroPaddingAborts(input: Tensor, padding: (nat, nat))
    requires input.shape.d1 >= 2 && input.shape.d2 >= 2
    requires padding != (0, 0)
    ensures AddPadding(input, padding).Err?
  {
  }

  /** An input whose padded axes have length 0 or 1 survives every
      padding, however far past the axis the copy region starts. */
  lemma ShortAxesAcceptAnyPadding(input: Tensor, padding: (nat, nat))
    requires input.shape.d1 <= 1 && input.shape.d2 <= 1
    ensures AddPadding(input, padding).Ok?
    ensures AddPadding(input, padding).value.shape ==
      Shape(input.shape.d0, input.shape.d1 + padding.0, input.shape.d2 + padding.1)
  {
  }

  /** When a non-zero padding is survived, the target region is empty and
      the result is all zeros: the input is never copied. */
  lemma NonZeroPaddingCopiesNothing(input: Tensor, padding: (nat, nat))
    requires padding != (0, 0)
    requires AddPadding(input, padding).Ok?
    ensures forall i, j, k :: AddPadding(input, padding).value.Get(i, j, k) == 0.0
  {
    AddPaddingCopiesIntoRegion(input, padding);
  }
}
