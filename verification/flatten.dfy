/** The flatten layer of src/layer/flatten.rs: `input.iter()` walks the
    array in logical row-major order and `into_shape((1, N, 1))` lays the
    `N = C * H * W` elements out as one column. */
module Flatten {
  import opened Base
  import opened Tensors
  import Arith

  datatype Flatten = Flatten(hasChannels: bool)

  /** `Flatten::new`: `has_channels` defaults to false. */
  function New(hasChannels: Option<bool>): (layer: Flatten)
    ensures hasChannels.None? ==> !layer.hasChannels
    ensures hasChannels.Some? ==> layer.hasChannels == hasChannels.value
  {
    Flatten(hasChannels.UnwrapOr(false))
  }

  /** Concatenation of a sequence of rows, first row first. */
  function Join(rows: seq<seq<real>>): seq<real> {
    if |rows| == 0 then [] else Join(rows[..|rows| - 1]) + rows[|rows| - 1]
  }

  /** Joining `n` rows of length `m` gives `n * m` elements, element `j` of
      row `i` landing at `i * m + j`. */
  lemma {:induction false} JoinUniform(rows: seq<seq<real>>, m: nat)
    requires forall i | 0 <= i < |rows| :: |rows[i]| == m
    ensures |Join(rows)| == |rows| * m
    ensures forall i, j | 0 <= i < |rows| && 0 <= j < m :: RowMajor(i, j, m) < |Join(rows)| && Join(rows)[RowMajor(i, j, m)] == rows[i][j]
  {
    if |rows| > 0 {
      var n := |rows| - 1;
      var front := rows[..n];
      JoinUniform(front, m);
      assert |Join(rows)| == n * m + m;
      forall i, j | 0 <= i < |rows| && 0 <= j < m
        ensures RowMajor(i, j, m) < |Join(rows)| && Join(rows)[RowMajor(i, j, m)] == rows[i][j]
      {
        RowMajorBound(i, j, m, |rows|);
        if i < n {
          assert front[i] == rows[i];
        } else {
          assert RowMajor(i, j, m) == n * m + j;
        }
      }
    }
  }

  /** The row-major position of `(i, j)` in rows of length `m`. */
  function RowMajor(i: nat, j: nat, m: nat): nat {
    i * m + j
  }

  lemma RowMajorBound(i: nat, j: nat, m: nat, n: nat)
    requires i < n && j < m
    ensures RowMajor(i, j, m) < n * m
  {
    Arith.MultiplyMonotone(i + 1, n, m);
  }

  /** Row-major positions follow the lexicographic order of `(i, j)`. */
  lemma RowMajorMonotone(i: nat, j: nat, i': nat, j': nat, m: nat)
    requires j < m && j' < m
    requires i < i' || (i == i' && j < j')
    ensures RowMajor(i, j, m) < RowMajor(i', j', m)
  {
    if i < i' {
      Arith.MultiplyMonotone(i + 1, i', m);
    }
  }

  /** Every position below `n * m` is the row-major position of its
      quotient and remainder by `m`. */
  lemma DivModSplit(k: nat, m: nat, n: nat)
    requires k < n * m
    ensures m > 0 && k / m < n && k % m < m
    ensures RowMajor(k / m, k % m, m) == k
  {
    if k / m >= n {
      Arith.MultiplyMonotone(n, k / m, m);
    }
  }

  /** The elements of `t` in row-major order: channel by channel, row by row. */
  function Elements(t: Tensor): (xs: seq<real>)
    ensures |xs| == t.shape.Size()
    ensures forall c, i, j | t.shape.Contains(c, i, j) ::
      FlatIndex(t.shape, c, i, j) < |xs| && xs[FlatIndex(t.shape, c, i, j)] == t.Get(c, i, j)
  {
    ElementsInRowMajorOrder(t);
    Join(Planes(t))
  }

  /** Each channel joined into one plane of `H * W` elements. */
  function Planes(t: Tensor): (planes: seq<seq<real>>)
    ensures |planes| == t.shape.d0
  {
    seq(t.shape.d0, (c: nat) requires c < t.shape.d0 => Join(t.data[c]))
  }

  lemma PlaneInRowMajorOrder(t: Tensor, c: nat)
    requires c < t.shape.d0
    ensures |Planes(t)[c]| == t.shape.d1 * t.shape.d2
    ensures forall i, j | 0 <= i < t.shape.d1 && 0 <= j < t.shape.d2 ::
      RowMajor(i, j, t.shape.d2) < |Planes(t)[c]| && Planes(t)[c][RowMajor(i, j, t.shape.d2)] == t.Get(c, i, j)
  {
    JoinUniform(t.data[c], t.shape.d2);
  }

  lemma ElementsInRowMajorOrder(t: Tensor)
    ensures |Join(Planes(t))| == t.shape.Size()
    ensures forall c, i, j | t.shape.Contains(c, i, j) ::
      FlatIndex(t.shape, c, i, j) < |Join(Planes(t))| && Join(Planes(t))[FlatIndex(t.shape, c, i, j)] == t.Get(c, i, j)
  {
    var s := t.shape;
    var planes := Planes(t);
    forall c | 0 <= c < s.d0
      ensures |planes[c]| == s.d1 * s.d2
    {
      PlaneInRowMajorOrder(t, c);
    }
    JoinUniform(planes, s.d1 * s.d2);
    forall c, i, j | s.Contains(c, i, j)
      ensures FlatIndex(s, c, i, j) < |Join(planes)|
      ensures Join(planes)[FlatIndex(s, c, i, j)] == t.Get(c, i, j)
    {
      PlaneInRowMajorOrder(t, c);
      FlatIndexSplits(s, c, i, j);
      RowMajorBound(i, j, s.d2, s.d1);
    }
    SizeByPlanes(s);
  }

  /** Where element `[[c, i, j]]` of an array of shape `s` lands when the
      array is read in row-major order. */
  function FlatIndex(s: Shape, c: nat, i: nat, j: nat): nat {
    (c * s.d1 + i) * s.d2 + j
  }

  lemma FlatIndexSplits(s: Shape, c: nat, i: nat, j: nat)
    ensures FlatIndex(s, c, i, j) == RowMajor(c, RowMajor(i, j, s.d2), s.d1 * s.d2)
  {
    assert (c * s.d1 + i) * s.d2 == c * (s.d1 * s.d2) + i * s.d2;
  }

  /** `forward_with_no_channels`: the elements as a `(1, N, 1)` column. The
      reshape of a fresh one-dimensional array of `N` elements cannot fail. */
  function ForwardWithNoChannels(input: Tensor): (r: Result<Tensor>)
    ensures r.Ok?
    ensures r.value.shape == Shape(1, input.shape.Size(), 1)
    ensures forall c, i, j | input.shape.Contains(c, i, j) ::
      r.value.Get(0, FlatIndex(input.shape, c, i, j), 0) == input.Get(c, i, j)
  {
    var xs := Elements(input);
    Ok(Generate(Shape(1, |xs|, 1), (a: nat, k: nat, b: nat) requires k < |xs| => xs[k]))
  }

  /** `Flatten::forward`: the channel mode is `todo!()`. */
  function Forward(layer: Flatten, input: Tensor): (r: Result<Tensor>)
    ensures r.Err? <==> layer.hasChannels
    ensures r.Err? ==> r.error == Panic(NotYetImplemented)
    ensures r.Ok? ==> r.value.shape == Shape(1, input.shape.Size(), 1)
  {
    if layer.hasChannels then Err(Panic(NotYetImplemented)) else ForwardWithNoChannels(input)
  }

  /** Reading the column back into shape `s` — the inverse of flattening. */
  function Unflatten(column: Tensor, s: Shape): (t: Tensor)
    ensures t.shape == s
  {
    Generate(s, (c: nat, i: nat, j: nat) => column.Get(0, FlatIndex(s, c, i, j), 0))
  }

  /** Flattening loses nothing: unflattening to the original shape gives
      the input back. */
  lemma UnflattenFlatten(input: Tensor)
    ensures Unflatten(ForwardWithNoChannels(input).value, input.shape) == input
  {
    var t := Unflatten(ForwardWithNoChannels(input).value, input.shape);
    Extensionality(t, input);
  }

  /** Every output position holds some input element: the `N` flat indices
      of the input's cells are exactly `0..N`. */
  lemma FlatIndexOnto(s: Shape, k: nat)
    requires k < s.Size()
    ensures exists c, i, j :: s.Contains(c, i, j) && FlatIndex(s, c, i, j) == k
  {
    SizeByPlanes(s);
    var c, rest := RowMajorInverse(k, s.d1 * s.d2, s.d0);
    var i, j := RowMajorInverse(rest, s.d2, s.d1);
    FlatIndexSplits(s, c, i, j);
    assert s.Contains(c, i, j) && FlatIndex(s, c, i, j) == k;
  }

  /** An array holds `C` planes of `H * W` elements each. */
  lemma SizeByPlanes(s: Shape)
    ensures s.Size() == s.d0 * (s.d1 * s.d2)
  {
    assert s.d0 * s.d1 * s.d2 == s.d0 * (s.d1 * s.d2);
  }

  /** The row and column of position `k` in `n` rows of length `m`. */
  lemma RowMajorInverse(k: nat, m: nat, n: nat) returns (i: nat, j: nat)
    requires k < n * m
    ensures i < n && j < m && RowMajor(i, j, m) == k
  {
    DivModSplit(k, m, n);
    i, j := k / m, k % m;
  }

  /** Flattening preserves the order of the elements: input cells that come
      earlier in row-major order come earlier in the column. */
  lemma FlattenPreservesOrder(s: Shape, c: nat, i: nat, j: nat, c': nat, i': nat, j': nat)
    requires s.Contains(c, i, j) && s.Contains(c', i', j')
    requires c < c' || (c == c' && i < i') || (c == c' && i == i' && j < j')
    ensures FlatIndex(s, c, i, j) < FlatIndex(s, c', i', j')
  {
    var x, x' := RowMajor(i, j, s.d2), RowMajor(i', j', s.d2);
    FlatIndexSplits(s, c, i, j);
    FlatIndexSplits(s, c', i', j');
    RowMajorBound(i, j, s.d2, s.d1);
    RowMajorBound(i', j', s.d2, s.d1);
    if c == c' {
      RowMajorMonotone(i, j, i', j', s.d2);
    }
    RowMajorMonotone(c, x, c', x', s.d1 * s.d2);
  }

  /** A `(1, N, 1)` column is a fixed point of flattening. */
  lemma FlattenIdempotent(column: Tensor)
    requires column.shape.d0 == 1 && column.shape.d2 == 1
    ensures ForwardWithNoChannels(column) == Ok(column)
  {
    var out := ForwardWithNoChannels(column).value;
    assert out.shape == column.shape by {
      SizeByPlanes(column.shape);
    }
    forall a, k, b | out.shape.Contains(a, k, b)
      ensures out.Get(a, k, b) == column.Get(a, k, b)
    {
      assert column.shape.Contains(0, k, 0);
      assert FlatIndex(column.shape, 0, k, 0) == k;
    }
    Extensionality(out, column);
  }

  /** `flatten_basic_test` of src/lib.rs: the values `0..23` in a
      `(1, 4, 6)` array become a column of 24 with 23 at index 23. */
  lemma FlattenExample(input: Tensor)
    requires input.shape == Shape(1, 4, 6)
    requires forall r, q | 0 <= r < 4 && 0 <= q < 6 :: input.Get(0, r, q) == (6 * r + q) as real
    ensures Forward(New(Option.None), input).Ok?
    ensures Forward(New(Option.None), input).value.shape == Shape(1, 24, 1)
    ensures Forward(New(Option.None), input).value.Get(0, 23, 0) == 23.0
  {
    assert FlatIndex(input.shape, 0, 3, 5) == 23;
  }
}
