/** The three-axis ndarray (`Array<f32, Ix3>` / `Array<f64, Ix3>`) every layer
    consumes and produces, with element values abstracted to `real`.

    The extents are stored beside the data: an ndarray keeps the length of
    every axis even when an outer axis is empty, and the dense layer reads
    the third extent of such an array. */
module Tensors {

  datatype Shape = Shape(d0: nat, d1: nat, d2: nat) {
    function Size(): nat { d0 * d1 * d2 }

    predicate Contains(i: int, j: int, k: int) {
      0 <= i < d0 && 0 <= j < d1 && 0 <= k < d2
    }

    /** Some axis has length zero, so the array holds no element. */
    predicate IsEmpty() {
      d0 == 0 || d1 == 0 || d2 == 0
    }
  }

  datatype Array3 = Array3(shape: Shape, data: seq<seq<seq<real>>>) {
    /** The nested sequences are exactly as long as the extents say. */
    predicate Valid() {
      && |data| == shape.d0
      && (forall i :: 0 <= i < |data| ==> |data[i]| == shape.d1)
      && (forall i, j :: 0 <= i < |data| && 0 <= j < |data[i]| ==> |data[i][j]| == shape.d2)
    }

    /** Element `[[i, j, k]]`; reads outside the shape are given the value
        0.0 so that the operations can be stated as total functions. Every
        operation checks its reads against the shape before returning `Ok`. */
    function Get(i: int, j: int, k: int): real {
      if 0 <= i < |data| && 0 <= j < |data[i]| && 0 <= k < |data[i][j]| then data[i][j][k] else 0.0
    }
  }

  type Tensor = t: Array3 | t.Valid() witness Array3(Shape(0, 0, 0), [])

  /** The array of shape `s` whose element `[[i, j, k]]` is `f(i, j, k)`. */
  function Generate(s: Shape, f: (nat, nat, nat) --> real): (t: Tensor)
    requires forall i: nat, j: nat, k: nat | s.Contains(i, j, k) :: f.requires(i, j, k)
    ensures t.shape == s
    ensures forall i: nat, j: nat, k: nat | s.Contains(i, j, k) :: t.Get(i, j, k) == f(i, j, k)
  {
    Array3(s, seq(s.d0, (i: nat) requires i < s.d0 =>
      seq(s.d1, (j: nat) requires j < s.d1 =>
        seq(s.d2, (k: nat) requires k < s.d2 => assert s.Contains(i, j, k); f(i, j, k)))))
  }

  /** `Array::zeros(s)` */
  function Zeros(s: Shape): (t: Tensor)
    ensures t.shape == s
    ensures forall i, j, k :: t.Get(i, j, k) == 0.0
  {
    Generate(s, (i, j, k) => 0.0)
  }

  /** Two arrays are equal exactly when they have the same shape and agree
      on every element inside it. */
  lemma Extensionality(a: Tensor, b: Tensor)
    requires a.shape == b.shape
    requires forall i, j, k | a.shape.Contains(i, j, k) :: a.Get(i, j, k) == b.Get(i, j, k)
    ensures a == b
  {
    forall i | 0 <= i < a.shape.d0
      ensures a.data[i] == b.data[i]
    {
      forall j | 0 <= j < a.shape.d1
        ensures a.data[i][j] == b.data[i][j]
      {
        forall k | 0 <= k < a.shape.d2
          ensures a.data[i][j][k] == b.data[i][j][k]
        {
          assert a.Get(i, j, k) == b.Get(i, j, k);
        }
      }
    }
  }
}
