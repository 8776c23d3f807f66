/** Activation functions (src/activation/mod.rs) over exact reals.

    `sigmoid` and `tanh` are built on the floating-point exponential; the
    model does not define them and takes them as a `Transcendentals`
    parameter wherever a layer dispatches to them. */
module Activation {
  import opened Base
  import Sums

  datatype ActivationFunctionType = None | Sigmoid | Relu | LeakyRelu | Tanh | Softmax

  /** Every variant of `ActivationFunctionType`, in declaration order. */
  function Variants(): (vs: seq<ActivationFunctionType>)
    ensures |vs| == 6
    ensures forall i, j :: 0 <= i < j < |vs| ==> vs[i] != vs[j]
  {
    [ActivationFunctionType.None, Sigmoid, ActivationFunctionType.Relu,
     ActivationFunctionType.LeakyRelu, Tanh, Softmax]
  }

  /** The enumeration is closed: there is no seventh kind of activation. */
  lemma VariantsAreExhaustive(a: ActivationFunctionType)
    ensures a in Variants()
  {
    match a
    case None => assert Variants()[0] == a;
    case Sigmoid => assert Variants()[1] == a;
    case Relu => assert Variants()[2] == a;
    case LeakyRelu => assert Variants()[3] == a;
    case Tanh => assert Variants()[4] == a;
    case Softmax => assert Variants()[5] == a;
  }

  /** The exponential-based activations, supplied from outside the model. */
  datatype Transcendentals = Transcendentals(sigmoid: real -> real, tanh: real -> real)

  /** `relu(x) = x.max(0.0)` */
  function ReLU(x: real): (r: real)
    ensures r >= 0.0 && r >= x
    ensures r == x || r == 0.0
  {
    Sums.Max(x, 0.0)
  }

  /** The leak factor `leaky_relu` uses when none is given. */
  const DefaultAlpha: real := 0.1

  /** `leaky_relu(x, alpha) = x.max(alpha.unwrap_or(0.1) * x)` */
  function LeakyReLU(x: real, alpha: Option<real>): (r: real)
    ensures r >= x && r >= alpha.UnwrapOr(DefaultAlpha) * x
    ensures r == x || r == alpha.UnwrapOr(DefaultAlpha) * x
  {
    Sums.Max(x, alpha.UnwrapOr(DefaultAlpha) * x)
  }

  lemma ReluIsPiecewiseIdentity(x: real)
    ensures x >= 0.0 ==> ReLU(x) == x
    ensures x < 0.0 ==> ReLU(x) == 0.0
  {
  }

  lemma ReluIdempotent(x: real)
    ensures ReLU(ReLU(x)) == ReLU(x)
  {
  }

  /** The two values `relu_works` in src/lib.rs checks. */
  lemma ReluExamples()
    ensures ReLU(-2.0) == 0.0
    ensures ReLU(3.0) == 3.0
  {
  }

  /** For a leak factor in `[0, 1]` the maximum picks `x` on the
      non-negative side and `alpha * x` on the negative side. */
  lemma LeakyReluIsPiecewiseLinear(x: real, alpha: real)
    requires 0.0 <= alpha <= 1.0
    ensures x >= 0.0 ==> LeakyReLU(x, Some(alpha)) == x
    ensures x < 0.0 ==> LeakyReLU(x, Some(alpha)) == alpha * x
  {
    var gap := (1.0 - alpha) * x;
    assert alpha * x == x - gap;
    if x >= 0.0 {
      ProductSign(1.0 - alpha, x);
    } else {
      ProductSign(1.0 - alpha, -x);
      assert -gap == (1.0 - alpha) * -x;
    }
  }

  lemma ProductSign(a: real, b: real)
    requires a >= 0.0 && b >= 0.0
    ensures a * b >= 0.0
  {
  }

  /** Without an explicit factor the leak is one tenth. */
  lemma LeakyReluDefault(x: real)
    ensures x >= 0.0 ==> LeakyReLU(x, Option.None) == x
    ensures x < 0.0 ==> LeakyReLU(x, Option.None) == x / 10.0
  {
    LeakyReluIsPiecewiseLinear(x, DefaultAlpha);
  }

  /** With a zero leak the leaky variant is plain `relu`. */
  lemma LeakyReluZeroIsRelu(x: real)
    ensures LeakyReLU(x, Some(0.0)) == ReLU(x)
  {
  }
}
