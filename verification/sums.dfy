/** Finite sums and maxima over an index range `0..n`, the two folds the
    convolution and pooling kernels reduce a window with. */
module Sums {

  /** `f(0) + f(1) + ... + f(n-1)`, accumulated from the left. */
  function Sum(n: nat, f: nat -> real): real
  {
    if n == 0 then 0.0 else Sum(n - 1, f) + f(n - 1)
  }

  /** Sums only look at the terms inside their range. */
  lemma {:induction false} SumCongruent(n: nat, f: nat -> real, g: nat -> real)
    requires forall i: nat :: i < n ==> f(i) == g(i)
    ensures Sum(n, f) == Sum(n, g)
  {
    if n > 0 {
      SumCongruent(n - 1, f, g);
    }
  }

  /** A sum with a single non-zero term is that term. */
  lemma {:induction false} SumSingleTerm(n: nat, f: nat -> real, p: nat)
    requires p < n
    requires forall i: nat :: i < n && i != p ==> f(i) == 0.0
    ensures Sum(n, f) == f(p)
  {
    if n - 1 == p {
      SumOfZeros(n - 1, f);
    } else {
      SumSingleTerm(n - 1, f, p);
    }
  }

  lemma {:induction false} SumOfZeros(n: nat, f: nat -> real)
    requires forall i: nat :: i < n ==> f(i) == 0.0
    ensures Sum(n, f) == 0.0
  {
    if n > 0 {
      SumOfZeros(n - 1, f);
    }
  }

  function Max(a: real, b: real): (r: real)
    ensures r >= a && r >= b
    ensures r == a || r == b
  {
    if a >= b then a else b
  }

  /** The largest of `f(0), ..., f(n-1)`; the range must not be empty. */
  function MaxOver(n: nat, f: nat -> real): (r: real)
    requires n >= 1
    ensures forall i: nat :: i < n ==> f(i) <= r
    ensures exists i: nat :: i < n && f(i) == r
  {
    if n == 1 then f(0) else Max(MaxOver(n - 1, f), f(n - 1))
  }

  /** Maxima only look at the terms inside their range. */
  lemma {:induction false} MaxOverCongruent(n: nat, f: nat -> real, g: nat -> real)
    requires n >= 1
    requires forall i: nat :: i < n ==> f(i) == g(i)
    ensures MaxOver(n, f) == MaxOver(n, g)
  {
    if n > 1 {
      MaxOverCongruent(n - 1, f, g);
    }
  }
}
