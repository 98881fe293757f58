/** Exact integer powers of reals, the forward value and local derivative
    of `Node.__pow__` for a non-negative integer exponent. */
module Power {

  /** `x ** n` for a natural exponent. */
  function IntPow(x: real, n: nat): real
  {
    if n == 0 then 1.0 else x * IntPow(x, n - 1)
  }

  /** The local derivative `n * x ** (n - 1)` recorded on the edge of
      `x ** n`; it is zero when `n` is zero. */
  function PowWeight(x: real, n: nat): real
  {
    if n == 0 then 0.0 else (n as real) * IntPow(x, n - 1)
  }

  /** The divided difference of `t ** n` between `x` and `y`: the sum of
      `x ** k * y ** (n - 1 - k)` for `k < n`. */
  function DividedDifference(x: real, y: real, n: nat): real
  {
    if n == 0 then 0.0 else IntPow(x, n - 1) + y * DividedDifference(x, y, n - 1)
  }

  /** `y ** n - x ** n` factors through `y - x`. */
  lemma {:induction false} PowDifference(x: real, y: real, n: nat)
    ensures IntPow(y, n) - IntPow(x, n) == (y - x) * DividedDifference(x, y, n)
  {
    if n > 0 {
      PowDifference(x, y, n - 1);
      DifferenceStep(IntPow(y, n), IntPow(x, n), IntPow(y, n - 1), IntPow(x, n - 1),
                     DividedDifference(x, y, n - 1), DividedDifference(x, y, n), x, y);
    }
  }

  /** One step of `PowDifference`, on plain numbers. */
  lemma DifferenceStep(a: real, b: real, a1: real, b1: real, d1: real, d: real, x: real, y: real)
    requires a == y * a1 && b == x * b1
    requires a1 - b1 == (y - x) * d1 && d == b1 + y * d1
    ensures a - b == (y - x) * d
  {
    calc {
      a - b;
      y * (a1 - b1) + (y - x) * b1;
      y * ((y - x) * d1) + (y - x) * b1;
      (y - x) * (b1 + y * d1);
    }
  }

  /** At coincident points the divided difference is the recorded edge
      weight: `PowWeight` is the derivative of `t ** n` at `x`. */
  lemma {:induction false} PowWeightIsDerivative(x: real, n: nat)
    ensures DividedDifference(x, x, n) == PowWeight(x, n)
  {
    if n > 1 {
      PowWeightIsDerivative(x, n - 1);
      var q := IntPow(x, n - 2);
      var k := (n - 1) as real;
      assert IntPow(x, n - 1) == x * q;
      assert DividedDifference(x, x, n) == x * q + x * (k * q);
      assert x * q + x * (k * q) == (k + 1.0) * (x * q);
    }
  }
}
