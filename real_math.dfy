/**
 * Exact real arithmetic used by the valuation: integer powers (Python's
 * `x ** i` with an integer exponent), left-to-right sums (Python's `sum`)
 * and the order facts the monotonicity proofs rest on.
 */
module RealMath {

  /** `b ** n` for a natural exponent. */
  function Pow(b: real, n: nat): (y: real)
  {
    if n == 0 then 1.0 else Pow(b, n - 1) * b
  }

  /** Python's `sum(xs)`: 0 plus the elements, added left to right. */
  function Sum(xs: seq<real>): (s: real)
  {
    if xs == [] then 0.0 else Sum(xs[..|xs| - 1]) + xs[|xs| - 1]
  }

  function Abs(x: real): (r: real)
    ensures r >= 0.0 && (r == x || r == -x)
  {
    if x < 0.0 then -x else x
  }

  lemma {:induction false} PowPositive(b: real, n: nat)
    requires b > 0.0
    ensures Pow(b, n) > 0.0
  {
    if n > 0 {
      PowPositive(b, n - 1);
      MulPositive(Pow(b, n - 1), b);
    }
  }

  lemma {:induction false} PowNonzero(b: real, n: nat)
    requires b != 0.0
    ensures Pow(b, n) != 0.0
  {
    if n > 0 {
      PowNonzero(b, n - 1);
      MulNonzero(Pow(b, n - 1), b);
    }
  }

  lemma {:induction false} PowOfOne(n: nat)
    ensures Pow(1.0, n) == 1.0
  {
    if n > 0 {
      PowOfOne(n - 1);
    }
  }

  /** `q + q^2 + ... + q^n`. */
  function PowerSum(q: real, n: nat): (s: real)
  {
    if n == 0 then 0.0 else PowerSum(q, n - 1) + Pow(q, n)
  }

  /** The geometric sum in closed form: `(q - 1)(q + ... + q^n) = q (q^n - 1)`. */
  lemma {:induction false} PowerSumClosedForm(q: real, n: nat)
    ensures PowerSum(q, n) * (q - 1.0) == q * (Pow(q, n) - 1.0)
    ensures q == 1.0 ==> PowerSum(q, n) == n as real
  {
    if n > 0 {
      PowerSumClosedForm(q, n - 1);
      PowerSumStep(PowerSum(q, n - 1), PowerSum(q, n), Pow(q, n - 1), Pow(q, n), q);
      if q == 1.0 {
        PowOfOne(n);
      }
    }
  }

  /** Entry `i - 1` of `xs` is `c q^i`: the terms `c q, c q^2, ...` of a geometric series. */
  predicate GeometricTerms(xs: seq<real>, c: real, q: real)
  {
    forall i :: 1 <= i <= |xs| ==> xs[i - 1] == c * Pow(q, i)
  }

  /** The terms `c q, ..., c q^n` add up to `c (q + ... + q^n)`. */
  lemma {:induction false} SumOfPowers(xs: seq<real>, c: real, q: real, n: nat)
    requires |xs| == n && GeometricTerms(xs, c, q)
    ensures Sum(xs) == c * PowerSum(q, n)
  {
    if n > 0 {
      var init := xs[..n - 1];
      assert xs[n - 1] == c * Pow(q, n);
      assert GeometricTerms(init, c, q) by {
        forall i | 1 <= i <= n - 1 ensures init[i - 1] == c * Pow(q, i) {
          assert init[i - 1] == xs[i - 1];
        }
      }
      SumOfPowers(init, c, q, n - 1);
      assert Sum(xs) == Sum(init) + xs[n - 1];
      AddTerm(Sum(xs), Sum(init), c, PowerSum(q, n - 1), PowerSum(q, n), Pow(q, n));
    }
  }

  lemma AddTerm(t: real, s: real, c: real, w0: real, w: real, y: real)
    requires t == s + c * y && s == c * w0 && w == w0 + y
    ensures t == c * w
  {
  }

  lemma PowerSumStep(s: real, t: real, x: real, y: real, q: real)
    requires y == x * q && t == s + y
    requires s * (q - 1.0) == q * (x - 1.0)
    ensures t * (q - 1.0) == q * (y - 1.0)
  {
  }

  /** For a positive base, a larger base gives a strictly larger power. */
  lemma {:induction false} PowStrictlyIncreasing(a: real, b: real, n: nat)
    requires 0.0 < a < b && n >= 1
    ensures 0.0 < Pow(a, n) < Pow(b, n)
  {
    if n == 1 {
      assert Pow(a, 1) == a && Pow(b, 1) == b;
    } else {
      PowStrictlyIncreasing(a, b, n - 1);
      MulStrictlyIncreasing(Pow(a, n - 1), Pow(b, n - 1), a, b);
      MulPositive(Pow(a, n - 1), a);
    }
  }

  /** A power of a quotient is the quotient of the powers. */
  lemma {:induction false} PowQuotient(a: real, b: real, n: nat)
    requires b != 0.0
    ensures Pow(b, n) != 0.0
    ensures Pow(a / b, n) == Pow(a, n) / Pow(b, n)
  {
    PowNonzero(b, n);
    if n > 0 {
      PowQuotient(a, b, n - 1);
      QuotientProduct(Pow(a, n - 1), Pow(b, n - 1), a, b);
    }
  }

  /** Raising every element strictly raises a non-empty sum strictly. */
  lemma {:induction false} SumStrictlyIncreasing(xs: seq<real>, ys: seq<real>)
    requires |xs| == |ys| >= 1
    requires forall i :: 0 <= i < |xs| ==> xs[i] < ys[i]
    ensures Sum(xs) < Sum(ys)
  {
    var n := |xs|;
    if n > 1 {
      SumStrictlyIncreasing(xs[..n - 1], ys[..n - 1]);
    } else {
      assert xs[..0] == [] && ys[..0] == [];
    }
  }

  /** A sum of terms each below `bound` stays below `|xs| * bound`. */
  lemma {:induction false} SumBelow(xs: seq<real>, bound: real)
    requires forall i :: 0 <= i < |xs| ==> xs[i] < bound
    ensures xs != [] ==> Sum(xs) < (|xs| as real) * bound
    ensures Sum(xs) <= (|xs| as real) * bound
  {
    if xs != [] {
      SumBelow(xs[..|xs| - 1], bound);
    }
  }

  /** A sum of terms each above `bound` stays above `|xs| * bound`. */
  lemma {:induction false} SumAbove(xs: seq<real>, bound: real)
    requires forall i :: 0 <= i < |xs| ==> xs[i] > bound
    ensures xs != [] ==> Sum(xs) > (|xs| as real) * bound
    ensures Sum(xs) >= (|xs| as real) * bound
  {
    if xs != [] {
      SumAbove(xs[..|xs| - 1], bound);
    }
  }

  // Small facts about real multiplication and division, stated once so
  // that the solver does not have to rediscover them inside larger proofs.

  lemma MulPositive(x: real, y: real)
    requires x > 0.0 && y > 0.0
    ensures x * y > 0.0
  {
  }

  lemma MulNonzero(x: real, y: real)
    requires x != 0.0 && y != 0.0
    ensures x * y != 0.0
  {
  }

  lemma MulStrictlyIncreasing(x1: real, x2: real, y1: real, y2: real)
    requires 0.0 < x1 < x2 && 0.0 < y1 < y2
    ensures x1 * y1 < x2 * y2
  {
    assert x1 * y1 < x2 * y1;
    assert x2 * y1 < x2 * y2;
  }

  lemma QuotientProduct(x1: real, y1: real, x2: real, y2: real)
    requires y1 != 0.0 && y2 != 0.0
    ensures (x1 / y1) * (x2 / y2) == (x1 * x2) / (y1 * y2)
  {
  }

  lemma ScaleStrictlyIncreasing(c: real, x: real, y: real)
    requires c > 0.0 && x < y
    ensures c * x < c * y && x * c < y * c
  {
  }

  lemma DivideStrictlyIncreasing(x: real, y: real, d: real)
    requires d > 0.0 && x < y
    ensures x / d < y / d
  {
    assert x / d * d == x && y / d * d == y;
  }

  lemma DividePositive(x: real, d: real)
    requires x > 0.0 && d > 0.0
    ensures x / d > 0.0
  {
  }

  lemma CancelFactor(x: real, y: real, d: real)
    requires d != 0.0 && x * d == y * d
    ensures x == y
  {
    assert x * d / d == x && y * d / d == y;
  }

  /** Dividing a positive amount by a larger positive number gives less. */
  lemma CancelDivisor(x: real, y: real, d: real)
    requires d != 0.0 && x * d == y
    ensures x == y / d
  {
  }

  lemma DivideByLarger(x: real, d1: real, d2: real)
    requires x > 0.0 && 0.0 < d1 < d2
    ensures x / d2 < x / d1
  {
    assert x / d1 * d1 == x && x / d2 * d2 == x;
  }
}
