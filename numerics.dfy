/**
 The two numeric primitives the inflation calculator leans on, over exact
 reals: `Pow` stands for `Mathf.Pow` raised to a whole number of periods, and
 `Trunc` for the C# `(int)` conversion of a floating-point value, which drops
 the fractional part toward zero.
 */
module Numerics {

  /** x raised to the n-th power; x^0 is 1 for every x, as with Mathf.Pow. */
  function Pow(x: real, n: nat): (r: real)
    ensures 0.0 <= x ==> 0.0 <= r
    ensures 1.0 <= x ==> 1.0 <= r
  {
    if n == 0 then 1.0 else x * Pow(x, n - 1)
  }

  /** The product of two non-negative reals is non-negative. */
  lemma ProductNonNegative(a: real, b: real)
    requires 0.0 <= a && 0.0 <= b
    ensures 0.0 <= a * b
  {
  }

  /** Multiplying by a non-negative factor preserves order. */
  lemma ScaleMonotone(c: real, x: real, y: real)
    requires 0.0 <= c && x <= y
    ensures x * c <= y * c && c * x <= c * y
  {
    ProductNonNegative(c, y - x);
  }

  /** A positive factor can be cancelled from a strict inequality of products. */
  lemma CancelFactor(a: int, b: int, d: int)
    requires 0 < d
    requires a * d < b * d
    ensures a < b
  {
  }

  /** Raising one to any power gives one. */
  lemma {:induction false} PowOne(n: nat)
    ensures Pow(1.0, n) == 1.0
  {
    if n > 0 {
      PowOne(n - 1);
    }
  }

  /** Powers of a base of at least one never shrink as the exponent grows. */
  lemma {:induction false} PowMonotone(x: real, m: nat, n: nat)
    requires 1.0 <= x
    requires m <= n
    ensures Pow(x, m) <= Pow(x, n)
  {
    if m < n {
      PowMonotone(x, m, n - 1);
      var p := Pow(x, n - 1);
      assert Pow(x, n) == x * p;
      assert p <= x * p by {
        ProductNonNegative(x - 1.0, p);
      }
    }
  }

  /** Bernoulli's inequality: (1 + r)^n is at least 1 + n*r whenever r >= -1. */
  lemma {:induction false} Bernoulli(r: real, n: nat)
    requires -1.0 <= r
    ensures 1.0 + (n as real) * r <= Pow(1.0 + r, n)
  {
    if n > 0 {
      Bernoulli(r, n - 1);
      var k := (n - 1) as real;
      var p := Pow(1.0 + r, n - 1);
      assert Pow(1.0 + r, n) == (1.0 + r) * p;
      assert (1.0 + r) * (1.0 + k * r) <= (1.0 + r) * p by {
        ProductNonNegative(1.0 + r, p - (1.0 + k * r));
      }
      assert (1.0 + r) * (1.0 + k * r) == 1.0 + (k + 1.0) * r + k * r * r;
      assert 0.0 <= k * (r * r);
    }
  }

  /** The strict form of Bernoulli's inequality: from two factors on, a nonzero
      r >= -1 makes (1 + r)^n exceed 1 + n*r. */
  lemma BernoulliStrict(r: real, n: nat)
    requires -1.0 <= r && r != 0.0
    requires 2 <= n
    ensures 1.0 + (n as real) * r < Pow(1.0 + r, n)
  {
    Bernoulli(r, n - 1);
    var k := (n - 1) as real;
    var p := Pow(1.0 + r, n - 1);
    assert 0.0 < k * (r * r) by {
      assert 0.0 < r * r;
    }
    calc {
      1.0 + (n as real) * r;
    ==
      1.0 + (k + 1.0) * r;
    <
      1.0 + (k + 1.0) * r + k * (r * r);
    ==
      (1.0 + r) * (1.0 + k * r);
    <=  { ProductNonNegative(1.0 + r, p - (1.0 + k * r)); }
      (1.0 + r) * p;
    ==
      Pow(1.0 + r, n);
    }
  }

  /** The C# conversion of a floating-point value to `int`: the fractional part
      is dropped, rounding toward zero on both sides of zero. A negative value
      truncates to the negation of its magnitude's truncation. */
  function Trunc(x: real): int
    decreases if x < 0.0 then 1 else 0
  {
    if x < 0.0 then -Trunc(-x) else x.Floor
  }

  /** Truncation lands within one of its argument, on the side of zero. */
  lemma TruncBounds(x: real)
    ensures 0.0 <= x ==> Trunc(x) as real <= x < Trunc(x) as real + 1.0
    ensures x < 0.0 ==> Trunc(x) as real - 1.0 < x <= Trunc(x) as real
  {
  }

  /** On non-negative values truncation is the floor, and never below zero. */
  lemma TruncOfNonNegative(x: real)
    requires 0.0 <= x
    ensures Trunc(x) == x.Floor
    ensures 0 <= Trunc(x)
  {
  }

  /** Whole numbers pass through truncation unchanged. */
  lemma TruncOfInt(n: int)
    ensures Trunc(n as real) == n
  {
  }

  /** Truncation toward zero gives a negative integer exactly when its
      argument is at most -1: anything in (-1, 0) becomes zero. */
  lemma TruncNegativeExactly(x: real)
    ensures Trunc(x) < 0 <==> x <= -1.0
  {
    if x < 0.0 {
      assert Trunc(x) == -((-x).Floor);
    }
  }

  /** Equal values truncate alike. Stated for two names of one value, so that
      a proof can hand over two differently written expressions that the
      arithmetic shows equal. */
  lemma TruncOfEqual(x: real, y: real)
    requires x == y
    ensures Trunc(x) == Trunc(y)
  {
  }

  /** Truncation is odd: it commutes with negation, which the floor does not.
      The negated value is its own parameter so that callers can pass it in
      whatever form their terms have. */
  lemma TruncOfNegation(x: real, y: real)
    requires y == -x
    ensures Trunc(y) == -Trunc(x)
  {
  }

  /** Truncation preserves order. */
  lemma TruncMonotone(x: real, y: real)
    requires x <= y
    ensures Trunc(x) <= Trunc(y)
  {
  }

  /** A value at least as large as a whole number truncates to at least it. */
  lemma TruncAtLeast(n: int, x: real)
    requires n as real <= x
    ensures n <= Trunc(x)
  {
    TruncMonotone(n as real, x);
  }

  /** A whole number below two growing values stays below their truncations,
      and the truncations keep their order. */
  lemma TruncGrowth(c: int, x: real, y: real)
    requires c as real <= x <= y
    ensures c <= Trunc(x) <= Trunc(y)
  {
    TruncAtLeast(c, x);
    TruncMonotone(x, y);
  }

  /** Scaling a non-negative number by growing factors of at least one never
      goes below the number and never decreases. */
  lemma ScaledGrowth(c: real, f: real, g: real)
    requires 0.0 <= c && 1.0 <= f <= g
    ensures c <= c * f <= c * g
  {
    ScaleMonotone(c, 1.0, f);
    ScaleMonotone(c, f, g);
  }

  /** Adding a growing non-negative multiple of a non-negative number to it
      never goes below the number and never decreases. */
  lemma LinearGrowth(c: real, r: real, m: real, n: real)
    requires 0.0 <= c && 0.0 <= r && 0.0 <= m <= n
    ensures c <= m * r * c + c <= n * r * c + c
  {
    ScaleMonotone(r, 0.0, m);
    ScaleMonotone(r, m, n);
    ScaleMonotone(c, 0.0, m * r);
    ScaleMonotone(c, m * r, n * r);
  }

  /** n periods of a rate r on c, added to c, is c scaled by 1 + n*r. */
  lemma LinearAsScale(c: real, r: real, n: real)
    ensures n * r * c + c == c * (1.0 + n * r)
  {
  }

  /** When n parts of a rate r make up the rate a, adding the n parts on c to
      c adds the rate a on c. */
  lemma SpreadRate(c: real, r: real, a: real, n: real)
    requires n * r == a
    ensures n * r * c + c == c + a * c
  {
  }

  // The lemmas below state facts about the two inflation formulas in the exact
  // shapes the formulas are written in, so that a caller only has to unfold a
  // formula and cite one of them.

  /** Simple inflation of a non-negative amount at a non-negative rate never
      goes below the amount and never decreases with more periods. */
  lemma TruncLinearGrowth(c: int, r: real, m: nat, n: nat)
    requires 0 <= c && 0.0 <= r && m <= n
    ensures c <= Trunc((m as real) * r * (c as real) + c as real)
                <= Trunc((n as real) * r * (c as real) + c as real)
  {
    LinearGrowth(c as real, r, m as real, n as real);
    TruncGrowth(c, (m as real) * r * (c as real) + c as real,
                (n as real) * r * (c as real) + c as real);
  }

  /** Scaling a non-negative amount by growing factors of at least one never
      goes below the amount and never decreases. */
  lemma TruncScaledGrowth(c: int, f: real, g: real)
    requires 0 <= c && 1.0 <= f <= g
    ensures c <= Trunc(c as real * f) <= Trunc(c as real * g)
  {
    ScaledGrowth(c as real, f, g);
    TruncGrowth(c, c as real * f, c as real * g);
  }

  /** Simple inflation of a non-negative amount is at most its scaling by any
      factor of at least 1 + n*r. */
  lemma TruncLinearBelowScaled(c: int, r: real, n: nat, f: real)
    requires 0 <= c && 1.0 + (n as real) * r <= f
    ensures Trunc((n as real) * r * (c as real) + c as real) <= Trunc(c as real * f)
  {
    LinearAsScale(c as real, r, n as real);
    ScaleMonotone(c as real, 1.0 + (n as real) * r, f);
    TruncMonotone((n as real) * r * (c as real) + c as real, c as real * f);
  }

  /** One period of simple inflation is a scaling by 1 + r. The period count
      and the factor are parameters pinned by the precondition, so that callers
      match terms rather than redo the arithmetic. */
  lemma TruncLinearOnePeriod(c: int, r: real, n: nat, f: real)
    requires n == 1 && f == 1.0 + r
    ensures Trunc((n as real) * r * (c as real) + c as real) == Trunc(c as real * f)
  {
    LinearAsScale(c as real, r, n as real);
    TruncOfEqual((n as real) * r * (c as real) + c as real, c as real * f);
  }

  /** n periods of simple inflation at a rate r that makes up the rate a in n
      parts add exactly the rate a. */
  lemma TruncLinearSpreadRate(c: int, r: real, a: real, n: nat)
    requires (n as real) * r == a
    ensures Trunc((n as real) * r * (c as real) + c as real) == Trunc(c as real + a * c as real)
  {
    SpreadRate(c as real, r, a, n as real);
    TruncOfEqual((n as real) * r * (c as real) + c as real, c as real + a * c as real);
  }

  /** Simple inflation of a negated amount d == -c is the negated result. */
  lemma TruncLinearOdd(c: int, d: int, r: real, n: nat)
    requires d == -c
    ensures Trunc((n as real) * r * (d as real) + d as real)
         == -Trunc((n as real) * r * (c as real) + c as real)
  {
    assert (n as real) * r * (d as real) + d as real
        == -((n as real) * r * (c as real) + c as real);
    TruncOfNegation((n as real) * r * (c as real) + c as real,
                    (n as real) * r * (d as real) + d as real);
  }

  /** Scaling a negated amount d == -c and truncating gives the negated result. */
  lemma TruncScaledOdd(c: int, d: int, f: real)
    requires d == -c
    ensures Trunc(d as real * f) == -Trunc(c as real * f)
  {
    assert d as real * f == -(c as real * f);
    TruncOfNegation(c as real * f, d as real * f);
  }
}
