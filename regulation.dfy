/** The regulation factors and their exponential decay over the local
    iterations of one cell. */
module Regulation {

  /** The base strengths k1 (corners), k2 (edges), k3 (interior) and the
      per-iteration decay rate, passed explicitly instead of read from a
      process-wide holder. */
  datatype Factors = Factors(k1: real, k2: real, k3: real, decayRate: real)

  /** The values the holder class carries. */
  const Defaults: Factors := Factors(0.01, 0.01, 0.01, 0.95)

  /** `base ** n` for a natural exponent. */
  function Pow(base: real, n: nat): real
  {
    if n == 0 then 1.0 else base * Pow(base, n - 1)
  }

  /** The decayed regulation factor `initialValue * decayRate ** iteration`. */
  function Decay(initialValue: real, iteration: nat, decayRate: real): (r: real)
    ensures iteration == 0 ==> r == initialValue
    ensures decayRate == 0.0 && iteration > 0 ==> r == 0.0
    ensures initialValue == 0.0 ==> r == 0.0
  {
    initialValue * Pow(decayRate, iteration)
  }

  /** Scaling a non-negative value by a factor in [0, 1]. */
  lemma ScaleDown(x: real, s: real)
    requires x >= 0.0 && 0.0 <= s <= 1.0
    ensures 0.0 <= s * x <= x && 0.0 <= x * s <= x
  {
    assert x - s * x == (1.0 - s) * x;
  }

  lemma ScaleDownStrictly(x: real, s: real)
    requires x > 0.0 && 0.0 < s <= 1.0
    ensures x * s > 0.0 && (s < 1.0 ==> s * x < x)
  {
    assert x - s * x == (1.0 - s) * x;
  }

  lemma {:induction false} PowAdd(base: real, m: nat, n: nat)
    ensures Pow(base, m + n) == Pow(base, m) * Pow(base, n)
  {
    if m > 0 {
      PowAdd(base, m - 1, n);
      assert Pow(base, m + n) == base * Pow(base, m - 1 + n);
    }
  }

  lemma {:induction false} PowUnit(base: real, n: nat)
    requires 0.0 <= base <= 1.0
    ensures 0.0 <= Pow(base, n) <= 1.0
    ensures base > 0.0 ==> Pow(base, n) > 0.0
  {
    if n > 0 {
      PowUnit(base, n - 1);
      var p := Pow(base, n - 1);
      assert base * p <= 1.0 * p;
    }
  }

  /** Decaying first by `m` iterations and then by `n` more is decaying by
      `m + n` iterations. */
  lemma {:induction false} DecayCompose(initialValue: real, m: nat, n: nat, decayRate: real)
    ensures Decay(Decay(initialValue, m, decayRate), n, decayRate)
         == Decay(initialValue, m + n, decayRate)
  {
    PowAdd(decayRate, m, n);
  }

  /** Multiplying by a non-negative value keeps order. */
  lemma MulLe(x: real, a: real, b: real, xa: real, xb: real)
    requires x >= 0.0 && a <= b && xa == x * a && xb == x * b
    ensures xa <= xb
  {
    assert xb - xa == x * (b - a);
  }

  /** Multiplying by a positive value keeps strict order. */
  lemma MulLess(x: real, a: real, b: real, xa: real, xb: real)
    requires x > 0.0 && a < b && xa == x * a && xb == x * b
    ensures xa < xb
  {
    assert xb - xa == x * (b - a);
  }

  /** The arithmetic of one decay step: with `before == x * p` and
      `after == x * q` for `q == rate * p`, `after` lies between 0 and
      `before`. */
  lemma ShrinkStep(x: real, rate: real, p: real, q: real, before: real, after: real)
    requires x >= 0.0 && 0.0 <= rate <= 1.0 && 0.0 <= p <= 1.0 && q == rate * p
    requires before == x * p && after == x * q
    ensures 0.0 <= after <= before <= x
  {
    ScaleDown(p, rate);
    MulLe(x, 0.0, q, 0.0, after);
    MulLe(x, q, p, after, before);
    MulLe(x, p, 1.0, before, x);
  }

  /** The same step is strict when every factor is positive and the rate is
      below 1. */
  lemma ShrinkStrictly(x: real, rate: real, p: real, q: real, before: real, after: real)
    requires x > 0.0 && 0.0 < rate < 1.0 && p > 0.0 && q == rate * p
    requires before == x * p && after == x * q
    ensures after < before
  {
    ScaleDownStrictly(p, rate);
    MulLess(x, q, p, after, before);
  }

  /** With a non-negative factor and a rate in [0, 1], each iteration's factor
      is between 0 and the previous one; strictly smaller when the factor is
      positive and the rate lies in (0, 1). */
  lemma {:induction false} DecayShrinks(initialValue: real, iteration: nat, decayRate: real)
    requires initialValue >= 0.0
    requires 0.0 <= decayRate <= 1.0
    ensures 0.0 <= Decay(initialValue, iteration + 1, decayRate) <= Decay(initialValue, iteration, decayRate)
    ensures initialValue > 0.0 && 0.0 < decayRate < 1.0 ==>
              Decay(initialValue, iteration + 1, decayRate) < Decay(initialValue, iteration, decayRate)
    ensures Decay(initialValue, iteration, decayRate) <= initialValue
  {
    PowUnit(decayRate, iteration);
    var p, q := Pow(decayRate, iteration), Pow(decayRate, iteration + 1);
    var before, after := Decay(initialValue, iteration, decayRate), Decay(initialValue, iteration + 1, decayRate);
    ShrinkStep(initialValue, decayRate, p, q, before, after);
    if initialValue > 0.0 && 0.0 < decayRate < 1.0 {
      ShrinkStrictly(initialValue, decayRate, p, q, before, after);
    }
  }
}
