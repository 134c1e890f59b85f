/** Fixed-point money: amounts are kept as whole cents, and a non-negative
    exact decimal is brought to two places with HALF_UP rounding. */
module Decimal {

  /** Number of fractional digits every stored or computed amount carries. */
  const DecimalPlaces := 2

  /** The value of a whole number of cents, as an exact decimal. */
  function CentsValue(c: int): (x: real)
    ensures x * 100.0 == c as real
  {
    c as real / 100.0
  }

  /** HALF_UP rounding of a non-negative exact amount to two decimal places,
      given in cents: the nearest cent, a tie going to the larger one. */
  function RoundHalfUpCents(x: real): (c: nat)
    requires x >= 0.0
    ensures c as real - 0.5 <= x * 100.0 < c as real + 0.5
  {
    (x * 100.0 + 0.5).Floor
  }

  /** The rounding condition admits exactly one number of cents. */
  lemma RoundHalfUpIsUnique(x: real, c: int)
    requires x >= 0.0
    requires c as real - 0.5 <= x * 100.0 < c as real + 0.5
    ensures RoundHalfUpCents(x) == c
  {
  }

  /** HALF_UP at two places: 100.123 gives 100.12, 99.999 gives 100.00,
      0.125 gives 0.13 and 50.123 gives 50.12. */
  lemma RoundingExamples()
    ensures RoundHalfUpCents(100.123) == 10012
    ensures RoundHalfUpCents(99.999) == 10000
    ensures RoundHalfUpCents(0.125) == 13
    ensures RoundHalfUpCents(50.123) == 5012 && RoundHalfUpCents(150.456) == 15046
  {
  }

  /** An amount that already has two decimal places is left as it is. */
  lemma RoundWholeCents(c: nat)
    ensures RoundHalfUpCents(CentsValue(c)) == c
  {
    RoundHalfUpIsUnique(CentsValue(c), c);
  }

  /** Integer division agrees with the floor of exact division. */
  lemma DivIsFloor(a: nat, b: nat)
    requires b > 0
    ensures (a as real / b as real).Floor == a / b
  {
    var q, m := a / b, a % b;
    assert a == q * b + m && 0 <= m < b;
    assert a as real / b as real == q as real + m as real / b as real;
    assert 0.0 <= m as real / b as real < 1.0;
  }

  /** Adding one half to `t / n` is the same as dividing `2t + n` by `2n`. */
  lemma AddHalf(t: nat, n: nat)
    requires n > 0
    ensures t as real / n as real + 0.5 == (2 * t + n) as real / (2 * n) as real
  {
    var tr, nr := t as real, n as real;
    calc {
      (2 * t + n) as real / (2 * n) as real;
      (2.0 * tr + nr) / (2.0 * nr);
      (2.0 * tr) / (2.0 * nr) + nr / (2.0 * nr);
      { assert nr / (2.0 * nr) == 0.5; }
      (2.0 * tr) / (2.0 * nr) + 0.5;
      { assert (2.0 * tr) / (2.0 * nr) == tr / nr; }
      tr / nr + 0.5;
    }
  }

  /** Dividing a total of `t` cents by a count `n` and rounding HALF_UP to two
      places gives `(2t + n) / (2n)` cents. */
  lemma {:induction false} AverageCents(t: nat, n: nat)
    requires n > 0
    ensures RoundHalfUpCents(CentsValue(t) / n as real) == (2 * t + n) / (2 * n)
  {
    var x := CentsValue(t) / n as real;
    assert x * 100.0 == t as real / n as real;
    AddHalf(t, n);
    DivIsFloor(2 * t + n, 2 * n);
  }
}
