/** `Math.round` and the progress percentage, in exact arithmetic. */
module Rounding {

  /** `Math.round`: to the nearest integer, ties towards positive infinity. */
  function MathRound(x: real): int {
    (x + 0.5).Floor
  }

  function Percent(done: nat, total: nat): int
    requires total > 0
  {
    MathRound(done as real / total as real * 100.0)
  }

  /** The percentage in integers: 2*total*p is within one half-step of 200*done, ties upwards. */
  lemma PercentMeaning(done: nat, total: nat)
    requires total > 0
    ensures 2 * total * Percent(done, total) <= 200 * done + total < 2 * total * (Percent(done, total) + 1)
  {
    var p := Percent(done, total);
    var q, t := done as real / total as real, total as real;
    assert q * t == done as real;
    Expand(q, t);
    assert (2 * total) as real == 2.0 * t;
    LowerMultiple(p, q * 100.0 + 0.5, 200 * done + total, 2 * total);
    UpperMultiple(p + 1, q * 100.0 + 0.5, 200 * done + total, 2 * total);
  }

  lemma Expand(q: real, t: real)
    ensures (q * 100.0 + 0.5) * (2.0 * t) == 200.0 * (q * t) + t
  {
  }

  /** An integer at most x, times m, is at most the integer x*m. */
  lemma LowerMultiple(k: int, x: real, n: int, m: nat)
    requires k as real <= x && x * m as real == n as real
    ensures m * k <= n
  {
    ScaleInequality(k as real, x, m as real);
    ProductAsReal(k, m);
    assert (m * k) as real <= n as real;
  }

  /** An integer above x, times m, is above the integer x*m. */
  lemma UpperMultiple(k: int, x: real, n: int, m: nat)
    requires x < k as real && m > 0 && x * m as real == n as real
    ensures n < m * k
  {
    ScaleStrict(x, k as real, m as real);
    ProductAsReal(k, m);
    assert (m * k) as real > n as real;
  }

  lemma ProductAsReal(a: int, b: int)
    ensures (b * a) as real == a as real * b as real
  {
  }

  lemma ScaleInequality(a: real, b: real, c: real)
    requires a <= b && c >= 0.0
    ensures a * c <= b * c
  {
  }

  lemma ScaleStrict(a: real, b: real, c: real)
    requires a < b && c > 0.0
    ensures a * c < b * c
  {
  }

  /**
    Progress stays within 0..100, never falls when more tasks are done, and reads 100 exactly when under 1 task in 200
    is left.
  */
  lemma PercentProperties(done: nat, more: nat, total: nat)
    requires total > 0 && done <= more <= total
    ensures 0 <= Percent(done, total) <= Percent(more, total) <= 100
    ensures Percent(done, total) == 100 <==> 200 * (total - done) <= total
    ensures Percent(0, total) == 0 && Percent(total, total) == 100
  {
    PercentMeaning(done, total);
    PercentMeaning(more, total);
    PercentMeaning(0, total);
    PercentMeaning(total, total);
    var p, q := Percent(done, total), Percent(more, total);
    if p > q {
      Multiples(total, q + 1, p);
    }
    if q > 100 {
      Multiples(total, 101, q);
    }
    if p < 0 {
      Multiples(total, p + 1, 0);
    }
    if p < 100 {
      Multiples(total, p + 1, 100);
    }
    FixPercent(total, Percent(0, total), 0);
    FixPercent(total, Percent(total, total), 100);
  }

  lemma Multiples(total: nat, a: int, b: int)
    requires a <= b
    ensures 2 * total * a <= 2 * total * b
  {
  }

  /** The rounded value of an exact integer percentage is that integer. */
  lemma FixPercent(total: nat, p: int, exact: int)
    requires total > 0
    requires 2 * total * p <= 2 * total * exact + total < 2 * total * (p + 1)
    ensures p == exact
  {
    if p > exact {
      Multiples(total, exact + 1, p);
    }
    if p < exact {
      Multiples(total, p + 1, exact);
    }
  }
}
