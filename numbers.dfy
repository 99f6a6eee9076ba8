/** Arithmetic shared by the scoring code and the telemetry summary. */
module Numbers {

  /** Python's `max` of two reals. */
  function Max(a: real, b: real): (m: real)
    ensures m >= a && m >= b && (m == a || m == b)
  {
    if a >= b then a else b
  }

  // Facts about real products and quotients, kept apart so that each
  // nonlinear step is proved on its own.

  lemma MulNonNegative(a: real, b: real)
    requires a >= 0.0 && b >= 0.0
    ensures a * b >= 0.0
  {
  }

  lemma MulZero(a: real, b: real)
    requires a * b == 0.0
    ensures a == 0.0 || b == 0.0
  {
  }

  lemma DivFacts(a: real, b: real)
    requires b > 0.0
    ensures 0.0 <= a <= b ==> 0.0 <= a / b <= 1.0
    ensures a / b == 1.0 ==> a == b
    ensures a / b == 0.0 <==> a == 0.0
    ensures a > 0.0 ==> a / b > 0.0
  {
  }

  lemma DivBelow(a: real, b: real, d: real)
    requires d > 0.0 && 0.0 <= a < b * d
    ensures 0.0 <= a / d < b
  {
    var q := a / d;
    assert q * d == a;
  }

  lemma DivNonNegative(a: real, d: real)
    requires a >= 0.0 && d > 0.0
    ensures a / d >= 0.0
  {
  }

  lemma MulBelow(a: real, b: real)
    requires a >= 0.0 && 0.0 <= b < 1.0
    ensures 0.0 <= a * b <= a
  {
  }
}
