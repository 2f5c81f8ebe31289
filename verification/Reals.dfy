/** Small facts about real arithmetic that the solver needs in isolation. */
module Reals {

  lemma DivideBack(x: real, n: real)
    requires n != 0.0
    ensures (x / n) * n == x
  {
  }

  lemma Cancel(a: real, b: real, n: real)
    requires n > 0.0 && a * n <= b * n
    ensures a <= b
  {
    if a > b {
      Scale(b, a, n);
      assert false;
    }
  }

  lemma Scale(a: real, b: real, n: real)
    requires n > 0.0 && a < b
    ensures a * n < b * n
  {
    assert (b - a) * n > 0.0;
    assert (b - a) * n == b * n - a * n;
  }

  lemma Shrinks(f: real, n: real)
    requires 0.0 <= f < 1.0 && n > 0.0
    ensures 0.0 <= f * n < n && (f * n > 0.0 <==> f > 0.0)
  {
    assert (1.0 - f) * n > 0.0;
    assert (1.0 - f) * n == n - f * n;
  }

  lemma CancelEqual(a: real, b: real, n: real)
    requires n != 0.0 && a * n == b * n
    ensures a == b
  {
    assert (a - b) * n == 0.0;
  }

  lemma Fraction(c: real, n: real)
    requires 0.0 <= c <= 1.0 && n >= 0.0
    ensures 0.0 <= c * n <= n
  {
    assert (1.0 - c) * n >= 0.0;
    assert (1.0 - c) * n == n - c * n;
  }

  lemma CrossMultiply(x: real, n: real, u: real, b: real)
    requires n > 0.0
    ensures x / n * u < b <==> x * u < b * n
  {
    var f := x / n;
    DivideBack(x, n);
    assert (f * u) * n == x * u by {
      assert (f * u) * n == (f * n) * u;
    }
    if f * u < b {
      Scale(f * u, b, n);
    } else if x * u < b * n {
      Cancel(b, f * u, n);
    }
  }

  lemma PositiveProduct(a: real, b: real)
    requires a > 0.0 && b > 0.0
    ensures a * b > 0.0
  {
  }

  lemma Share(part: real, whole: real)
    requires 0.0 <= part <= whole && whole > 0.0
    ensures 0.0 <= part / whole <= 1.0 && (part / whole) * whole == part
  {
    DivideBack(part, whole);
    Cancel(0.0, part / whole, whole);
    Cancel(part / whole, 1.0, whole);
  }
}
