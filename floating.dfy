/**
 * Utils.FloatingEqual, the tolerant comparison of doubles behind the `==`
 * operators of the unit types, over real numbers.
 */
module Floating {

  function Abs(x: real): (y: real)
    ensures y >= 0.0 && (y == x || y == -x)
  {
    if x < 0.0 then -x else x
  }

  /** The difference of two non-zero values relative to their magnitudes. */
  function RelativeDifference(a: real, b: real): (q: real)
    requires a != 0.0 && b != 0.0
    ensures q >= 0.0
    ensures a == b ==> q == 0.0
  {
    var d := Abs(a) + Abs(b);
    assert d > 0.0;
    Abs(a - b) / d
  }

  /**
   * Equal, or both non-zero with a relative difference below `epsilon`.
   *
   * The source's middle branch (either operand zero, or the two closer than
   * double.Epsilon) compares the difference with `epsilon * double.Epsilon`.
   * For every tolerance below 0.5 that product rounds to 0 in double
   * arithmetic, and two distinct doubles are never closer than
   * double.Epsilon, so the branch answers false whenever `a != b`; the
   * tolerances used are 1e-3, 1e-5 and 1e-10.
   */
  predicate FloatingEqual(a: real, b: real, epsilon: real)
    ensures FloatingEqual(a, b, epsilon) ==> (a == 0.0 <==> b == 0.0)
    ensures epsilon <= 0.0 ==> (FloatingEqual(a, b, epsilon) <==> a == b)
  {
    a == b || (a != 0.0 && b != 0.0 && RelativeDifference(a, b) < epsilon)
  }

  lemma FloatingEqualReflexive(a: real, epsilon: real)
    ensures FloatingEqual(a, a, epsilon)
  {
  }

  lemma FloatingEqualSymmetric(a: real, b: real, epsilon: real)
    ensures FloatingEqual(a, b, epsilon) == FloatingEqual(b, a, epsilon)
  {
    if a != 0.0 && b != 0.0 {
      assert Abs(a - b) == Abs(b - a);
      assert Abs(a) + Abs(b) == Abs(b) + Abs(a);
      assert RelativeDifference(a, b) == RelativeDifference(b, a);
    }
  }

  /** Against zero the comparison is exact, whatever the tolerance. */
  lemma FloatingEqualZeroIsExact(b: real, epsilon: real)
    ensures FloatingEqual(0.0, b, epsilon) <==> b == 0.0
    ensures FloatingEqual(b, 0.0, epsilon) <==> b == 0.0
  {
  }

  /** Two distinct non-zero values are equal exactly when their relative difference is below the tolerance. */
  lemma FloatingEqualRelative(a: real, b: real, epsilon: real)
    requires a != 0.0 && b != 0.0 && a != b
    ensures Abs(a) + Abs(b) > 0.0
    ensures FloatingEqual(a, b, epsilon) <==> Abs(a - b) / (Abs(a) + Abs(b)) < epsilon
  {
  }
}
