/** Angle: a bearing in degrees, always normalised into [0, 360). */
module Angles {
  import opened Wrappers
  import opened Exceptions
  import Numerals

  type Degrees = d: real | 0.0 <= d < 360.0

  datatype Angle = Angle(degrees: Degrees)

  const Zero: Angle := Angle(0.0)
  const North: Angle := Zero
  const East: Angle := Angle(90.0)
  const South: Angle := Angle(180.0)
  const West: Angle := Angle(270.0)

  /** C#'s `d % 360` on doubles: the remainder of a division truncated toward zero, with the sign of `d`. */
  function Remainder360(d: real): (r: real)
    ensures d >= 0.0 ==> 0.0 <= r < 360.0
    ensures d < 0.0 ==> -360.0 < r <= 0.0
  {
    d - 360.0 * Numerals.Truncate(d / 360.0) as real
  }

  /** The normalisation of the private constructor: `d % 360`, plus 360 when that is negative. */
  function Normalize(d: real): (r: Degrees)
    ensures r == d - 360.0 * (d / 360.0).Floor as real
  {
    var m := Remainder360(d);
    TruncateAndFloor(d / 360.0);
    if m < 0.0 then m + 360.0 else m
  }

  lemma TruncateAndFloor(x: real)
    ensures x >= 0.0 || x.Floor as real == x ==> Numerals.Truncate(x) == x.Floor
    ensures x < 0.0 && x.Floor as real != x ==> Numerals.Truncate(x) == x.Floor + 1
  {
  }

  /** Angle.FromDegrees. */
  function FromDegrees(d: real): (a: Angle)
    ensures 0.0 <= d < 360.0 ==> a.degrees == d
  {
    Angle(Normalize(d))
  }

  /** A negative bearing is counted back from 360: -90 degrees is West. */
  lemma FromDegreesNegative()
    ensures FromDegrees(-90.0) == West
    ensures FromDegrees(-360.0) == North
    ensures FromDegrees(720.0) == North
  {
  }

  /** Bearings a full turn apart are the same angle. */
  lemma {:induction false} FromDegreesPeriodic(d: real)
    ensures Equals(FromDegrees(d), FromDegrees(d + 360.0))
    ensures FromDegrees(d) == FromDegrees(d - 360.0)
  {
    var x := d / 360.0;
    assert (d + 360.0) / 360.0 == x + 1.0;
    assert (x + 1.0).Floor == x.Floor + 1;
    assert (d - 360.0) / 360.0 == x - 1.0;
    assert (x - 1.0).Floor == x.Floor - 1;
  }

  /** Normalising an angle's own degrees leaves them unchanged. */
  lemma NormalizeIdempotent(a: Angle)
    ensures FromDegrees(a.degrees) == a
  {
  }

  /** operator +: the sum, re-normalised. */
  function Add(a: Angle, b: Angle): (r: Angle)
    ensures r.degrees == a.degrees + b.degrees || r.degrees == a.degrees + b.degrees - 360.0
  {
    var s := a.degrees + b.degrees;
    assert 0.0 <= s / 360.0 < 2.0;
    FromDegrees(s)
  }

  /** operator -: the difference, re-normalised. */
  function Sub(a: Angle, b: Angle): (r: Angle)
    ensures r.degrees == a.degrees - b.degrees || r.degrees == a.degrees - b.degrees + 360.0
  {
    var s := a.degrees - b.degrees;
    assert -1.0 < s / 360.0 < 1.0;
    FromDegrees(s)
  }

  /** operator * (Angle, double) and operator * (double, Angle): the product, re-normalised. */
  function Scale(a: Angle, k: real): (r: Angle)
    ensures 0.0 <= a.degrees * k < 360.0 ==> r.degrees == a.degrees * k
    ensures k == 1.0 ==> r == a
  {
    FromDegrees(a.degrees * k)
  }

  /**
   * operator / (Angle, double): the quotient, re-normalised; dividing by zero
   * gives an infinity or NaN, which the constructor rejects.
   */
  function Div(a: Angle, k: real): (r: Result<Angle, Exception>)
    ensures r.Failure? <==> k == 0.0
    ensures r.Failure? ==> r.error == ArgumentOutOfRange("degrees")
    ensures k >= 1.0 ==> r.Success? && r.value.degrees == a.degrees / k
  {
    if k == 0.0 then Failure(ArgumentOutOfRange("degrees"))
    else
      assert k >= 1.0 ==> 0.0 <= a.degrees / k <= a.degrees;
      Success(FromDegrees(a.degrees / k))
  }

  /** Turning by an angle and back returns to the start; going round the compass returns to North. */
  lemma AddSubInverse(a: Angle, b: Angle)
    ensures Sub(Add(a, b), b) == a
    ensures Add(Add(East, South), East) == North
  {
  }

  /** Angle.Equals(Angle): the normalised degrees are equal. */
  predicate Equals(a: Angle, other: Angle) {
    a.degrees == other.degrees
  }
}
