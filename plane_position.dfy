/** PlanePosition: the kinematic state of a plane as one value. */
module PlanePositions {
  import opened Distances
  import opened Speeds
  import opened Angles
  import Floating

  /** OpenTK's Vector2d in WGS84: x is the longitude, y the latitude. */
  datatype Vector2d = Vector2d(x: real, y: real)

  datatype PlanePosition = PlanePosition(
    position: Vector2d,
    groundSpeed: Speed,
    elevation: Distance,
    pressureAltitude: Distance,
    trueHeading: Angle,
    onGround: bool)

  /** The copy constructor: a value with the same six fields. */
  function Copy(other: PlanePosition): (r: PlanePosition)
    ensures r == other
  {
    PlanePosition(other.position, other.groundSpeed, other.elevation, other.pressureAltitude,
      other.trueHeading, other.onGround)
  }

  /**
   * Equals(PlanePosition): the same position, and ground speed, elevation and
   * pressure altitude equal under their tolerant ==, and the same ground flag.
   * The heading is not compared.
   */
  predicate Equals(p: PlanePosition, other: PlanePosition) {
    p.position == other.position
    && Speeds.Eq(p.groundSpeed, other.groundSpeed)
    && Distances.Eq(p.elevation, other.elevation)
    && Distances.Eq(p.pressureAltitude, other.pressureAltitude)
    && p.onGround == other.onGround
  }

  /** Equals is reflexive and symmetric, and two positions that differ only in heading are equal. */
  lemma EqualsProperties(p: PlanePosition, q: PlanePosition, heading: Angle)
    ensures Equals(p, p)
    ensures Equals(p, q) == Equals(q, p)
    ensures Equals(p, p.(trueHeading := heading))
  {
    Floating.FloatingEqualReflexive(Speeds.AsUnit(p.groundSpeed, p.groundSpeed.unit), 0.0000000001);
    Floating.FloatingEqualReflexive(Distances.AsUnit(p.elevation, p.elevation.unit), 0.00001);
    Floating.FloatingEqualReflexive(Distances.AsUnit(p.pressureAltitude, p.pressureAltitude.unit), 0.00001);
    Speeds.EqSymmetric(p.groundSpeed, q.groundSpeed);
    Distances.EqSymmetric(p.elevation, q.elevation);
    Distances.EqSymmetric(p.pressureAltitude, q.pressureAltitude);
  }

  /** The argument of Equals(object): null, a boxed PlanePosition, or an object of another type. */
  datatype Object = Null | Boxed(value: PlanePosition) | OtherObject

  /** Equals(object): false for null and for other types, Equals(PlanePosition) for a boxed position. */
  function EqualsObject(p: PlanePosition, obj: Object): (b: bool)
    ensures obj.Null? || obj.OtherObject? ==> !b
    ensures obj.Boxed? ==> (b <==> Equals(p, obj.value))
  {
    match obj
    case Null => false
    case Boxed(other) => Equals(p, other)
    case OtherObject => false
  }
}
