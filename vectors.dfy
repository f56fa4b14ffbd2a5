/**
 * Ogre's Vector3/Vector4 and the tolerance tests the optimisers build on.
 * Floats are modelled as reals; `Math::RealEqual(a, b, tol)` is taken to be
 * `|b - a| <= tol`, and `Vector3::positionEquals` applies it per component.
 */
module Vectors {

  datatype Vec3 = Vec3(x: real, y: real, z: real)
  datatype Vec4 = Vec4(x: real, y: real, z: real, w: real)

  const Zero3: Vec3 := Vec3(0.0, 0.0, 0.0)
  const Zero4: Vec4 := Vec4(0.0, 0.0, 0.0, 0.0)

  function Abs(r: real): (a: real)
    ensures a >= 0.0 && (a == r || a == -r)
  {
    if r < 0.0 then -r else r
  }

  /** Math::RealEqual */
  predicate RealEqual(a: real, b: real, tolerance: real) {
    Abs(b - a) <= tolerance
  }

  /** Vector3::positionEquals: every component within tolerance. */
  predicate PositionEquals(a: Vec3, b: Vec3, tolerance: real) {
    RealEqual(a.x, b.x, tolerance) && RealEqual(a.y, b.y, tolerance) && RealEqual(a.z, b.z, tolerance)
  }

  /**
   * UniqueVertexLess::equals on Vector4: true as soon as ANY component is
   * within tolerance (the loop returns true on the first close component).
   */
  predicate Equals4(a: Vec4, b: Vec4, tolerance: real) {
    RealEqual(a.x, b.x, tolerance) || RealEqual(a.y, b.y, tolerance)
    || RealEqual(a.z, b.z, tolerance) || RealEqual(a.w, b.w, tolerance)
  }

  /**
   * UniqueVertexLess::less on Vector3: the first component that is not within
   * tolerance decides by plain `<`; if none, falls back to `a.x < b.x`.
   */
  predicate Less3(a: Vec3, b: Vec3, tolerance: real) {
    if !RealEqual(a.x, b.x, tolerance) then a.x < b.x
    else if !RealEqual(a.y, b.y, tolerance) then a.y < b.y
    else if !RealEqual(a.z, b.z, tolerance) then a.z < b.z
    else a.x < b.x
  }

  /** UniqueVertexLess::less on Vector4, same shape over four components. */
  predicate Less4(a: Vec4, b: Vec4, tolerance: real) {
    if !RealEqual(a.x, b.x, tolerance) then a.x < b.x
    else if !RealEqual(a.y, b.y, tolerance) then a.y < b.y
    else if !RealEqual(a.z, b.z, tolerance) then a.z < b.z
    else if !RealEqual(a.w, b.w, tolerance) then a.w < b.w
    else a.x < b.x
  }

  /** With a non-negative tolerance, two vectors that are not position-equal are strictly ordered one way. */
  lemma Less3Trichotomy(a: Vec3, b: Vec3, tolerance: real)
    requires tolerance >= 0.0
    ensures !(Less3(a, b, tolerance) && Less3(b, a, tolerance))
    ensures !PositionEquals(a, b, tolerance) ==> (Less3(a, b, tolerance) || Less3(b, a, tolerance))
    ensures PositionEquals(a, b, tolerance) ==> Less3(a, b, tolerance) == (a.x < b.x)
  {
  }

  /** Same for Vector4: when `Equals4` fails every component is apart, so the x component decides. */
  lemma Less4Trichotomy(a: Vec4, b: Vec4, tolerance: real)
    requires tolerance >= 0.0
    ensures !(Less4(a, b, tolerance) && Less4(b, a, tolerance))
    ensures !Equals4(a, b, tolerance) ==> (Less4(a, b, tolerance) <==> a.x < b.x)
    ensures !Equals4(a, b, tolerance) ==> (Less4(a, b, tolerance) || Less4(b, a, tolerance))
  {
  }

  /** The "any component" rule: tangents that agree only in x are still equal. */
  lemma Equals4AnyComponent(tolerance: real)
    requires tolerance >= 0.0
    ensures Equals4(Vec4(0.0, 0.0, 0.0, 0.0), Vec4(0.0, 5.0 + tolerance, 5.0 + tolerance, 5.0 + tolerance), tolerance)
    ensures !PositionEquals(Vec3(0.0, 0.0, 0.0), Vec3(0.0, 5.0 + tolerance, 5.0 + tolerance), tolerance)
  {
  }
}
