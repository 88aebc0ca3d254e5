/**
 * The value types shared by every raycast: a ray, the kind of surface
 * crossing, one classified hit, and the outcome of a raycast call (the hit
 * count with the hit array, or the fault the source raises).
 */
module Raycasting {
  import opened Vectors

  datatype Ray = Ray(origin: Vec3, direction: Vec3)

  datatype SurfaceHitType = Enter | Exit | Tangent

  datatype RayHitResult = RayHitResult(
    hitType: SurfaceHitType,
    ray: Ray,
    distanceAlongRay: real,
    hitPoint: Vec3,
    surfaceNormal: Vec3)

  /**
   * How a raycast can fail to produce a hit list:
   * ImpossibleDiscriminant is the exception thrown when no branch of the case
   * table matches; NaNDistance stands for a hit whose distance the source
   * computes as 0/0.
   */
  datatype RaycastFault = ImpossibleDiscriminant | NaNDistance

  /** `count` is the int a raycast returns, `hits` the array it stores in its out-parameter. */
  datatype RaycastOutcome = Hits(count: int, hits: seq<RayHitResult>) | Fault(fault: RaycastFault)

  /** A root of a shape's ray equation that the case table turns into a hit: its kind and its distance. */
  datatype Crossing = Crossing(kind: SurfaceHitType, t: real)

  /** The verdict of a raycast's case table: the crossings that become hits, or the fault. */
  datatype Crossings = Crossed(list: seq<Crossing>) | Failed(fault: RaycastFault)

  /** Some crossing of `list` lies at distance `t`. */
  predicate CrossesAt(list: seq<Crossing>, t: real) {
    exists i :: 0 <= i < |list| && list[i].t == t
  }

  /** The point `origin + t * direction` of a ray. */
  function PointAt(ray: Ray, t: real): Vec3 {
    Add(ray.origin, Scale(ray.direction, t))
  }

  /** A hit lies on its own ray, at a non-negative distance from the origin. */
  predicate OnRay(h: RayHitResult) {
    0.0 <= h.distanceAlongRay && h.hitPoint == PointAt(h.ray, h.distanceAlongRay)
  }

  /** Some hit of `hits` lies at distance `t` along the ray. */
  predicate HitAt(hits: seq<RayHitResult>, t: real) {
    exists i :: 0 <= i < |hits| && hits[i].distanceAlongRay == t
  }
}
