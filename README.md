# Matth.SDF: signed distances and raycasts of spheres and capsules

This project models the core of the `Matth.SDF` signed-distance library in
Dafny, over `real` rather than `float`:

- `Sphere`: the signed distance of a point to a sphere, and the ray/sphere
  raycast. The raycast solves the quadratic |ro + t rd - so|^2 - r^2 = 0 and
  runs a case table over the discriminant and the signs of the roots. The
  table gives 0, 1 or 2 hits typed `Enter`, `Exit` or `Tangent`, or the
  "impossible discriminant" exception.
- `Capsule`: the signed distance to a capsule, which clamps the projection on
  the segment A-B. Also the capsule raycast: the same case table, applied to
  the quadratic of the infinite cylinder around A-B.
- `SDF` and `SdfGroup`: the four distance reducers (union, subtraction,
  intersection, xor). Also a group of shapes with `Add`, `Remove` and a
  running-minimum `Distance` loop that gives NaN for an empty group.

Modules:

- `Vectors`: the vector type, dot product, `Length` and `Normalize`.
  `Math.Sqrt` is a parameter `sqrt` that must satisfy `IsSqrt`.
- `Quadratics`: root and sign facts about quadratics.
- `Raycasting`: `Ray`, `RayHitResult`, `SurfaceHitType` and the outcome of a
  raycast. An outcome is `Hits(count, hits)` or `Fault(..)`, where the source
  throws or produces a NaN distance.
- `Floats`: a number or NaN.
- `Sphere`, `Capsule`, `Sdf`: the three core files.
- `SphereScenarios`, `CapsuleScenarios`: the scenarios of the library's
  unit tests, proved on the model.

Both raycasts are split into a pure case table over the quadratic's
coefficients (`CaseTable`) and the raycast that builds hits from it.
Properties are proved about each half.

Each raycast has two versions.

- `Raycast` follows the code as written.
- `RaycastCorrected` corrects only the deviations listed under Findings;
  everything else stays as the code computes it (see `Capsule.RaycastCorrected`
  under Left out).
- Lemmas state exactly where the two versions agree.

A ray that starts exactly on the sphere's surface reaches the exception
unless it is tangent, whether it points inward or outward
(Matth/SDF/Sphere.cs:104-187; `Sphere.RaycastFaultsIff`).

## Model

| member | source | states |
|---|---|---|
| Vectors.Length | Matth/SDF/Sphere.cs:19 | the length is non-negative, its square is v.v, and it is zero exactly for the zero vector |
| Vectors.Normalize | Matth/SDF/Sphere.cs:79 | a non-zero vector normalizes to a unit vector whose dot product with the input is the input's length |
| Sphere.Distance | Matth/SDF/Sphere.cs:17-20 | d + r is the length of point - centre (non-negative, with square (p - o).(p - o)); for a non-negative radius, the distance is negative, zero or positive exactly when the point is strictly inside, on or outside the sphere; for a negative radius it is always positive |
| Sphere.Raycast | Matth/SDF/Sphere.cs:26-188 | the count equals the length of the hit array and is at most 2; every hit lies on the ray (origin, normalized direction) at a non-negative distance, with normal normalize(hitPoint - centre); two hits are Enter then Exit in ascending distance |
| Sphere.CaseTableShape | Matth/SDF/Sphere.cs:97-185 | the table lists at most two crossings, all at t >= 0, and two of them are Enter then Exit with the Enter first |
| Sphere.CaseTableSound | Matth/SDF/Sphere.cs:104-185 | every listed crossing is a root of t^2 + b t + c (a = 1 after normalization) |
| Sphere.CaseTableComplete | Matth/SDF/Sphere.cs:104-185 | when the table does not fail, every non-negative root is listed |
| Sphere.CaseTableFails | Matth/SDF/Sphere.cs:104-187 | the table reaches the exception exactly when c = 0 and b != 0, i.e. when one root is exactly 0 |
| Sphere.CaseTableFailsOnZeroRoot | Matth/SDF/Sphere.cs:104-187 | with c = 0 and b != 0, no branch matches and the exception is reached |
| Sphere.CaseTableExitOnly | Matth/SDF/Sphere.cs:136-150 | a single Exit crossing comes out exactly when c < 0 |
| Sphere.CaseTableTwo | Matth/SDF/Sphere.cs:110-133 | two crossings come out exactly when the discriminant is positive, c > 0 and b < 0 |
| Sphere.CaseTableTangent | Matth/SDF/Sphere.cs:161-185 | when a Tangent crossing is listed, t^2 + b t + c is never negative |
| Sphere.SurfaceAlongRay | Matth/SDF/Sphere.cs:84-89 | the sphere equation along the normalized ray is t^2 + b t + c with the source's b and c |
| Sphere.RaycastFollowsTable | Matth/SDF/Sphere.cs:97-187 | the raycast faults exactly when the table fails, and otherwise its hits carry the table's kinds and distances in order |
| Sphere.RaycastOfTable | Matth/SDF/Sphere.cs:78-188 | the raycast is the case table on the source's b and c, with each crossing turned into a hit |
| Sphere.RaycastHitsLieOnSurface | Matth/SDF/Sphere.cs:112-180 | every hit point is at distance 0 from the sphere of radius abs(r) |
| Sphere.RaycastFindsEveryForwardCrossing | Matth/SDF/Sphere.cs:97-185 | when the raycast does not fault, every point of the ray at t >= 0 on the surface is a hit |
| Sphere.RaycastExitOnlyIffInside | Matth/SDF/Sphere.cs:136-150 | the result is a single Exit hit exactly when the ray starts strictly inside the sphere |
| Sphere.RaycastTwoHitsIff | Matth/SDF/Sphere.cs:104-133 | two hits come out exactly when the origin is outside, the ray faces the centre, and the ray's point closest to the centre is strictly inside |
| Sphere.TwoHitsGeometry | Matth/SDF/Sphere.cs:104-133 | the coefficient condition for two crossings is equivalent to outside, facing the centre, and passing strictly inside |
| Sphere.RaycastTangentGrazes | Matth/SDF/Sphere.cs:161-185 | when a Tangent hit comes out, no point of the ray is strictly inside the sphere |
| Sphere.RaycastFaultsIff | Matth/SDF/Sphere.cs:92-187 | the raycast throws exactly when the direction is zero, or the origin is on the surface and the direction is not tangent to it |
| Sphere.CaseTableCorrectedShape | Matth/SDF/Sphere.cs:104-185 | the corrected table never fails and keeps at most two crossings, at t >= 0, with Enter before Exit |
| Sphere.CaseTableCorrectedAgrees | Matth/SDF/Sphere.cs:104-187 | wherever the source's table does not throw, the corrected table equals it |
| Sphere.CaseTableCorrectedSound | Matth/SDF/Sphere.cs:104-185 | every crossing of the corrected table is a root |
| Sphere.CaseTableCorrectedComplete | Matth/SDF/Sphere.cs:104-185 | every non-negative root appears in the corrected table, including a root at 0 |
| Sphere.RaycastCorrected | Matth/SDF/Sphere.cs:26-188 | the corrected raycast faults only on a zero direction and keeps every hit property of the source's raycast |
| Sphere.RaycastCorrectedAgrees | Matth/SDF/Sphere.cs:97-187 | wherever the source returns hits, the corrected raycast returns the same outcome |
| Sphere.RaycastCorrectedHitsLieOnSurface | Matth/SDF/Sphere.cs:112-180 | every corrected hit point is on the sphere |
| Sphere.SurfacePointIsRoot | Matth/SDF/Sphere.cs:84-89 | a point of the ray on the surface gives a root of the quadratic |
| Sphere.RaycastCorrectedFindsEveryForwardCrossing | Matth/SDF/Sphere.cs:97-185 | for a non-zero direction, every surface point at t >= 0 is a corrected hit |
| SphereScenarios.DistanceOnAxis | Matth.Test/SDF/SphereTests.cs:63-64 | at signed offset s from the centre along a unit axis, the distance is abs(s) - r: 5 at (0,0,-10) and -5 at the centre for r = 5 |
| SphereScenarios.AxisTable | Matth/SDF/Sphere.cs:97-187 | along an axis through the centre, the table is Enter/Exit from outside, Exit from inside, empty beyond, and fails on the surface |
| SphereScenarios.ThroughCentreFromOutside | Matth.Test/SDF/SphereTests.cs:37-72 | from outside towards the centre: Enter at -s - r with normal -u, then Exit at r - s with normal u |
| SphereScenarios.ThroughCentreFromInside | Matth.Test/SDF/SphereTests.cs:75-100 | from inside: one Exit hit at r - s with normal u |
| SphereScenarios.ThroughCentreBeyond | Matth.Test/SDF/SphereTests.cs:103-117 | from outside facing away: no hit |
| SphereScenarios.Grazing | Matth.Test/SDF/SphereTests.cs:120-142 | a ray at distance r from the centre grazes it: one Tangent hit at the closest point, with the outward normal |
| SphereScenarios.GrazingPast | Matth.Test/SDF/SphereTests.cs:145-156 | the same line with the closest point behind the origin: no hit |
| SphereScenarios.Missing | Matth.Test/SDF/SphereTests.cs:159-170 | a ray passing farther than r from the centre: no hit |
| SphereScenarios.StartingOnSurface | Matth/SDF/Sphere.cs:104-187 | a ray starting on the surface and pointing through the centre reaches the exception |
| SphereScenarios.StartingOnSurfaceCorrected | Matth/SDF/Sphere.cs:104-157 | the corrected raycast gives Enter at 0 and Exit at 2r for that ray |
| Capsule.Clamp | Matth/SDF/Capsule.cs:28 | the result lies in [min, max] and equals the value when the value is already inside |
| Capsule.ClosestParameter | Matth/SDF/Capsule.cs:28 | the clamped projection parameter lies in [0, 1] |
| Capsule.Distance | Matth/SDF/Capsule.cs:24-30 | the distance is NaN exactly when A = B (0/0), and otherwise at least -r |
| Capsule.DistanceToSegment | Matth/SDF/Capsule.cs:24-30 | distance + r is the length from the point to the clamped segment point, and no segment point is closer |
| Capsule.DistanceBeyondA | Matth/SDF/Capsule.cs:24-30 | when the projection falls at or before A, the capsule distance is the distance to the sphere around A |
| Capsule.DistanceBeyondB | Matth/SDF/Capsule.cs:24-30 | when the projection falls at or beyond B, the capsule distance is the distance to the sphere around B |
| Capsule.CylinderPointOnCapsule | Matth/SDF/Capsule.cs:24-30 | a point on the cylinder whose projection lies between A and B is at distance 0 |
| Capsule.Raycast | Matth/SDF/Capsule.cs:36-189 | the count equals the length of the hit array and is at most 2; every hit lies on the normalized ray at t >= 0 with a zero normal; two hits come as Exit then Enter in descending distance |
| Capsule.LeadingCoefficient | Matth/SDF/Capsule.cs:57 | for a unit direction, a = baba - bard^2 is the squared norm of the part of the axis perpendicular to the ray, so a >= 0 |
| Capsule.ParallelCoefficients | Matth/SDF/Capsule.cs:57-58 | a = 0 exactly when the ray is parallel to the axis, and then b = 0 |
| Capsule.CylinderAlongRay | Matth/SDF/Capsule.cs:47-60 | the cylinder equation along the ray is a t^2 + 2 b t + c with the source's a, b and c |
| Capsule.RootOnCylinder | Matth/SDF/Capsule.cs:47-60 | t is a root of a t^2 + 2 b t + c exactly when the ray's point at t is on the cylinder |
| Capsule.CaseTableShape | Matth/SDF/Capsule.cs:79-186 | at most two crossings, all at t >= 0; for a > 0 two crossings are Exit then Enter, the larger distance first |
| Capsule.CaseTableSound | Matth/SDF/Capsule.cs:86-159 | every Enter or Exit crossing is a root of a t^2 + 2 b t + c |
| Capsule.CaseTableTangent | Matth/SDF/Capsule.cs:163-186 | a Tangent crossing sits at -b/(2a), where the polynomial equals b^2/(4a), so it is a root only when b = 0 |
| Capsule.DoubleRoot | Matth/SDF/Capsule.cs:165 | when b^2 - a c = 0, the double root of a t^2 + 2 b t + c is -b/a |
| Capsule.CaseTableFails | Matth/SDF/Capsule.cs:86-188 | the table throws exactly when the discriminant is positive and a = 0 or c = 0; it gives a NaN tangent exactly when the discriminant is 0 and a = 0 |
| Capsule.CaseTableExitOnly | Matth/SDF/Capsule.cs:137-151 | for a > 0, a single Exit crossing comes out exactly when c < 0 |
| Capsule.RootCrossingsExitOnly | Matth/SDF/Capsule.cs:137-151 | the two-root branch gives a single Exit crossing exactly when the roots have opposite, non-zero signs |
| Capsule.CaseTableTwo | Matth/SDF/Capsule.cs:110-134 | for a > 0, two crossings come out exactly when the discriminant is positive, c > 0 and b < 0 |
| Capsule.RaycastOfTable | Matth/SDF/Capsule.cs:41-188 | for a non-zero direction, the raycast faults as its case table does, and otherwise returns the table's crossings as hits |
| Capsule.RaycastFaultsIff | Matth/SDF/Capsule.cs:41-188 | NaN tangent exactly when the ray is parallel to the axis; exception exactly when the direction is zero, or the origin is on the cylinder and b != 0 |
| Capsule.RaycastHitsOnCylinder | Matth/SDF/Capsule.cs:110-151 | every Enter or Exit hit point lies on the infinite cylinder of radius abs(r) |
| Capsule.RaycastTangentOffCylinder | Matth/SDF/Capsule.cs:163-186 | a Tangent hit lies on the cylinder exactly when its distance is 0 |
| Capsule.RaycastExitOnlyIff | Matth/SDF/Capsule.cs:137-151 | a single Exit hit comes out exactly when the direction is non-zero and not parallel to the axis, and the origin is strictly inside the cylinder |
| Capsule.RaycastTwoHitsIff | Matth/SDF/Capsule.cs:110-134 | two hits come out exactly when the ray is not parallel, the origin is outside the cylinder (c > 0), it faces the axis (b < 0), and the discriminant is positive |
| Capsule.CaseTableCorrectedShape | Matth/SDF/Capsule.cs:79-186 | the corrected table fails only (with a NaN distance) when a = 0, and lists at most two crossings at t >= 0, with Enter before Exit |
| Capsule.CaseTableCorrectedSound | Matth/SDF/Capsule.cs:86-186 | every crossing of the corrected table, the tangent included, is a root |
| Capsule.CaseTableCorrectedComplete | Matth/SDF/Capsule.cs:86-186 | for a != 0, every non-negative root appears in the corrected table |
| Capsule.CaseTableCorrectedAgrees | Matth/SDF/Capsule.cs:86-188 | for a > 0, wherever the source does not throw, the corrected table has the source's two crossings in swapped order, the same Exit crossing, or a Tangent at twice the source's distance |
| Capsule.RaycastCorrected | Matth/SDF/Capsule.cs:36-189 | the corrected raycast keeps the hit properties of the source, with two hits as Enter then Exit in ascending distance |
| Capsule.RaycastCorrectedFaultsIff | Matth/SDF/Capsule.cs:41-188 | the corrected raycast throws only on a zero direction, and reports a NaN distance only for a ray parallel to the axis |
| Capsule.RaycastCorrectedAgrees | Matth/SDF/Capsule.cs:110-186 | wherever the source returns hits, the corrected raycast returns two hits swapped, the same single Exit, or the Tangent at twice the distance |
| Capsule.RaycastCorrectedHitsOnCylinder | Matth/SDF/Capsule.cs:110-186 | every corrected hit point, the tangent included, lies on the cylinder |
| Capsule.RaycastCorrectedFindsEveryForwardCrossing | Matth/SDF/Capsule.cs:86-186 | for a ray that is not parallel to the axis, every point of the cylinder at t >= 0 is a corrected hit |
| CapsuleScenarios.DistanceOutside | Matth.Test/SDF/CapsuleTests.cs:48-49 | for A = (0,-10,0), B = (0,10,0), r = 5, the distance at (0,0,-10) is 5 |
| CapsuleScenarios.DistanceAtCentre | Matth.Test/SDF/CapsuleTests.cs:77-78 | the distance at the origin is -5 |
| CapsuleScenarios.TowardsFromOutside | Matth/SDF/Capsule.cs:110-134 | from (0,0,-10) along +z, the code gives Exit at 15 and then Enter at 5 |
| CapsuleScenarios.TowardsFromOutsideCorrected | Matth.Test/SDF/CapsuleTests.cs:21-57 | the corrected raycast gives Enter at 5 at (0,0,-5), then Exit at 15 at (0,0,5): the order and distances the test expects; the normals still differ (see Left out) |
| CapsuleScenarios.FromInside | Matth.Test/SDF/CapsuleTests.cs:60-85 | from the origin along +z: one Exit hit at 5 |
| CapsuleScenarios.AwayFromOutside | Matth.Test/SDF/CapsuleTests.cs:88-102 | from (0,0,-10) along -z: no hit |
| CapsuleScenarios.Grazing | Matth/SDF/Capsule.cs:163-186 | from (-5,0,-5) along +z, the code gives a Tangent hit at 2.5, at (-5,0,-2.5) |
| CapsuleScenarios.GrazingCorrected | Matth.Test/SDF/CapsuleTests.cs:105-127 | the corrected raycast gives the Tangent hit at 5, at (-5,0,0): the distance and point the test expects; the normal still differs (see Left out) |
| CapsuleScenarios.GrazingPast | Matth.Test/SDF/CapsuleTests.cs:130-141 | from (-5,0,-5) along -z: no hit |
| CapsuleScenarios.Missing | Matth.Test/SDF/CapsuleTests.cs:144-155 | from (-10,0,-10) along +z: no hit |
| CapsuleScenarios.StartingOnSurface | Matth/SDF/Capsule.cs:86-188 | from (0,0,-5) along +z, on the cylinder, the code reaches the exception |
| CapsuleScenarios.StartingOnSurfaceCorrected | Matth/SDF/Capsule.cs:86-160 | the corrected raycast gives Enter at 0 and Exit at 10 for that ray |
| Floats.Lift | Matth/SDF/SDF.cs:21-24 | Math.Min or Math.Max on floats is NaN exactly when an argument is NaN, and otherwise the operation on the two values |
| Sdf.Union | Matth/SDF/SDF.cs:21 | the union is at most both distances and equal to one of them |
| Sdf.Subtraction | Matth/SDF/SDF.cs:22 | the result is at least -d1 and d2, and equal to one of them |
| Sdf.Intersection | Matth/SDF/SDF.cs:23 | the intersection is at least both distances and equal to one of them |
| Sdf.Xor | Matth/SDF/SDF.cs:24 | the result is at least the union and minus the intersection, and equal to one of them |
| Sdf.UnionIntersectionLaws | Matth/SDF/SDF.cs:21-23 | union and intersection are commutative and idempotent, and the union is at most the intersection |
| Sdf.XorSymmetric | Matth/SDF/SDF.cs:24 | xor is symmetric in its two distances |
| Sdf.UnionInside | Matth/SDF/SDF.cs:21 | a point is inside the union exactly when it is inside either shape |
| Sdf.IntersectionInside | Matth/SDF/SDF.cs:23 | a point is inside the intersection exactly when it is inside both shapes |
| Sdf.SubtractionInside | Matth/SDF/SDF.cs:22 | a point is inside the subtraction exactly when it is strictly outside the first shape and strictly inside the second |
| Sdf.XorInside | Matth/SDF/SDF.cs:24 | a point is inside the xor exactly when it is strictly inside one shape and strictly outside the other |
| Sdf.ShapeDistance | Matth/SDF/SDF.cs:47 | a sphere member always has a number for its distance; a capsule member's distance is NaN exactly when its end points coincide |
| Sdf.Distances | Matth/SDF/SDF.cs:44-47 | the members' distances, one per member, in list order |
| Sdf.RunningMinNaN | Matth/SDF/SDF.cs:44-50 | the running minimum is NaN exactly when the first distance is NaN, since NaN never compares less |
| Sdf.RunningMinIsMinimum | Matth/SDF/SDF.cs:44-50 | when the first distance is a number, the result is at most every numeric distance and equal to one of the distances |
| Sdf.RunningMinIsUnionFold | Matth/SDF/SDF.cs:21-50 | with no NaN present, the loop's result is the fold of UnionDistance over the distances |
| Sdf.RunningMinSkipsNaN | Matth/SDF/SDF.cs:48 | a later NaN is skipped by the loop, whereas a fold of Math.Min would propagate it |
| Sdf.RunningMinOfConcat | Matth/SDF/SDF.cs:44-50 | the running minimum of two lists is the union of their running minimums |
| Sdf.GroupNaN | Matth/SDF/SDF.cs:40-51 | a group's distance is NaN exactly when it is empty or its first member's distance is NaN |
| Sdf.GroupBelowMembers | Matth/SDF/SDF.cs:40-51 | the group distance is at most every member's numeric distance and equal to some member's distance |
| Sdf.UnionOfGroups | Matth/SDF/SDF.cs:40-53 | the union of two groups' distances is the distance of the concatenated group |
| Sdf.FirstIndex | Matth/SDF/SDF.cs:38 | the index of the first occurrence: it holds the shape and no earlier element does |
| Sdf.RemoveAbsent | Matth/SDF/SDF.cs:38 | removing an absent shape leaves the list unchanged |
| Sdf.RemoveFirstOccurrence | Matth/SDF/SDF.cs:38 | removing a present shape deletes exactly its first occurrence and keeps the others in order |
| Sdf.RemoveFirstMultiset | Matth/SDF/SDF.cs:38 | removal takes one copy of the shape out of the multiset of members, if there is one |
| Sdf.SdfGroup.constructor | Matth/SDF/SDF.cs:31-34 | the group holds the given shapes in the given order |
| Sdf.SdfGroup.Add | Matth/SDF/SDF.cs:36 | the shape is appended at the end and the earlier members are unchanged |
| Sdf.SdfGroup.Remove | Matth/SDF/SDF.cs:38 | returns true exactly when the shape was a member, and deletes only its first occurrence |
| Sdf.SdfGroup.Distance | Matth/SDF/SDF.cs:40-51 | the loop computes the group distance: NaN when empty, else the running minimum; the invariant is that min is the running minimum of the first i distances |
| Sdf.SdfGroup.UnionDistance | Matth/SDF/SDF.cs:53 | union of the group's distance and the other shape's distance, NaN-propagating |
| Sdf.SdfGroup.SubtractionDistance | Matth/SDF/SDF.cs:54 | subtraction of the group's distance and the other shape's distance, NaN-propagating |
| Sdf.SdfGroup.IntersectionDistance | Matth/SDF/SDF.cs:55 | intersection of the group's distance and the other shape's distance, NaN-propagating |
| Sdf.SdfGroup.XorDistance | Matth/SDF/SDF.cs:56 | xor of the group's distance and the other shape's distance, NaN-propagating |

## Left out

- Floating point: the model works over exact reals. Rounding, infinities and signed zeros are not modelled. NaN is modelled only where the source produces it: a 0/0 in the capsule distance, an empty group, and the capsule's parallel-ray tangent.
- `Math.Sqrt` and `Vector3.Length` are not defined in the model: the square root is a parameter, constrained to return the non-negative root of a non-negative number.
- `Vector3.Normalize` of the zero vector gives NaN components in .NET. In the model it gives the zero vector, and a raycast with a zero direction returns the exception outcome directly, which is what the NaN comparisons lead to in the source.
- Capsule.Raycast: a ray parallel to the capsule axis makes the tangent distance 0/0 = NaN, and the source returns a Tangent hit at that NaN distance. The model returns `Fault(NaNDistance)` in its place.
- Capsule.Raycast: the body/cap classification (Matth/SDF/Capsule.cs:90-107) assigns only locals that nothing reads. The model leaves it out: the hits depend only on the infinite cylinder.
- Capsule.Raycast: the source never sets the surface normal of a capsule hit, so it stays the zero vector. The model does the same; the normals expected by the capsule tests are not produced.
- Capsule.RaycastCorrected: corrects only the hit order, the tangent distance and the zero-root exception. Hits still come from the infinite cylinder, so a ray passing beyond an end cap still reports hits there (the cap branch of the source is dead code). Hit normals stay the zero vector. The capsule tests compare whole hits, normals included, so its hits still differ from theirs in the normal.
- The `Position`, `Rotation` and `Scale` fields (Matth/SDF/SDF.cs:15-17) are left out. `Rotation` and `Scale` are never read, and `Position` stays at zero, so a group's sphere member is centred at the origin. The static functions take the centre as a parameter.
- The instance wrappers and the `IRayCastable` interface (Matth/SDF/Sphere.cs:15, 22-24; Matth/SDF/Capsule.cs:19-22, 32-34; Matth/SDF/Raycast.cs:5-9) only forward to the static functions. They are not modelled separately.
- The `ISDF` interface is replaced by a `Shape` datatype (sphere, capsule or nested group), with `ShapeDistance` dispatching on it.
- Sdf.SdfGroup.Remove: `List<T>.Remove` compares by reference for classes. The model compares shapes by value, so two equal shapes are interchangeable.
- The `params` array of the constructor becomes a sequence argument.
- The benchmark files (Matth.Test/SDF/SphereBench.cs, Matth.Test/SDF/CapsuleBench.cs) measure time on random inputs and are not modelled.

## Findings

| source | as written | input that shows it | evidently intended | confidence | as-written member | corrected member |
|---|---|---|---|---|---|---|
| Matth/SDF/Sphere.cs:104-187 | with a positive discriminant and a root exactly 0, no branch matches and the method throws | sphere at the origin, r = 5, ray from (0,0,-5) along +z: b = -10, c = 0, roots 0 and 10 | Enter at 0 and Exit at 10 | not executed | SphereScenarios.StartingOnSurface | SphereScenarios.StartingOnSurfaceCorrected |
| Matth/SDF/Capsule.cs:110-134 | two hits are listed as t0 then t1, where t0 is the larger root, so they come back Exit first, in descending distance | A = (0,-10,0), B = (0,10,0), r = 5, ray from (0,0,-10) along +z: [Exit at 15, Enter at 5] | [Enter at 5, Exit at 15], the order Matth.Test/SDF/CapsuleTests.cs:55-56 expects (the test's normals are not produced) | not executed | CapsuleScenarios.TowardsFromOutside | CapsuleScenarios.TowardsFromOutsideCorrected |
| Matth/SDF/Capsule.cs:165 | the tangent distance is -b/(2a), but the quadratic is a t^2 + 2 b t + c, whose double root is -b/a | same capsule, ray from (-5,0,-5) along +z: Tangent at 2.5, at (-5,0,-2.5) | Tangent at 5, at (-5,0,0), the distance and point Matth.Test/SDF/CapsuleTests.cs:113-120 expects (the test's normal is not produced) | not executed | CapsuleScenarios.Grazing | CapsuleScenarios.GrazingCorrected |
| Matth/SDF/Capsule.cs:86-188 | with a positive discriminant and a root exactly 0, no branch matches and the method throws | same capsule, ray from (0,0,-5) along +z: roots 0 and 10 | Enter at 0 and Exit at 10 | not executed | CapsuleScenarios.StartingOnSurface | CapsuleScenarios.StartingOnSurfaceCorrected |
