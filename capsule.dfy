/**
 * The capsule primitive: the set of points within a radius of the segment
 * from originA to originB. Its signed distance projects onto the segment; its
 * raycast solves the quadratic a t^2 + 2 b t + c = 0 of the infinite cylinder
 * around the segment's line and runs it through the same kind of case table
 * as the sphere.
 */
module Capsule {
  import opened Quadratics
  import opened Vectors
  import opened Raycasting
  import opened Floats
  import Sphere

  /** Math.Clamp: `value` brought into [min, max]. */
  function Clamp(value: real, min: real, max: real): (r: real)
    requires min <= max
    ensures min <= r <= max
    ensures min <= value <= max ==> r == value
  {
    if value < min then min else if value > max then max else value
  }

  /** The point of the segment from `pa` to `pb` at parameter `s`: pa + s (pb - pa). */
  function SegmentPoint(pa: Vec3, pb: Vec3, s: real): Vec3 {
    Add(pa, Scale(Sub(pb, pa), s))
  }

  /** The two ends of a capsule differ exactly when its axis is not the zero vector. */
  lemma AxisNonZero(pa: Vec3, pb: Vec3)
    ensures pa != pb <==> Sub(pb, pa) != Zero
    ensures pa != pb ==> 0.0 < Dot(Sub(pb, pa), Sub(pb, pa))
  {
    if pa != pb {
      DotSelfNonNegative(Sub(pb, pa));
    }
  }

  /**
   * The signed distance: the distance from `point` to the closest point of
   * the segment, minus the radius (with its sign). The closest point is at
   * the projection of point - A onto B - A, clamped into [0, 1]. When the two
   * ends coincide the projection divides 0 by 0 and the result is NaN.
   */
  function Distance(sqrt: real -> real, point: Vec3, capsuleOriginA: Vec3, capsuleOriginB: Vec3, capsuleRadius: real): (d: Num)
    requires IsSqrt(sqrt)
    ensures d.NaN? <==> capsuleOriginA == capsuleOriginB
    ensures d.Value? ==> -capsuleRadius <= d.v
  {
    if capsuleOriginA == capsuleOriginB then
      NaN
    else
      var pa := Sub(point, capsuleOriginA);
      var ba := Sub(capsuleOriginB, capsuleOriginA);
      AxisNonZero(capsuleOriginA, capsuleOriginB);
      var h := Clamp(Dot(pa, ba) / Dot(ba, ba), 0.0, 1.0);
      Value(Length(sqrt, Sub(pa, Scale(ba, h))) - capsuleRadius)
  }

  /** The parameter of the closest point of the segment: the clamped projection. */
  function ClosestParameter(point: Vec3, pa: Vec3, pb: Vec3): (h: real)
    requires pa != pb
    ensures 0.0 <= h <= 1.0
  {
    AxisNonZero(pa, pb);
    Clamp(Dot(Sub(point, pa), Sub(pb, pa)) / Dot(Sub(pb, pa), Sub(pb, pa)), 0.0, 1.0)
  }

  /**
   * The distance is measured to a point of the segment, and to the closest
   * one: no point of the segment is nearer to `point`.
   */
  lemma DistanceToSegment(sqrt: real -> real, point: Vec3, capsuleOriginA: Vec3, capsuleOriginB: Vec3, capsuleRadius: real)
    requires IsSqrt(sqrt) && capsuleOriginA != capsuleOriginB
    ensures var d := Distance(sqrt, point, capsuleOriginA, capsuleOriginB, capsuleRadius).v;
      var h := ClosestParameter(point, capsuleOriginA, capsuleOriginB);
      d + capsuleRadius == Length(sqrt, Sub(point, SegmentPoint(capsuleOriginA, capsuleOriginB, h)))
    ensures var d := Distance(sqrt, point, capsuleOriginA, capsuleOriginB, capsuleRadius).v;
      forall s :: 0.0 <= s <= 1.0 ==>
        d + capsuleRadius <= Length(sqrt, Sub(point, SegmentPoint(capsuleOriginA, capsuleOriginB, s)))
  {
    var h := ClosestParameter(point, capsuleOriginA, capsuleOriginB);
    OffsetFromSegment(point, capsuleOriginA, capsuleOriginB, h);
    forall s | 0.0 <= s <= 1.0
      ensures Length(sqrt, Sub(point, SegmentPoint(capsuleOriginA, capsuleOriginB, h)))
           <= Length(sqrt, Sub(point, SegmentPoint(capsuleOriginA, capsuleOriginB, s)))
    {
      ClosestOfSegment(sqrt, point, capsuleOriginA, capsuleOriginB, s);
    }
  }

  /** point - (A + s (B - A)) is (point - A) - s (B - A). */
  lemma OffsetFromSegment(point: Vec3, pa: Vec3, pb: Vec3, s: real)
    ensures Sub(point, SegmentPoint(pa, pb, s)) == Sub(Sub(point, pa), Scale(Sub(pb, pa), s))
  {
  }

  lemma ClosestOfSegment(sqrt: real -> real, point: Vec3, pa: Vec3, pb: Vec3, s: real)
    requires IsSqrt(sqrt) && pa != pb && 0.0 <= s <= 1.0
    ensures var h := ClosestParameter(point, pa, pb);
      Length(sqrt, Sub(point, SegmentPoint(pa, pb, h))) <= Length(sqrt, Sub(point, SegmentPoint(pa, pb, s)))
  {
    var h := ClosestParameter(point, pa, pb);
    ClosestOffsets(point, pa, pb, s);
    LengthMonotonic(sqrt, Sub(point, SegmentPoint(pa, pb, h)), Sub(point, SegmentPoint(pa, pb, s)));
  }

  /** The squared distance to the segment point at the clamped projection is the least. */
  lemma ClosestOffsets(point: Vec3, pa: Vec3, pb: Vec3, s: real)
    requires pa != pb && 0.0 <= s <= 1.0
    ensures var vh := Sub(point, SegmentPoint(pa, pb, ClosestParameter(point, pa, pb)));
      var vs := Sub(point, SegmentPoint(pa, pb, s));
      Dot(vh, vh) <= Dot(vs, vs)
  {
    var h := ClosestParameter(point, pa, pb);
    AxisNonZero(pa, pb);
    ClampMinimises(Dot(Sub(point, pa), Sub(pb, pa)), Dot(Sub(pb, pa), Sub(pb, pa)), s);
    SegmentOffset(point, pa, pb, h);
    SegmentOffset(point, pa, pb, s);
  }

  /** The squared distance from `point` to the segment point at `s`, as a polynomial in s. */
  lemma SegmentOffset(point: Vec3, pa: Vec3, pb: Vec3, s: real)
    ensures var v := Sub(point, SegmentPoint(pa, pb, s));
      var u, w := Sub(point, pa), Sub(pb, pa);
      Dot(v, v) == Dot(u, u) - 2.0 * s * Dot(u, w) + s * s * Dot(w, w)
  {
    OffsetFromSegment(point, pa, pb, s);
    SquaredOffset(Sub(point, pa), Sub(pb, pa), s);
  }

  /** |u - s w|^2 as a polynomial in s. */
  lemma SquaredOffset(u: Vec3, w: Vec3, s: real)
    ensures Dot(Sub(u, Scale(w, s)), Sub(u, Scale(w, s))) == Dot(u, u) - 2.0 * s * Dot(u, w) + s * s * Dot(w, w)
  {
    assert Sub(u, Scale(w, s)) == Vec3(u.x - w.x * s, u.y - w.y * s, u.z - w.z * s);
    SquareOfDifference(u.x, w.x, s);
    SquareOfDifference(u.y, w.y, s);
    SquareOfDifference(u.z, w.z, s);
    Distribute(2.0 * s, u.x * w.x, u.y * w.y, u.z * w.z);
    Distribute(s * s, w.x * w.x, w.y * w.y, w.z * w.z);
  }

  /**
   * The convex parabola m s^2 - 2 k s (m > 0) takes its least value over
   * [0, 1] at the clamped vertex k / m.
   */
  lemma ClampMinimises(k: real, m: real, s: real)
    requires 0.0 < m && 0.0 <= s <= 1.0
    ensures var h := Clamp(k / m, 0.0, 1.0);
      2.0 * s * k - s * s * m <= 2.0 * h * k - h * h * m
  {
    var h := Clamp(k / m, 0.0, 1.0);
    assert (2.0 * h * k - h * h * m) - (2.0 * s * k - s * s * m)
        == m * (s - h) * (s - h) + 2.0 * (s - h) * (h * m - k);
    SquareNonNegative(s - h);
    assert 0.0 <= m * ((s - h) * (s - h));
    if k / m < 0.0 {
      assert k < 0.0;
      assert h == 0.0;
      assert 0.0 <= (s - h) * (h * m - k);
    } else if k / m > 1.0 {
      assert m < k;
      assert h == 1.0;
      assert (s - h) * (h * m - k) == (1.0 - s) * (k - m);
      assert 0.0 <= (1.0 - s) * (k - m);
    } else {
      assert h * m == k;
    }
  }

  /** Length is monotonic in the squared norm. */
  lemma LengthMonotonic(sqrt: real -> real, u: Vec3, v: Vec3)
    requires IsSqrt(sqrt) && Dot(u, u) <= Dot(v, v)
    ensures Length(sqrt, u) <= Length(sqrt, v)
  {
    DotSelfNonNegative(u);
    if Dot(u, u) < Dot(v, v) {
      SqrtStrictlyMonotonic(sqrt, Dot(u, u), Dot(v, v));
    }
  }

  /**
   * Beyond the end A (the projection onto the axis is not positive) the
   * capsule's distance is the distance to the sphere around A.
   */
  lemma DistanceBeyondA(sqrt: real -> real, point: Vec3, capsuleOriginA: Vec3, capsuleOriginB: Vec3, capsuleRadius: real)
    requires IsSqrt(sqrt) && capsuleOriginA != capsuleOriginB
    requires Dot(Sub(point, capsuleOriginA), Sub(capsuleOriginB, capsuleOriginA)) <= 0.0
    ensures Distance(sqrt, point, capsuleOriginA, capsuleOriginB, capsuleRadius)
         == Value(Sphere.Distance(sqrt, point, capsuleOriginA, capsuleRadius))
  {
    var pa, ba := Sub(point, capsuleOriginA), Sub(capsuleOriginB, capsuleOriginA);
    AxisNonZero(capsuleOriginA, capsuleOriginB);
    assert Dot(pa, ba) / Dot(ba, ba) <= 0.0;
    assert Sub(pa, Scale(ba, 0.0)) == pa;
  }

  /**
   * Beyond the end B (the projection reaches past B) the capsule's distance
   * is the distance to the sphere around B.
   */
  lemma DistanceBeyondB(sqrt: real -> real, point: Vec3, capsuleOriginA: Vec3, capsuleOriginB: Vec3, capsuleRadius: real)
    requires IsSqrt(sqrt) && capsuleOriginA != capsuleOriginB
    requires Dot(Sub(capsuleOriginB, capsuleOriginA), Sub(capsuleOriginB, capsuleOriginA))
          <= Dot(Sub(point, capsuleOriginA), Sub(capsuleOriginB, capsuleOriginA))
    ensures Distance(sqrt, point, capsuleOriginA, capsuleOriginB, capsuleRadius)
         == Value(Sphere.Distance(sqrt, point, capsuleOriginB, capsuleRadius))
  {
    var pa, ba := Sub(point, capsuleOriginA), Sub(capsuleOriginB, capsuleOriginA);
    AxisNonZero(capsuleOriginA, capsuleOriginB);
    assert 1.0 <= Dot(pa, ba) / Dot(ba, ba);
    assert Sub(pa, Scale(ba, 1.0)) == Sub(point, capsuleOriginB);
  }

  /**
   * The side of the capsule: a point of the infinite cylinder of radius r >= 0
   * around the axis whose projection falls between A and B is at distance 0.
   */
  lemma CylinderPointOnCapsule(sqrt: real -> real, point: Vec3, capsuleOriginA: Vec3, capsuleOriginB: Vec3, capsuleRadius: real)
    requires IsSqrt(sqrt) && capsuleOriginA != capsuleOriginB && 0.0 <= capsuleRadius
    requires CylinderEquation(point, capsuleOriginA, capsuleOriginB, capsuleRadius) == 0.0
    requires 0.0 <= Dot(Sub(point, capsuleOriginA), Sub(capsuleOriginB, capsuleOriginA))
          <= Dot(Sub(capsuleOriginB, capsuleOriginA), Sub(capsuleOriginB, capsuleOriginA))
    ensures Distance(sqrt, point, capsuleOriginA, capsuleOriginB, capsuleRadius) == Value(0.0)
  {
    var pa, ba := Sub(point, capsuleOriginA), Sub(capsuleOriginB, capsuleOriginA);
    AxisNonZero(capsuleOriginA, capsuleOriginB);
    var h := Dot(pa, ba) / Dot(ba, ba);
    UnitQuotient(Dot(pa, ba), Dot(ba, ba));
    assert Clamp(h, 0.0, 1.0) == h;
    CylinderOffset(pa, ba, capsuleRadius);
    LengthBy(sqrt, Sub(pa, Scale(ba, h)), capsuleRadius);
  }

  /**
   * For q = point - A on the cylinder, the offset from its projection onto
   * the axis has squared length r^2.
   */
  lemma CylinderOffset(q: Vec3, ba: Vec3, r: real)
    requires 0.0 < Dot(ba, ba)
    requires Dot(ba, ba) * Dot(q, q) - Dot(ba, q) * Dot(ba, q) - r * r * Dot(ba, ba) == 0.0
    ensures var offset := Sub(q, Scale(ba, Dot(q, ba) / Dot(ba, ba)));
      Dot(offset, offset) == r * r
  {
    var m, k := Dot(ba, ba), Dot(q, ba);
    var h := k / m;
    SquaredOffset(q, ba, h);
    DotCommutes(ba, q);
    OffsetOnCylinder(m, Dot(q, q), k, r, h, Dot(Sub(q, Scale(ba, h)), Sub(q, Scale(ba, h))));
  }

  /** The scalar identity behind CylinderPointOnCapsule. */
  lemma OffsetOnCylinder(m: real, pp: real, k: real, r: real, h: real, o: real)
    requires 0.0 < m && h == k / m
    requires o == pp - 2.0 * h * k + h * h * m
    requires m * pp - k * k - r * r * m == 0.0
    ensures o == r * r
  {
    assert h * m == k;
    assert m * o == m * pp - 2.0 * (h * m) * k + (h * m) * (h * m);
    assert m * (o - r * r) == 0.0;
    ProductZero(m, o - r * r);
  }

  lemma DotCommutes(u: Vec3, v: Vec3)
    ensures Dot(u, v) == Dot(v, u)
  {
  }

  lemma UnitQuotient(k: real, m: real)
    requires 0.0 <= k <= m && 0.0 < m
    ensures 0.0 <= k / m <= 1.0
  {
  }

  /** t is a root of a t^2 + 2 b t + c, the quadratic with the reduced discriminant b^2 - a c. */
  predicate ReducedRoot(a: real, b: real, c: real, t: real) {
    a * t * t + 2.0 * b * t + c == 0.0
  }

  /**
   * The case table of the capsule raycast, for a t^2 + 2 b t + c = 0 with the
   * roots t0 = (-b + sqrt(del)) / a and t1 = (-b - sqrt(del)) / a of the
   * reduced discriminant del = b^2 - a c. It differs from the sphere's table
   * in three ways: two crossings are tagged by comparing the roots but listed
   * t0 first, so they come out in descending distance; the tangent distance
   * is -b / (2a) rather than the double root -b / a; and when a = 0 a root is
   * 0/0 = NaN, which fails every comparison (del > 0: the exception) or
   * becomes the distance of a Tangent hit (del = 0).
   */
  function CaseTable(sqrt: real -> real, a: real, b: real, c: real): Crossings
    requires IsSqrt(sqrt)
  {
    var del := b * b - a * c;
    if del < 0.0 then
      Crossed([])
    else if del > 0.0 then
      if a == 0.0 then
        // -b + sqrt(del) or -b - sqrt(del) is 0, and 0/0 is NaN.
        Failed(ImpossibleDiscriminant)
      else
        var delRoot := sqrt(del);
        RootCrossings((-b + delRoot) / a, (-b - delRoot) / a)
    else if a == 0.0 then
      // t = -b / (2a) is 0/0: NaN is not < 0, so the source returns a Tangent hit at NaN.
      Failed(NaNDistance)
    else
      var t := -b / (2.0 * a);
      if t < 0.0 then
        Crossed([])
      else
        Crossed([Crossing(Tangent, t)])
  }

  /**
   * The two-root branch of the case table, on the roots t0 and t1 in the
   * order the source computes them; a root of exactly 0 matches no case.
   */
  function RootCrossings(t0: real, t1: real): Crossings {
    if t0 > 0.0 && t1 > 0.0 then
      Crossed([Crossing(if t0 < t1 then Enter else Exit, t0), Crossing(if t1 < t0 then Enter else Exit, t1)])
    else if (t0 < 0.0 && t1 > 0.0) || (t0 > 0.0 && t1 < 0.0) then
      Crossed([Crossing(Exit, if t0 > t1 then t0 else t1)])
    else if t0 < 0.0 && t1 < 0.0 then
      Crossed([])
    else
      Failed(ImpossibleDiscriminant)
  }

  /** One hit of the capsule raycast: the source never sets its surface normal, which stays the zero vector. */
  function Hit(kind: SurfaceHitType, ro: Vec3, rd: Vec3, t: real): RayHitResult {
    RayHitResult(kind, Ray(ro, rd), t, Add(ro, Scale(rd, t)), Zero)
  }

  /** The hits built from the crossings, in the same order. */
  function Hits(ro: Vec3, rd: Vec3, list: seq<Crossing>): (hs: seq<RayHitResult>)
    ensures |hs| == |list|
    ensures forall i :: 0 <= i < |list| ==> hs[i] == Hit(list[i].kind, ro, rd, list[i].t)
  {
    if list == [] then []
    else [Hit(list[0].kind, ro, rd, list[0].t)] + Hits(ro, rd, list[1..])
  }

  /**
   * Raycast of a capsule: the returned count equals the hit array's length,
   * every hit lies on the ray with the normalized direction at a non-negative
   * distance and has the zero normal, and two hits come as Exit then Enter in
   * descending distance.
   */
  function Raycast(sqrt: real -> real, rayOrigin: Vec3, rayDirection: Vec3, capsuleOriginA: Vec3, capsuleOriginB: Vec3, capsuleRadius: real): (r: RaycastOutcome)
    requires IsSqrt(sqrt)
    ensures r.Hits? ==> r.count == |r.hits| <= 2
    ensures r.Hits? ==> forall h <- r.hits ::
      && OnRay(h)
      && h.ray == Ray(rayOrigin, Normalize(sqrt, rayDirection))
      && h.surfaceNormal == Zero
    ensures r.Hits? && r.count == 2 ==>
      && r.hits[0].hitType == Exit && r.hits[1].hitType == Enter
      && r.hits[0].distanceAlongRay > r.hits[1].distanceAlongRay
  {
    if rayDirection == Zero then
      // Normalizing the zero vector gives NaN components in the source, every
      // comparison on the discriminant is then false, and it throws.
      Fault(ImpossibleDiscriminant)
    else
      var ro := rayOrigin;
      var rd := Normalize(sqrt, rayDirection);
      var pa := capsuleOriginA;
      var pb := capsuleOriginB;
      var radius := Sphere.Abs(capsuleRadius);
      var ba := Sub(pb, pa);
      var oa := Sub(ro, pa);
      // a, b and c are the source's baba - bard^2, baba rdoa - baoa bard and
      // baba oaoa - baoa^2 - r^2 baba, with baba = ba.ba, bard = ba.rd,
      // baoa = ba.oa, rdoa = rd.oa and oaoa = oa.oa.
      var a := QuadA(rd, ba);
      var b := QuadB(rd, ba, oa);
      var c := CylinderEquation(ro, pa, pb, radius);
      // The body/cap classification of the source (y0, y1, oc, bCap, cCap,
      // delCap, t1Cap) assigns only locals that nothing reads: it is left out.
      LeadingCoefficient(rd, ba);
      CaseTableShape(sqrt, a, b, c);
      match CaseTable(sqrt, a, b, c)
      case Failed(f) => Fault(f)
      case Crossed(list) => RaycastOutcome.Hits(|list|, Hits(ro, rd, list))
  }

  /**
   * For a unit direction rd, a = |ba|^2 - (ba.rd)^2 is the squared norm of
   * the part of ba perpendicular to rd: never negative.
   */
  lemma LeadingCoefficient(rd: Vec3, ba: Vec3)
    requires Dot(rd, rd) == 1.0
    ensures QuadA(rd, ba) == Dot(Perpendicular(ba, rd), Perpendicular(ba, rd))
    ensures 0.0 <= QuadA(rd, ba)
  {
    var k := Dot(ba, rd);
    SquaredOffset(ba, rd, k);
    assert Dot(Perpendicular(ba, rd), Perpendicular(ba, rd)) == Dot(ba, ba) - 2.0 * k * k + k * k * 1.0;
    DotSelfNonNegative(Perpendicular(ba, rd));
  }

  /** The part of v perpendicular to the unit vector rd. */
  function Perpendicular(v: Vec3, rd: Vec3): Vec3 {
    Sub(v, Scale(rd, Dot(v, rd)))
  }

  /** The coefficient a of the source, for the unit direction rd and the axis ba. */
  function QuadA(rd: Vec3, ba: Vec3): real {
    Dot(ba, ba) - Dot(ba, rd) * Dot(ba, rd)
  }

  /** The coefficient b of the source, with oa = ro - pa. */
  function QuadB(rd: Vec3, ba: Vec3, oa: Vec3): real {
    Dot(ba, ba) * Dot(rd, oa) - Dot(ba, oa) * Dot(ba, rd)
  }

  /**
   * The implicit equation of the infinite cylinder of radius r around the
   * line through pa and pb, scaled by |pb - pa|^2:
   * |pb - pa|^2 |p - pa|^2 - ((pb - pa).(p - pa))^2 - r^2 |pb - pa|^2.
   * It is |pb - pa|^2 times (the squared distance from p to the line, minus
   * r^2). At the ray origin it is the coefficient c of the source.
   */
  function CylinderEquation(p: Vec3, pa: Vec3, pb: Vec3, r: real): real {
    var ba := Sub(pb, pa);
    var q := Sub(p, pa);
    Dot(ba, ba) * Dot(q, q) - Dot(ba, q) * Dot(ba, q) - r * r * Dot(ba, ba)
  }

  /** The crossings of the case table are at most two and forward; for a > 0 two come as Exit then Enter, descending. */
  lemma CaseTableShape(sqrt: real -> real, a: real, b: real, c: real)
    requires IsSqrt(sqrt)
    ensures var r := CaseTable(sqrt, a, b, c);
      r.Crossed? ==>
        && |r.list| <= 2
        && (forall x <- r.list :: 0.0 <= x.t)
        && (0.0 < a && |r.list| == 2 ==>
              r.list[0].kind == Exit && r.list[1].kind == Enter && r.list[0].t > r.list[1].t)
  {
    var del := b * b - a * c;
    if del > 0.0 && a != 0.0 {
      var s := sqrt(del);
      SqrtFacts(sqrt, del);
      if 0.0 < a {
        DivideOrdered(-b - s, -b + s, a);
      }
    }
  }

  lemma DivideOrdered(x: real, y: real, a: real)
    requires x < y && 0.0 < a
    ensures x / a < y / a
  {
  }

  /** Every Enter or Exit crossing of the case table is a root of a t^2 + 2 b t + c. */
  lemma CaseTableSound(sqrt: real -> real, a: real, b: real, c: real)
    requires IsSqrt(sqrt)
    ensures var r := CaseTable(sqrt, a, b, c);
      r.Crossed? ==> forall x <- r.list :: x.kind != Tangent ==> ReducedRoot(a, b, c, x.t)
  {
    var del := b * b - a * c;
    if del > 0.0 && a != 0.0 {
      SqrtFacts(sqrt, del);
      ReducedRoots(a, b, c, sqrt(del));
    }
  }

  /**
   * A Tangent crossing lies where the discriminant is 0, at t = -b / (2a).
   * There a t^2 + 2 b t + c equals b^2 / (4a), which is 0 only when b = 0:
   * the double root is -b / a.
   */
  lemma CaseTableTangent(sqrt: real -> real, a: real, b: real, c: real)
    requires IsSqrt(sqrt)
    ensures var r := CaseTable(sqrt, a, b, c);
      r.Crossed? ==> forall x <- r.list :: x.kind == Tangent ==>
        && b * b - a * c == 0.0 && a != 0.0
        && x.t == -b / (2.0 * a)
        && a * x.t * x.t + 2.0 * b * x.t + c == b * b / (4.0 * a)
        && (ReducedRoot(a, b, c, x.t) <==> b == 0.0)
  {
    if b * b - a * c == 0.0 && a != 0.0 {
      TangentValue(a, b, c);
    }
  }

  /** The value of a t^2 + 2 b t + c at -b / (2a) when its discriminant is 0. */
  lemma TangentValue(a: real, b: real, c: real)
    requires a != 0.0 && b * b - a * c == 0.0
    ensures var t := -b / (2.0 * a);
      && a * t * t + 2.0 * b * t + c == b * b / (4.0 * a)
      && (b * b / (4.0 * a) == 0.0 <==> b == 0.0)
  {
    var t := -b / (2.0 * a);
    var q := a * t * t + 2.0 * b * t + c;
    ReducedCompletedSquare(a, b, c, t);
    assert a * t == -b / 2.0;
    assert a * q == (b / 2.0) * (b / 2.0);
    assert q == b * b / (4.0 * a);
    if b != 0.0 {
      SquarePositive(b);
    }
  }

  /**
   * The table throws exactly when the discriminant is positive and a = 0 or
   * a root is exactly 0 (c = 0); it produces a NaN distance exactly when the
   * discriminant is 0 and a = 0.
   */
  lemma CaseTableFails(sqrt: real -> real, a: real, b: real, c: real)
    requires IsSqrt(sqrt)
    ensures CaseTable(sqrt, a, b, c) == Failed(ImpossibleDiscriminant)
        <==> 0.0 < b * b - a * c && (a == 0.0 || c == 0.0)
    ensures CaseTable(sqrt, a, b, c) == Failed(NaNDistance)
        <==> b * b - a * c == 0.0 && a == 0.0
  {
    var del := b * b - a * c;
    if del > 0.0 && a != 0.0 {
      var s := sqrt(del);
      SqrtFacts(sqrt, del);
      ReducedVieta(a, b, c, s);
      var t0, t1 := (-b + s) / a, (-b - s) / a;
      if c == 0.0 {
        ProductZero(a, t0 * t1);
        ProductZero(t0, t1);
      } else {
        ProductNonZeroFactors(t0, t1, a, c);
      }
    }
  }

  /** A product a (t0 t1) that is not 0 has no zero factor. */
  lemma ProductNonZeroFactors(t0: real, t1: real, a: real, c: real)
    requires a * (t0 * t1) == c && c != 0.0
    ensures t0 != 0.0 && t1 != 0.0
  {
  }

  /** For a > 0: a single Exit crossing happens exactly when c < 0, the roots having opposite signs. */
  lemma CaseTableExitOnly(sqrt: real -> real, a: real, b: real, c: real)
    requires IsSqrt(sqrt) && 0.0 < a
    ensures var r := CaseTable(sqrt, a, b, c);
      r.Crossed? && |r.list| == 1 && r.list[0].kind == Exit <==> c < 0.0
  {
    var del := b * b - a * c;
    SquareNonNegative(b);
    ScaledSign(a, c);
    if c < 0.0 {
      assert Negative(a * c);
      assert 0.0 < del;
    }
    if del > 0.0 {
      var s := sqrt(del);
      SqrtFacts(sqrt, del);
      ReducedVieta(a, b, c, s);
      ReducedRootSigns((-b + s) / a, (-b - s) / a, a, b, c);
      RootCrossingsExitOnly((-b + s) / a, (-b - s) / a);
    }
  }

  /** The two-root branch gives a single Exit crossing exactly when the roots have opposite signs. */
  lemma RootCrossingsExitOnly(t0: real, t1: real)
    ensures var r := RootCrossings(t0, t1);
      (r.Crossed? && |r.list| == 1 && r.list[0].kind == Exit) <==> ((t0 < 0.0 && 0.0 < t1) || (0.0 < t0 && t1 < 0.0))
  {
  }

  /** For a > 0: two crossings happen exactly when the discriminant and c are positive and b < 0. */
  lemma CaseTableTwo(sqrt: real -> real, a: real, b: real, c: real)
    requires IsSqrt(sqrt) && 0.0 < a
    ensures var r := CaseTable(sqrt, a, b, c);
      r.Crossed? && |r.list| == 2 <==> 0.0 < b * b - a * c && 0.0 < c && b < 0.0
  {
    var del := b * b - a * c;
    if del > 0.0 {
      var s := sqrt(del);
      SqrtFacts(sqrt, del);
      ReducedVieta(a, b, c, s);
      ReducedRootSigns((-b + s) / a, (-b - s) / a, a, b, c);
    }
  }

  /** The two-root branch of the corrected table, on the near and the far root. */
  function SortedCrossings(near: real, far: real): Crossings {
    if near >= 0.0 then
      Crossed([Crossing(Enter, near), Crossing(Exit, far)])
    else if far >= 0.0 then
      Crossed([Crossing(Exit, far)])
    else
      Crossed([])
  }

  /**
   * With the roots in descending order, the two-root branch as written lists
   * the corrected crossings, two of them reversed.
   */
  lemma RootCrossingsAgree(t0: real, t1: real)
    requires t1 < t0
    ensures CorrectedAgrees(RootCrossings(t0, t1), SortedCrossings(t1, t0))
    ensures RootCrossings(t0, t1).Crossed? && |RootCrossings(t0, t1).list| == 1 ==> RootCrossings(t0, t1).list[0].kind == Exit
  {
  }

  /**
   * The case table as its tests expect it: two crossings listed nearest
   * first, the tangent at the double root -b / a, and a root of exactly 0
   * counted as a crossing. A ray parallel to the axis (a = 0) still gives no
   * distance.
   */
  function CaseTableCorrected(sqrt: real -> real, a: real, b: real, c: real): Crossings
    requires IsSqrt(sqrt)
  {
    var del := b * b - a * c;
    if del < 0.0 then
      Crossed([])
    else if a == 0.0 then
      Failed(NaNDistance)
    else if del > 0.0 then
      var delRoot := sqrt(del);
      var t0 := (-b + delRoot) / a;
      var t1 := (-b - delRoot) / a;
      SortedCrossings(if t0 < t1 then t0 else t1, if t0 < t1 then t1 else t0)
    else
      var t := -b / a;
      if t < 0.0 then
        Crossed([])
      else
        Crossed([Crossing(Tangent, t)])
  }

  /**
   * The corrected table fails only for a = 0, and only with a NaN distance;
   * its crossings are at most two, forward, and two come as Enter then Exit
   * in ascending distance.
   */
  lemma CaseTableCorrectedShape(sqrt: real -> real, a: real, b: real, c: real)
    requires IsSqrt(sqrt)
    ensures var r := CaseTableCorrected(sqrt, a, b, c);
      && (r.Failed? <==> a == 0.0 && 0.0 <= b * b - a * c)
      && (r.Failed? ==> r.fault == NaNDistance)
      && (r.Crossed? ==>
            && |r.list| <= 2
            && (forall x <- r.list :: 0.0 <= x.t)
            && (|r.list| == 2 ==> r.list[0].kind == Enter && r.list[1].kind == Exit && r.list[0].t < r.list[1].t))
  {
    var del := b * b - a * c;
    if del > 0.0 && a != 0.0 {
      var s := sqrt(del);
      SqrtFacts(sqrt, del);
      DistinctRoots(a, b, s);
    }
  }

  /** For a != 0 and s != 0, (-b + s) / a and (-b - s) / a differ. */
  lemma DistinctRoots(a: real, b: real, s: real)
    requires a != 0.0 && s != 0.0
    ensures (-b + s) / a != (-b - s) / a
  {
    assert a * ((-b + s) / a) == -b + s;
    assert a * ((-b - s) / a) == -b - s;
  }

  /** Every crossing of the corrected table is a root of a t^2 + 2 b t + c. */
  lemma CaseTableCorrectedSound(sqrt: real -> real, a: real, b: real, c: real)
    requires IsSqrt(sqrt)
    ensures var r := CaseTableCorrected(sqrt, a, b, c);
      r.Crossed? ==> forall x <- r.list :: ReducedRoot(a, b, c, x.t)
  {
    var del := b * b - a * c;
    if a != 0.0 {
      if del > 0.0 {
        SqrtFacts(sqrt, del);
        ReducedRoots(a, b, c, sqrt(del));
      } else if del == 0.0 {
        DoubleRoot(a, b, c);
      }
    }
  }

  /** For a != 0, every non-negative root of a t^2 + 2 b t + c is a crossing of the corrected table. */
  lemma CaseTableCorrectedComplete(sqrt: real -> real, a: real, b: real, c: real, t: real)
    requires IsSqrt(sqrt) && a != 0.0
    requires 0.0 <= t && ReducedRoot(a, b, c, t)
    ensures CaseTableCorrected(sqrt, a, b, c).Crossed?
    ensures CrossesAt(CaseTableCorrected(sqrt, a, b, c).list, t)
  {
    var list := CaseTableCorrected(sqrt, a, b, c).list;
    var del := b * b - a * c;
    RootsOfReduced(a, b, c, t);
    if del > 0.0 {
      var s := sqrt(del);
      SqrtFacts(sqrt, del);
      RootIsOneOfTwo(a, b, c, s, t);
      var t0, t1 := (-b + s) / a, (-b - s) / a;
      if t0 < t1 {
        if t0 >= 0.0 {
          assert list[0].t == t0 && list[1].t == t1;
        } else {
          assert list[0].t == t1;
        }
      } else {
        if t1 >= 0.0 {
          assert list[0].t == t1 && list[1].t == t0;
        } else {
          assert list[0].t == t0;
        }
      }
    } else {
      assert list[0].t == t;
    }
  }

  /** A root of a t^2 + 2 b t + c (a != 0) means a discriminant that is not negative, and the double root -b / a when it is 0. */
  lemma RootsOfReduced(a: real, b: real, c: real, t: real)
    requires a != 0.0 && ReducedRoot(a, b, c, t)
    ensures 0.0 <= b * b - a * c
    ensures b * b - a * c == 0.0 ==> t == -b / a
  {
    ReducedCompletedSquare(a, b, c, t);
    SquareNonNegative(a * t + b);
    if b * b - a * c == 0.0 {
      SquareZero(a * t + b);
    }
  }

  /** With a zero discriminant, -b / a solves a t^2 + 2 b t + c = 0. */
  lemma DoubleRoot(a: real, b: real, c: real)
    requires a != 0.0 && b * b - a * c == 0.0
    ensures ReducedRoot(a, b, c, -b / a)
  {
    var t := -b / a;
    ReducedCompletedSquare(a, b, c, t);
    assert a * t + b == 0.0;
    ProductZero(a, a * t * t + 2.0 * b * t + c);
  }

  /** A root of a t^2 + 2 b t + c (a != 0) is one of the two the quadratic formula gives. */
  lemma RootIsOneOfTwo(a: real, b: real, c: real, s: real, t: real)
    requires a != 0.0 && s * s == b * b - a * c && ReducedRoot(a, b, c, t)
    ensures t == (-b + s) / a || t == (-b - s) / a
  {
    ReducedFactor(a, b, c, s, t);
    ProductZero(a * t + b + s, a * t + b - s);
    if a * t + b - s == 0.0 {
      assert a * t == -b + s;
    } else {
      assert a * t == -b - s;
    }
  }

  /**
   * Where the table as written does not fail, the corrected table lists the
   * same crossings, except that two crossings come in the reverse order and
   * the tangent distance is doubled.
   */
  predicate CorrectedAgrees(r: Crossings, rc: Crossings) {
    r.Crossed? ==>
      && rc.Crossed?
      && (|r.list| == 2 ==> rc.list == [r.list[1], r.list[0]])
      && (|r.list| == 1 && r.list[0].kind == Exit ==> rc.list == r.list)
      && (|r.list| == 1 && r.list[0].kind == Tangent ==> rc.list == [Crossing(Tangent, 2.0 * r.list[0].t)])
      && (|r.list| == 0 ==> rc.list == [])
  }

  /** For a > 0 the corrected table agrees with the table as written, in the sense of CorrectedAgrees. */
  lemma CaseTableCorrectedAgrees(sqrt: real -> real, a: real, b: real, c: real)
    requires IsSqrt(sqrt) && 0.0 < a
    ensures CorrectedAgrees(CaseTable(sqrt, a, b, c), CaseTableCorrected(sqrt, a, b, c))
  {
    var del := b * b - a * c;
    if del > 0.0 {
      TwoRootsAgree(sqrt, a, b, c);
    } else if del == 0.0 {
      TangentAgrees(sqrt, a, b, c);
    }
  }

  /** CaseTableCorrectedAgrees where the discriminant is positive. */
  lemma TwoRootsAgree(sqrt: real -> real, a: real, b: real, c: real)
    requires IsSqrt(sqrt) && 0.0 < a && 0.0 < b * b - a * c
    ensures CorrectedAgrees(CaseTable(sqrt, a, b, c), CaseTableCorrected(sqrt, a, b, c))
  {
    var del := b * b - a * c;
    var s := sqrt(del);
    SqrtFacts(sqrt, del);
    DivideOrdered(-b - s, -b + s, a);
    RootCrossingsAgree((-b + s) / a, (-b - s) / a);
  }

  /** CaseTableCorrectedAgrees where the discriminant is 0: the tangent at -b / (2a) becomes the one at -b / a. */
  lemma TangentAgrees(sqrt: real -> real, a: real, b: real, c: real)
    requires IsSqrt(sqrt) && 0.0 < a && b * b - a * c == 0.0
    ensures CorrectedAgrees(CaseTable(sqrt, a, b, c), CaseTableCorrected(sqrt, a, b, c))
  {
    assert -b / a == 2.0 * (-b / (2.0 * a));
    QuotientSign(-b, a);
    QuotientSign(-b, 2.0 * a);
  }

  /**
   * Along the ray with unit direction rd, the cylinder equation is the
   * quadratic a t^2 + 2 b t + c of the case table.
   */
  lemma CylinderAlongRay(ro: Vec3, rd: Vec3, pa: Vec3, pb: Vec3, r: real, t: real)
    requires Dot(rd, rd) == 1.0
    ensures var ba, oa := Sub(pb, pa), Sub(ro, pa);
      CylinderEquation(PointAt(Ray(ro, rd), t), pa, pb, r)
        == QuadA(rd, ba) * t * t + 2.0 * QuadB(rd, ba, oa) * t + CylinderEquation(ro, pa, pb, r)
  {
    var ba, oa := Sub(pb, pa), Sub(ro, pa);
    var q := Sub(PointAt(Ray(ro, rd), t), pa);
    assert q == Add(oa, Scale(rd, t));
    DotAlongLine(oa, rd, t);
    DotAlongAxis(ba, oa, rd, t);
    assert Dot(q, q) == Dot(oa, oa) + 2.0 * t * Dot(rd, oa) + t * t * 1.0;
    assert Dot(ba, q) == Dot(ba, oa) + t * Dot(ba, rd);
    assert CylinderEquation(PointAt(Ray(ro, rd), t), pa, pb, r)
        == Dot(ba, ba) * Dot(q, q) - Dot(ba, q) * Dot(ba, q) - r * r * Dot(ba, ba);
    ScaledEqual(Dot(ba, ba), Dot(q, q), Dot(oa, oa) + 2.0 * t * Dot(rd, oa) + t * t * 1.0);
    SquareOfSum(Dot(ba, oa), Dot(ba, rd), t);
  }

  lemma DotAlongAxis(ba: Vec3, oa: Vec3, rd: Vec3, t: real)
    ensures Dot(ba, Add(oa, Scale(rd, t))) == Dot(ba, oa) + t * Dot(ba, rd)
  {
  }

  lemma ScaledEqual(k: real, x: real, y: real)
    requires x == y
    ensures k * x == k * y
  {
  }

  /**
   * When the axis is a multiple of the unit direction rd (a = 0), b is 0 as
   * well: a ray parallel to the axis always reaches the zero-discriminant branch.
   */
  lemma ParallelCoefficients(rd: Vec3, ba: Vec3, oa: Vec3)
    requires Dot(rd, rd) == 1.0
    ensures QuadA(rd, ba) == 0.0 <==> Perpendicular(ba, rd) == Zero
    ensures QuadA(rd, ba) == 0.0 ==> QuadB(rd, ba, oa) == 0.0
  {
    var k := Dot(ba, rd);
    LeadingCoefficient(rd, ba);
    DotSelfNonNegative(Perpendicular(ba, rd));
    if Perpendicular(ba, rd) == Zero {
      assert ba == Scale(rd, k);
      ParallelDots(rd, oa, k);
      ParallelB(Dot(ba, ba), Dot(ba, oa), Dot(rd, oa), k);
    }
  }

  lemma ParallelDots(rd: Vec3, oa: Vec3, k: real)
    requires Dot(rd, rd) == 1.0
    ensures Dot(Scale(rd, k), Scale(rd, k)) == k * k
    ensures Dot(Scale(rd, k), oa) == k * Dot(rd, oa)
  {
    DotScale(rd, Scale(rd, k), k);
    DotScale(rd, rd, k);
    DotScale(rd, oa, k);
  }

  lemma ParallelB(baba: real, baoa: real, rdoa: real, k: real)
    requires baba == k * k && baoa == k * rdoa
    ensures baba * rdoa - baoa * k == 0.0
  {
  }

  /** The case table that Raycast consults for a non-zero direction. */
  function TableOf(sqrt: real -> real, ro: Vec3, d: Vec3, pa: Vec3, pb: Vec3, capsuleRadius: real): Crossings
    requires IsSqrt(sqrt)
  {
    var rd := Normalize(sqrt, d);
    CaseTable(sqrt, QuadA(rd, Sub(pb, pa)), QuadB(rd, Sub(pb, pa), Sub(ro, pa)), CylinderEquation(ro, pa, pb, Sphere.Abs(capsuleRadius)))
  }

  /**
   * For a non-zero direction, Raycast is read off the case table of the ray
   * quadratic: a fault of the table is the raycast's fault, and crossings
   * become hits in the same order.
   */
  lemma RaycastOfTable(sqrt: real -> real, ro: Vec3, d: Vec3, pa: Vec3, pb: Vec3, capsuleRadius: real)
    requires IsSqrt(sqrt) && d != Zero
    ensures var r, table := Raycast(sqrt, ro, d, pa, pb, capsuleRadius), TableOf(sqrt, ro, d, pa, pb, capsuleRadius);
      && (r.Fault? <==> table.Failed?)
      && (table.Failed? ==> r.fault == table.fault)
      && (table.Crossed? ==> r.count == |table.list| && r.hits == Hits(ro, Normalize(sqrt, d), table.list))
  {
  }

  /**
   * The raycast yields no distance exactly when the ray is parallel to the
   * axis (the axis has no part perpendicular to the direction), and throws
   * exactly when the direction is zero, or when the ray is not parallel to
   * the axis, starts on the infinite cylinder (c = 0), and is not tangent to
   * it there (b != 0).
   */
  lemma RaycastFaultsIff(sqrt: real -> real, rayOrigin: Vec3, rayDirection: Vec3, capsuleOriginA: Vec3, capsuleOriginB: Vec3, capsuleRadius: real)
    requires IsSqrt(sqrt)
    ensures var r := Raycast(sqrt, rayOrigin, rayDirection, capsuleOriginA, capsuleOriginB, capsuleRadius);
      var rd := Normalize(sqrt, rayDirection);
      var ba := Sub(capsuleOriginB, capsuleOriginA);
      r == Fault(NaNDistance) <==> rayDirection != Zero && Perpendicular(ba, rd) == Zero
    ensures var r := Raycast(sqrt, rayOrigin, rayDirection, capsuleOriginA, capsuleOriginB, capsuleRadius);
      var rd := Normalize(sqrt, rayDirection);
      var ba, oa := Sub(capsuleOriginB, capsuleOriginA), Sub(rayOrigin, capsuleOriginA);
      r == Fault(ImpossibleDiscriminant) <==>
        || rayDirection == Zero
        || (&& Perpendicular(ba, rd) != Zero
            && CylinderEquation(rayOrigin, capsuleOriginA, capsuleOriginB, Sphere.Abs(capsuleRadius)) == 0.0
            && QuadB(rd, ba, oa) != 0.0)
  {
    if rayDirection != Zero {
      RaycastOfTable(sqrt, rayOrigin, rayDirection, capsuleOriginA, capsuleOriginB, capsuleRadius);
      TableFaults(sqrt, rayOrigin, rayDirection, capsuleOriginA, capsuleOriginB, capsuleRadius);
    }
  }

  /** The faults of the case table of a ray, in terms of the ray and the cylinder. */
  lemma TableFaults(sqrt: real -> real, ro: Vec3, d: Vec3, pa: Vec3, pb: Vec3, capsuleRadius: real)
    requires IsSqrt(sqrt) && d != Zero
    ensures var table, rd, ba := TableOf(sqrt, ro, d, pa, pb, capsuleRadius), Normalize(sqrt, d), Sub(pb, pa);
      && (table == Failed(NaNDistance) <==> Perpendicular(ba, rd) == Zero)
      && (table == Failed(ImpossibleDiscriminant) <==>
           && Perpendicular(ba, rd) != Zero
           && CylinderEquation(ro, pa, pb, Sphere.Abs(capsuleRadius)) == 0.0
           && QuadB(rd, ba, Sub(ro, pa)) != 0.0)
  {
    var rd, ba, oa := Normalize(sqrt, d), Sub(pb, pa), Sub(ro, pa);
    ParallelCoefficients(rd, ba, oa);
    LeadingCoefficient(rd, ba);
    CoefficientFaults(sqrt, QuadA(rd, ba), QuadB(rd, ba, oa), CylinderEquation(ro, pa, pb, Sphere.Abs(capsuleRadius)));
  }

  /**
   * The faults of the case table when a >= 0 and a = 0 forces b = 0, as for
   * every ray quadratic: NaNDistance exactly when a = 0, the exception
   * exactly when a != 0, c = 0 and b != 0.
   */
  lemma CoefficientFaults(sqrt: real -> real, a: real, b: real, c: real)
    requires IsSqrt(sqrt) && 0.0 <= a && (a == 0.0 ==> b == 0.0)
    ensures CaseTable(sqrt, a, b, c) == Failed(NaNDistance) <==> a == 0.0
    ensures CaseTable(sqrt, a, b, c) == Failed(ImpossibleDiscriminant) <==> a != 0.0 && c == 0.0 && b != 0.0
  {
    CaseTableFails(sqrt, a, b, c);
    DiscriminantAtZero(a, b, c);
  }

  /** With a = 0 and b = 0, or with c = 0, the reduced discriminant is b^2. */
  lemma DiscriminantAtZero(a: real, b: real, c: real)
    ensures a == 0.0 && b == 0.0 ==> b * b - a * c == 0.0
    ensures c == 0.0 ==> (0.0 < b * b - a * c <==> b != 0.0)
    ensures c == 0.0 ==> (b * b - a * c == 0.0 <==> b == 0.0)
  {
    var del := b * b - a * c;
    if c == 0.0 {
      assert del == b * b;
      if b != 0.0 {
        SquarePositive(b);
        assert Positive(b * b);
        assert Positive(del);
      }
    }
  }

  /** The axis has a part perpendicular to the unit direction rd exactly when a > 0. */
  lemma NonParallel(rd: Vec3, ba: Vec3)
    requires Dot(rd, rd) == 1.0
    ensures Perpendicular(ba, rd) != Zero <==> 0.0 < QuadA(rd, ba)
  {
    LeadingCoefficient(rd, ba);
    ParallelCoefficients(rd, ba, ba);
  }

  /** The i-th hit of the raycast is the i-th crossing of its case table, placed on the ray. */
  lemma HitOfTable(sqrt: real -> real, ro: Vec3, d: Vec3, pa: Vec3, pb: Vec3, capsuleRadius: real, i: int)
    requires IsSqrt(sqrt)
    requires var r := Raycast(sqrt, ro, d, pa, pb, capsuleRadius);
      r.Hits? && 0 <= i < |r.hits|
    ensures d != Zero && TableOf(sqrt, ro, d, pa, pb, capsuleRadius).Crossed?
    ensures var r, list := Raycast(sqrt, ro, d, pa, pb, capsuleRadius), TableOf(sqrt, ro, d, pa, pb, capsuleRadius).list;
      && |list| == |r.hits|
      && r.hits[i].hitType == list[i].kind
      && r.hits[i].distanceAlongRay == list[i].t
      && r.hits[i].hitPoint == PointAt(Ray(ro, Normalize(sqrt, d)), list[i].t)
  {
    assert d != Zero;
    RaycastOfTable(sqrt, ro, d, pa, pb, capsuleRadius);
  }

  /**
   * Every Enter or Exit hit of the raycast lies on the infinite cylinder of
   * radius |capsuleRadius| around the axis.
   */
  lemma RaycastHitsOnCylinder(sqrt: real -> real, rayOrigin: Vec3, rayDirection: Vec3, capsuleOriginA: Vec3, capsuleOriginB: Vec3, capsuleRadius: real)
    requires IsSqrt(sqrt)
    ensures var r := Raycast(sqrt, rayOrigin, rayDirection, capsuleOriginA, capsuleOriginB, capsuleRadius);
      r.Hits? ==> forall h <- r.hits :: h.hitType != Tangent ==>
        CylinderEquation(h.hitPoint, capsuleOriginA, capsuleOriginB, Sphere.Abs(capsuleRadius)) == 0.0
  {
    var r := Raycast(sqrt, rayOrigin, rayDirection, capsuleOriginA, capsuleOriginB, capsuleRadius);
    if r.Hits? {
      forall i | 0 <= i < |r.hits| && r.hits[i].hitType != Tangent
        ensures CylinderEquation(r.hits[i].hitPoint, capsuleOriginA, capsuleOriginB, Sphere.Abs(capsuleRadius)) == 0.0
      {
        HitOnCylinder(sqrt, rayOrigin, rayDirection, capsuleOriginA, capsuleOriginB, capsuleRadius, i);
      }
    }
  }

  lemma HitOnCylinder(sqrt: real -> real, ro: Vec3, d: Vec3, pa: Vec3, pb: Vec3, capsuleRadius: real, i: int)
    requires IsSqrt(sqrt)
    requires var r := Raycast(sqrt, ro, d, pa, pb, capsuleRadius);
      r.Hits? && 0 <= i < |r.hits| && r.hits[i].hitType != Tangent
    ensures var r := Raycast(sqrt, ro, d, pa, pb, capsuleRadius);
      CylinderEquation(r.hits[i].hitPoint, pa, pb, Sphere.Abs(capsuleRadius)) == 0.0
  {
    HitOfTable(sqrt, ro, d, pa, pb, capsuleRadius, i);
    var list := TableOf(sqrt, ro, d, pa, pb, capsuleRadius).list;
    assert list[i] in list;
    CrossingOnCylinder(sqrt, ro, d, pa, pb, capsuleRadius, list[i]);
  }

  /** An Enter or Exit crossing of the case table is a point of the ray on the infinite cylinder. */
  lemma CrossingOnCylinder(sqrt: real -> real, ro: Vec3, d: Vec3, pa: Vec3, pb: Vec3, capsuleRadius: real, x: Crossing)
    requires IsSqrt(sqrt) && d != Zero
    requires var table := TableOf(sqrt, ro, d, pa, pb, capsuleRadius);
      table.Crossed? && x in table.list && x.kind != Tangent
    ensures CylinderEquation(PointAt(Ray(ro, Normalize(sqrt, d)), x.t), pa, pb, Sphere.Abs(capsuleRadius)) == 0.0
  {
    var rd, ba, oa := Normalize(sqrt, d), Sub(pb, pa), Sub(ro, pa);
    var radius := Sphere.Abs(capsuleRadius);
    var a, b, c := QuadA(rd, ba), QuadB(rd, ba, oa), CylinderEquation(ro, pa, pb, radius);
    CaseTableSound(sqrt, a, b, c);
    assert ReducedRoot(a, b, c, x.t);
    RootOnCylinder(ro, rd, pa, pb, radius, x.t);
  }

  /** A root of the ray quadratic is a point of the ray on the infinite cylinder, and back. */
  lemma RootOnCylinder(ro: Vec3, rd: Vec3, pa: Vec3, pb: Vec3, r: real, t: real)
    requires Dot(rd, rd) == 1.0
    ensures var ba, oa := Sub(pb, pa), Sub(ro, pa);
      (ReducedRoot(QuadA(rd, ba), QuadB(rd, ba, oa), CylinderEquation(ro, pa, pb, r), t))
        <==> (CylinderEquation(PointAt(Ray(ro, rd), t), pa, pb, r) == 0.0)
  {
    CylinderAlongRay(ro, rd, pa, pb, r, t);
  }

  /**
   * A Tangent hit of the raycast lies on the infinite cylinder only when it
   * is at the ray origin: elsewhere the source reports the tangent at half the
   * distance of the point where the ray touches the cylinder.
   */
  lemma RaycastTangentOffCylinder(sqrt: real -> real, rayOrigin: Vec3, rayDirection: Vec3, capsuleOriginA: Vec3, capsuleOriginB: Vec3, capsuleRadius: real)
    requires IsSqrt(sqrt)
    ensures var r := Raycast(sqrt, rayOrigin, rayDirection, capsuleOriginA, capsuleOriginB, capsuleRadius);
      r.Hits? ==> forall h <- r.hits :: h.hitType == Tangent ==>
        ((CylinderEquation(h.hitPoint, capsuleOriginA, capsuleOriginB, Sphere.Abs(capsuleRadius)) == 0.0)
          <==> (h.distanceAlongRay == 0.0))
  {
    var r := Raycast(sqrt, rayOrigin, rayDirection, capsuleOriginA, capsuleOriginB, capsuleRadius);
    if r.Hits? {
      forall i | 0 <= i < |r.hits| && r.hits[i].hitType == Tangent
        ensures (CylinderEquation(r.hits[i].hitPoint, capsuleOriginA, capsuleOriginB, Sphere.Abs(capsuleRadius)) == 0.0)
          <==> (r.hits[i].distanceAlongRay == 0.0)
      {
        TangentHit(sqrt, rayOrigin, rayDirection, capsuleOriginA, capsuleOriginB, capsuleRadius, i);
      }
    }
  }

  lemma TangentHit(sqrt: real -> real, ro: Vec3, d: Vec3, pa: Vec3, pb: Vec3, capsuleRadius: real, i: int)
    requires IsSqrt(sqrt)
    requires var r := Raycast(sqrt, ro, d, pa, pb, capsuleRadius);
      r.Hits? && 0 <= i < |r.hits| && r.hits[i].hitType == Tangent
    ensures var r := Raycast(sqrt, ro, d, pa, pb, capsuleRadius);
      (CylinderEquation(r.hits[i].hitPoint, pa, pb, Sphere.Abs(capsuleRadius)) == 0.0)
        <==> (r.hits[i].distanceAlongRay == 0.0)
  {
    HitOfTable(sqrt, ro, d, pa, pb, capsuleRadius, i);
    var list := TableOf(sqrt, ro, d, pa, pb, capsuleRadius).list;
    assert list[i] in list;
    TangentCrossing(sqrt, ro, d, pa, pb, capsuleRadius, list[i]);
  }

  /** A Tangent crossing of the case table is on the infinite cylinder exactly when it is at distance 0. */
  lemma TangentCrossing(sqrt: real -> real, ro: Vec3, d: Vec3, pa: Vec3, pb: Vec3, capsuleRadius: real, x: Crossing)
    requires IsSqrt(sqrt) && d != Zero
    requires var table := TableOf(sqrt, ro, d, pa, pb, capsuleRadius);
      table.Crossed? && x in table.list && x.kind == Tangent
    ensures (CylinderEquation(PointAt(Ray(ro, Normalize(sqrt, d)), x.t), pa, pb, Sphere.Abs(capsuleRadius)) == 0.0)
        <==> (x.t == 0.0)
  {
    var rd, ba, oa := Normalize(sqrt, d), Sub(pb, pa), Sub(ro, pa);
    var radius := Sphere.Abs(capsuleRadius);
    var a, b := QuadA(rd, ba), QuadB(rd, ba, oa);
    CaseTableTangent(sqrt, a, b, CylinderEquation(ro, pa, pb, radius));
    HalfQuotientZero(a, b);
    RootOnCylinder(ro, rd, pa, pb, radius, x.t);
  }

  lemma HalfQuotientZero(a: real, b: real)
    requires a != 0.0
    ensures -b / (2.0 * a) == 0.0 <==> b == 0.0
  {
    assert (2.0 * a) * (-b / (2.0 * a)) == -b;
  }

  /**
   * The raycast reports a single Exit exactly when the ray is not parallel
   * to the axis and starts strictly inside the infinite cylinder.
   */
  lemma RaycastExitOnlyIff(sqrt: real -> real, rayOrigin: Vec3, rayDirection: Vec3, capsuleOriginA: Vec3, capsuleOriginB: Vec3, capsuleRadius: real)
    requires IsSqrt(sqrt)
    ensures var r := Raycast(sqrt, rayOrigin, rayDirection, capsuleOriginA, capsuleOriginB, capsuleRadius);
      var rd, ba := Normalize(sqrt, rayDirection), Sub(capsuleOriginB, capsuleOriginA);
      (r.Hits? && |r.hits| == 1 && r.hits[0].hitType == Exit)
        <==> (&& rayDirection != Zero
              && Perpendicular(ba, rd) != Zero
              && CylinderEquation(rayOrigin, capsuleOriginA, capsuleOriginB, Sphere.Abs(capsuleRadius)) < 0.0)
  {
    if rayDirection != Zero {
      var rd, ba, oa := Normalize(sqrt, rayDirection), Sub(capsuleOriginB, capsuleOriginA), Sub(rayOrigin, capsuleOriginA);
      var a, b, c := QuadA(rd, ba), QuadB(rd, ba, oa), CylinderEquation(rayOrigin, capsuleOriginA, capsuleOriginB, Sphere.Abs(capsuleRadius));
      RaycastOfTable(sqrt, rayOrigin, rayDirection, capsuleOriginA, capsuleOriginB, capsuleRadius);
      TableFaults(sqrt, rayOrigin, rayDirection, capsuleOriginA, capsuleOriginB, capsuleRadius);
      NonParallel(rd, ba);
      if 0.0 < a {
        CaseTableExitOnly(sqrt, a, b, c);
      }
    }
  }

  /**
   * The raycast reports two hits exactly when the ray is not parallel to the
   * axis, starts outside the infinite cylinder (c > 0), heads towards the
   * axis (b < 0) and its line meets the cylinder twice (b^2 - a c > 0).
   */
  lemma RaycastTwoHitsIff(sqrt: real -> real, rayOrigin: Vec3, rayDirection: Vec3, capsuleOriginA: Vec3, capsuleOriginB: Vec3, capsuleRadius: real)
    requires IsSqrt(sqrt)
    ensures var r := Raycast(sqrt, rayOrigin, rayDirection, capsuleOriginA, capsuleOriginB, capsuleRadius);
      var rd, ba, oa := Normalize(sqrt, rayDirection), Sub(capsuleOriginB, capsuleOriginA), Sub(rayOrigin, capsuleOriginA);
      var a, b, c := QuadA(rd, ba), QuadB(rd, ba, oa), CylinderEquation(rayOrigin, capsuleOriginA, capsuleOriginB, Sphere.Abs(capsuleRadius));
      (r.Hits? && |r.hits| == 2)
        <==> (rayDirection != Zero && Perpendicular(ba, rd) != Zero && 0.0 < c && b < 0.0 && 0.0 < b * b - a * c)
  {
    if rayDirection != Zero {
      var rd, ba, oa := Normalize(sqrt, rayDirection), Sub(capsuleOriginB, capsuleOriginA), Sub(rayOrigin, capsuleOriginA);
      var a, b, c := QuadA(rd, ba), QuadB(rd, ba, oa), CylinderEquation(rayOrigin, capsuleOriginA, capsuleOriginB, Sphere.Abs(capsuleRadius));
      RaycastOfTable(sqrt, rayOrigin, rayDirection, capsuleOriginA, capsuleOriginB, capsuleRadius);
      TableFaults(sqrt, rayOrigin, rayDirection, capsuleOriginA, capsuleOriginB, capsuleRadius);
      NonParallel(rd, ba);
      if 0.0 < a {
        CaseTableTwo(sqrt, a, b, c);
      }
    }
  }

  /**
   * The capsule raycast with the corrected case table: two hits come nearest
   * first as Enter then Exit, a Tangent hit lies where the ray touches the
   * cylinder, and a ray starting on the cylinder no longer throws.
   */
  function RaycastCorrected(sqrt: real -> real, rayOrigin: Vec3, rayDirection: Vec3, capsuleOriginA: Vec3, capsuleOriginB: Vec3, capsuleRadius: real): (r: RaycastOutcome)
    requires IsSqrt(sqrt)
    ensures r.Hits? ==> r.count == |r.hits| <= 2
    ensures r.Hits? ==> forall h <- r.hits ::
      && OnRay(h)
      && h.ray == Ray(rayOrigin, Normalize(sqrt, rayDirection))
      && h.surfaceNormal == Zero
    ensures r.Hits? && r.count == 2 ==>
      && r.hits[0].hitType == Enter && r.hits[1].hitType == Exit
      && r.hits[0].distanceAlongRay < r.hits[1].distanceAlongRay
  {
    if rayDirection == Zero then
      Fault(ImpossibleDiscriminant)
    else
      var ro := rayOrigin;
      var rd := Normalize(sqrt, rayDirection);
      var pa := capsuleOriginA;
      var pb := capsuleOriginB;
      var radius := Sphere.Abs(capsuleRadius);
      var ba := Sub(pb, pa);
      var oa := Sub(ro, pa);
      var a := QuadA(rd, ba);
      var b := QuadB(rd, ba, oa);
      var c := CylinderEquation(ro, pa, pb, radius);
      CaseTableCorrectedShape(sqrt, a, b, c);
      match CaseTableCorrected(sqrt, a, b, c)
      case Failed(f) => Fault(f)
      case Crossed(list) => RaycastOutcome.Hits(|list|, Hits(ro, rd, list))
  }

  /** The corrected case table that RaycastCorrected consults for a non-zero direction. */
  function CorrectedTableOf(sqrt: real -> real, ro: Vec3, d: Vec3, pa: Vec3, pb: Vec3, capsuleRadius: real): Crossings
    requires IsSqrt(sqrt)
  {
    var rd := Normalize(sqrt, d);
    CaseTableCorrected(sqrt, QuadA(rd, Sub(pb, pa)), QuadB(rd, Sub(pb, pa), Sub(ro, pa)), CylinderEquation(ro, pa, pb, Sphere.Abs(capsuleRadius)))
  }

  /** RaycastOfTable for RaycastCorrected and the corrected case table. */
  lemma RaycastCorrectedOfTable(sqrt: real -> real, ro: Vec3, d: Vec3, pa: Vec3, pb: Vec3, capsuleRadius: real)
    requires IsSqrt(sqrt) && d != Zero
    ensures var r, table := RaycastCorrected(sqrt, ro, d, pa, pb, capsuleRadius), CorrectedTableOf(sqrt, ro, d, pa, pb, capsuleRadius);
      && (r.Fault? <==> table.Failed?)
      && (table.Failed? ==> r.fault == table.fault)
      && (table.Crossed? ==> r.count == |table.list| && r.hits == Hits(ro, Normalize(sqrt, d), table.list))
  {
  }

  /**
   * The corrected raycast fails only for the zero direction (the exception)
   * and for a ray parallel to the axis (no distance).
   */
  lemma RaycastCorrectedFaultsIff(sqrt: real -> real, rayOrigin: Vec3, rayDirection: Vec3, capsuleOriginA: Vec3, capsuleOriginB: Vec3, capsuleRadius: real)
    requires IsSqrt(sqrt)
    ensures var r := RaycastCorrected(sqrt, rayOrigin, rayDirection, capsuleOriginA, capsuleOriginB, capsuleRadius);
      r == Fault(ImpossibleDiscriminant) <==> rayDirection == Zero
    ensures var r := RaycastCorrected(sqrt, rayOrigin, rayDirection, capsuleOriginA, capsuleOriginB, capsuleRadius);
      var rd, ba := Normalize(sqrt, rayDirection), Sub(capsuleOriginB, capsuleOriginA);
      r == Fault(NaNDistance) <==> rayDirection != Zero && Perpendicular(ba, rd) == Zero
  {
    if rayDirection != Zero {
      var rd, ba, oa := Normalize(sqrt, rayDirection), Sub(capsuleOriginB, capsuleOriginA), Sub(rayOrigin, capsuleOriginA);
      var a, b, c := QuadA(rd, ba), QuadB(rd, ba, oa), CylinderEquation(rayOrigin, capsuleOriginA, capsuleOriginB, Sphere.Abs(capsuleRadius));
      RaycastCorrectedOfTable(sqrt, rayOrigin, rayDirection, capsuleOriginA, capsuleOriginB, capsuleRadius);
      ParallelCoefficients(rd, ba, oa);
      CaseTableCorrectedShape(sqrt, a, b, c);
      DiscriminantAtZero(a, b, c);
    }
  }

  /**
   * Wherever Raycast returns hits, RaycastCorrected returns as many: two hits
   * in the reverse order, a single Exit unchanged, and a Tangent hit at twice
   * the distance.
   */
  lemma RaycastCorrectedAgrees(sqrt: real -> real, rayOrigin: Vec3, rayDirection: Vec3, capsuleOriginA: Vec3, capsuleOriginB: Vec3, capsuleRadius: real)
    requires IsSqrt(sqrt)
    ensures var r, rc := Raycast(sqrt, rayOrigin, rayDirection, capsuleOriginA, capsuleOriginB, capsuleRadius),
                         RaycastCorrected(sqrt, rayOrigin, rayDirection, capsuleOriginA, capsuleOriginB, capsuleRadius);
      r.Hits? ==>
        && rc.Hits? && |rc.hits| == |r.hits|
        && (|r.hits| == 2 ==> rc.hits == [r.hits[1], r.hits[0]])
        && (|r.hits| == 1 && r.hits[0].hitType == Exit ==> rc.hits == r.hits)
        && (|r.hits| == 1 && r.hits[0].hitType == Tangent ==>
              rc.hits[0].hitType == Tangent && rc.hits[0].distanceAlongRay == 2.0 * r.hits[0].distanceAlongRay)
  {
    var r := Raycast(sqrt, rayOrigin, rayDirection, capsuleOriginA, capsuleOriginB, capsuleRadius);
    if r.Hits? {
      assert rayDirection != Zero;
      var rd, ba := Normalize(sqrt, rayDirection), Sub(capsuleOriginB, capsuleOriginA);
      var a, b, c := QuadA(rd, ba), QuadB(rd, ba, Sub(rayOrigin, capsuleOriginA)), CylinderEquation(rayOrigin, capsuleOriginA, capsuleOriginB, Sphere.Abs(capsuleRadius));
      RaycastOfTable(sqrt, rayOrigin, rayDirection, capsuleOriginA, capsuleOriginB, capsuleRadius);
      RaycastCorrectedOfTable(sqrt, rayOrigin, rayDirection, capsuleOriginA, capsuleOriginB, capsuleRadius);
      TableFaults(sqrt, rayOrigin, rayDirection, capsuleOriginA, capsuleOriginB, capsuleRadius);
      NonParallel(rd, ba);
      CaseTableCorrectedAgrees(sqrt, a, b, c);
      HitsOfAgreeingTables(rayOrigin, rd, CaseTable(sqrt, a, b, c).list, CaseTableCorrected(sqrt, a, b, c).list);
    }
  }

  /** The hits of two crossing lists related as in CaseTableCorrectedAgrees are related in the same way. */
  lemma HitsOfAgreeingTables(ro: Vec3, rd: Vec3, list: seq<Crossing>, corrected: seq<Crossing>)
    requires |list| <= 2 && |corrected| == |list|
    requires |list| == 2 ==> corrected == [list[1], list[0]]
    requires |list| == 1 && list[0].kind == Exit ==> corrected == list
    requires |list| == 1 && list[0].kind == Tangent ==> corrected == [Crossing(Tangent, 2.0 * list[0].t)]
    ensures var hs, hc := Hits(ro, rd, list), Hits(ro, rd, corrected);
      && |hc| == |hs|
      && (|hs| == 2 ==> hc == [hs[1], hs[0]])
      && (|hs| == 1 && hs[0].hitType == Exit ==> hc == hs)
      && (|hs| == 1 && hs[0].hitType == Tangent ==> hc[0].hitType == Tangent && hc[0].distanceAlongRay == 2.0 * hs[0].distanceAlongRay)
  {
    var hs, hc := Hits(ro, rd, list), Hits(ro, rd, corrected);
    if |list| == 2 {
      assert hc == [hc[0], hc[1]];
    }
  }

  /** Every hit of the corrected raycast, Tangent included, lies on the infinite cylinder. */
  lemma RaycastCorrectedHitsOnCylinder(sqrt: real -> real, rayOrigin: Vec3, rayDirection: Vec3, capsuleOriginA: Vec3, capsuleOriginB: Vec3, capsuleRadius: real)
    requires IsSqrt(sqrt)
    ensures var r := RaycastCorrected(sqrt, rayOrigin, rayDirection, capsuleOriginA, capsuleOriginB, capsuleRadius);
      r.Hits? ==> forall h <- r.hits ::
        CylinderEquation(h.hitPoint, capsuleOriginA, capsuleOriginB, Sphere.Abs(capsuleRadius)) == 0.0
  {
    var r := RaycastCorrected(sqrt, rayOrigin, rayDirection, capsuleOriginA, capsuleOriginB, capsuleRadius);
    if r.Hits? {
      assert rayDirection != Zero;
      RaycastCorrectedOfTable(sqrt, rayOrigin, rayDirection, capsuleOriginA, capsuleOriginB, capsuleRadius);
      var list := CorrectedTableOf(sqrt, rayOrigin, rayDirection, capsuleOriginA, capsuleOriginB, capsuleRadius).list;
      forall i | 0 <= i < |r.hits|
        ensures CylinderEquation(r.hits[i].hitPoint, capsuleOriginA, capsuleOriginB, Sphere.Abs(capsuleRadius)) == 0.0
      {
        assert list[i] in list;
        CorrectedCrossingOnCylinder(sqrt, rayOrigin, rayDirection, capsuleOriginA, capsuleOriginB, capsuleRadius, list[i]);
      }
    }
  }

  /** Every crossing of the corrected case table is a point of the ray on the infinite cylinder. */
  lemma CorrectedCrossingOnCylinder(sqrt: real -> real, ro: Vec3, d: Vec3, pa: Vec3, pb: Vec3, capsuleRadius: real, x: Crossing)
    requires IsSqrt(sqrt) && d != Zero
    requires var table := CorrectedTableOf(sqrt, ro, d, pa, pb, capsuleRadius);
      table.Crossed? && x in table.list
    ensures CylinderEquation(PointAt(Ray(ro, Normalize(sqrt, d)), x.t), pa, pb, Sphere.Abs(capsuleRadius)) == 0.0
  {
    var rd, ba, oa := Normalize(sqrt, d), Sub(pb, pa), Sub(ro, pa);
    var radius := Sphere.Abs(capsuleRadius);
    var a, b, c := QuadA(rd, ba), QuadB(rd, ba, oa), CylinderEquation(ro, pa, pb, radius);
    CaseTableCorrectedSound(sqrt, a, b, c);
    assert ReducedRoot(a, b, c, x.t);
    RootOnCylinder(ro, rd, pa, pb, radius, x.t);
  }

  /**
   * For a ray not parallel to the axis, every point at t >= 0 where it meets
   * the infinite cylinder is a hit of the corrected raycast.
   */
  lemma RaycastCorrectedFindsEveryForwardCrossing(sqrt: real -> real, rayOrigin: Vec3, rayDirection: Vec3, capsuleOriginA: Vec3, capsuleOriginB: Vec3, capsuleRadius: real, t: real)
    requires IsSqrt(sqrt) && rayDirection != Zero
    requires Perpendicular(Sub(capsuleOriginB, capsuleOriginA), Normalize(sqrt, rayDirection)) != Zero
    requires 0.0 <= t
    requires CylinderEquation(PointAt(Ray(rayOrigin, Normalize(sqrt, rayDirection)), t), capsuleOriginA, capsuleOriginB, Sphere.Abs(capsuleRadius)) == 0.0
    ensures var r := RaycastCorrected(sqrt, rayOrigin, rayDirection, capsuleOriginA, capsuleOriginB, capsuleRadius);
      r.Hits? && HitAt(r.hits, t)
  {
    var rd, ba, oa := Normalize(sqrt, rayDirection), Sub(capsuleOriginB, capsuleOriginA), Sub(rayOrigin, capsuleOriginA);
    var radius := Sphere.Abs(capsuleRadius);
    var a, b, c := QuadA(rd, ba), QuadB(rd, ba, oa), CylinderEquation(rayOrigin, capsuleOriginA, capsuleOriginB, radius);
    RootOnCylinder(rayOrigin, rd, capsuleOriginA, capsuleOriginB, radius, t);
    NonParallel(rd, ba);
    CaseTableCorrectedComplete(sqrt, a, b, c, t);
    RaycastCorrectedOfTable(sqrt, rayOrigin, rayDirection, capsuleOriginA, capsuleOriginB, capsuleRadius);
    var list := CaseTableCorrected(sqrt, a, b, c).list;
    var i :| 0 <= i < |list| && list[i].t == t;
    assert RaycastCorrected(sqrt, rayOrigin, rayDirection, capsuleOriginA, capsuleOriginB, capsuleRadius).hits[i].distanceAlongRay == t;
  }
}
