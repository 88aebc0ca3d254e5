/**
 * The sphere primitive: its signed distance and its raycast. The raycast
 * solves the ray/sphere quadratic t^2 + b t + c = 0 along the normalized ray
 * and turns the sign of the discriminant and the signs of the roots into 0, 1
 * or 2 typed hits.
 */
module Sphere {
  import opened Quadratics
  import opened Vectors
  import opened Raycasting

  function Abs(x: real): real {
    if x < 0.0 then -x else x
  }

  lemma AbsSquare(x: real)
    ensures Abs(x) * Abs(x) == x * x
  {
    if x < 0.0 {
      assert Abs(x) == -x;
    }
  }

  /**
   * The implicit sphere equation |p - so|^2 - r^2: negative strictly inside,
   * zero on the surface, positive strictly outside.
   */
  function SurfaceEquation(p: Vec3, so: Vec3, r: real): real {
    Dot(Sub(p, so), Sub(p, so)) - r * r
  }

  /**
   * The signed distance |point - sphereOrigin| - sphereRadius. The radius is
   * used with its sign here, while Raycast uses its absolute value.
   */
  function Distance(sqrt: real -> real, point: Vec3, sphereOrigin: Vec3, sphereRadius: real): (d: real)
    requires IsSqrt(sqrt)
    ensures 0.0 <= d + sphereRadius
    ensures (d + sphereRadius) * (d + sphereRadius) == Dot(Sub(point, sphereOrigin), Sub(point, sphereOrigin))
    ensures 0.0 <= sphereRadius ==> (d < 0.0 <==> SurfaceEquation(point, sphereOrigin, sphereRadius) < 0.0)
    ensures 0.0 <= sphereRadius ==> (d == 0.0 <==> SurfaceEquation(point, sphereOrigin, sphereRadius) == 0.0)
    ensures 0.0 <= sphereRadius ==> (d > 0.0 <==> SurfaceEquation(point, sphereOrigin, sphereRadius) > 0.0)
    ensures sphereRadius < 0.0 ==> d > 0.0
  {
    var l := Length(sqrt, Sub(point, sphereOrigin));
    SignOfDifference(l, sphereRadius);
    l - sphereRadius
  }

  /** For l, r >= 0, l - r has the sign of l^2 - r^2. */
  lemma SignOfDifference(l: real, r: real)
    requires 0.0 <= l
    ensures 0.0 <= r ==> (l < r <==> l * l < r * r)
    ensures 0.0 <= r ==> (l == r <==> l * l == r * r)
  {
    if 0.0 <= r {
      if l < r {
        SquareStrictlyMonotonic(l, r);
      } else if r < l {
        SquareStrictlyMonotonic(r, l);
      }
    }
  }

  /**
   * The case table of the sphere raycast for t^2 + b t + c = 0 (the source's
   * a = rd.rd is 1 because rd is normalized, so 2a is 2): the sign of the discriminant,
   * then the signs of the two roots, choose the crossings that become hits.
   * No branch matches when a root is exactly 0 and the discriminant is
   * positive; the source then throws.
   */
  function CaseTable(sqrt: real -> real, b: real, c: real): Crossings
    requires IsSqrt(sqrt)
  {
    var del := b * b - 4.0 * c;
    if del < 0.0 then
      Crossed([])
    else if del > 0.0 then
      var delRoot := sqrt(del);
      var t0 := (-b - delRoot) / 2.0;
      var t1 := (-b + delRoot) / 2.0;
      if t0 > 0.0 && t1 > 0.0 then
        Crossed([Crossing(Enter, t0), Crossing(Exit, t1)])
      else if (t0 < 0.0 && t1 > 0.0) || (t0 > 0.0 && t1 < 0.0) then
        Crossed([Crossing(Exit, if t0 > t1 then t0 else t1)])
      else if t0 < 0.0 && t1 < 0.0 then
        Crossed([])
      else
        Failed(ImpossibleDiscriminant)
    else
      var t := -b / 2.0;
      if t < 0.0 then
        Crossed([])
      else
        Crossed([Crossing(Tangent, t)])
  }

  /** One hit of the sphere raycast, with the unit normal pointing away from the centre. */
  function Hit(sqrt: real -> real, kind: SurfaceHitType, ro: Vec3, rd: Vec3, t: real, so: Vec3): RayHitResult
    requires IsSqrt(sqrt)
  {
    var hitPoint := Add(ro, Scale(rd, t));
    RayHitResult(kind, Ray(ro, rd), t, hitPoint, Normalize(sqrt, Sub(hitPoint, so)))
  }

  /** The hits built from the crossings, in the same order. */
  function Hits(sqrt: real -> real, ro: Vec3, rd: Vec3, so: Vec3, list: seq<Crossing>): (hs: seq<RayHitResult>)
    requires IsSqrt(sqrt)
    ensures |hs| == |list|
    ensures forall i :: 0 <= i < |list| ==> hs[i] == Hit(sqrt, list[i].kind, ro, rd, list[i].t, so)
  {
    if list == [] then []
    else [Hit(sqrt, list[0].kind, ro, rd, list[0].t, so)] + Hits(sqrt, ro, rd, so, list[1..])
  }

  /**
   * Raycast of a sphere: the returned count equals the hit array's length,
   * every hit lies on the ray with the normalized direction at a non-negative
   * distance and carries the outward unit normal, and two hits come as Enter
   * then Exit in ascending distance.
   */
  function Raycast(sqrt: real -> real, rayOrigin: Vec3, rayDirection: Vec3, sphereOrigin: Vec3, sphereRadius: real): (r: RaycastOutcome)
    requires IsSqrt(sqrt)
    ensures r.Hits? ==> r.count == |r.hits| <= 2
    ensures r.Hits? ==> forall h <- r.hits ::
      && OnRay(h)
      && h.ray == Ray(rayOrigin, Normalize(sqrt, rayDirection))
      && h.surfaceNormal == Normalize(sqrt, Sub(h.hitPoint, sphereOrigin))
    ensures r.Hits? && r.count == 2 ==>
      && r.hits[0].hitType == Enter && r.hits[1].hitType == Exit
      && r.hits[0].distanceAlongRay < r.hits[1].distanceAlongRay
  {
    if rayDirection == Zero then
      // Normalizing the zero vector gives NaN components in the source, every
      // comparison on the discriminant is then false, and it throws.
      Fault(ImpossibleDiscriminant)
    else
      var ro := rayOrigin;
      var rd := Normalize(sqrt, rayDirection);
      var so := sphereOrigin;
      var sr := Abs(sphereRadius);
      var rs := Sub(ro, so);
      // a = rd.rd is 1, rd being normalized: the table works on t^2 + b t + c.
      var b := 2.0 * Dot(rd, rs);
      var c := Dot(rs, rs) - sr * sr;
      CaseTableShape(sqrt, b, c);
      match CaseTable(sqrt, b, c)
      case Failed(f) => Fault(f)
      case Crossed(list) => RaycastOutcome.Hits(|list|, Hits(sqrt, ro, rd, so, list))
  }

  /** The crossings of the case table are at most two, forward, and two come as Enter then Exit. */
  lemma CaseTableShape(sqrt: real -> real, b: real, c: real)
    requires IsSqrt(sqrt)
    ensures var r := CaseTable(sqrt, b, c);
      r.Crossed? ==>
        && |r.list| <= 2
        && (forall x <- r.list :: 0.0 <= x.t)
        && (|r.list| == 2 ==> r.list[0].kind == Enter && r.list[1].kind == Exit && r.list[0].t < r.list[1].t)
  {
    var del := b * b - 4.0 * c;
    if del > 0.0 {
      SqrtFacts(sqrt, del);
    }
  }

  /** t is a root of the monic quadratic t^2 + b t + c. */
  predicate MonicRoot(b: real, c: real, t: real) {
    t * t + b * t + c == 0.0
  }

  /** Every crossing of the case table is a root of t^2 + b t + c. */
  lemma CaseTableSound(sqrt: real -> real, b: real, c: real)
    requires IsSqrt(sqrt)
    ensures var r := CaseTable(sqrt, b, c);
      r.Crossed? ==> forall x <- r.list :: MonicRoot(b, c, x.t)
  {
    CaseTableCorrectedAgrees(sqrt, b, c);
    CaseTableCorrectedSound(sqrt, b, c);
  }

  /** Every non-negative root of t^2 + b t + c is a crossing, unless the table fails. */
  lemma CaseTableComplete(sqrt: real -> real, b: real, c: real, t: real)
    requires IsSqrt(sqrt)
    requires CaseTable(sqrt, b, c).Crossed?
    requires 0.0 <= t && MonicRoot(b, c, t)
    ensures CrossesAt(CaseTable(sqrt, b, c).list, t)
  {
    CaseTableCorrectedAgrees(sqrt, b, c);
    CaseTableCorrectedComplete(sqrt, b, c, t);
  }

  /** The case table fails exactly when c = 0 and b != 0: a root is then 0 and the other is not. */
  lemma CaseTableFails(sqrt: real -> real, b: real, c: real)
    requires IsSqrt(sqrt)
    ensures CaseTable(sqrt, b, c).Failed? ==> c == 0.0 && b != 0.0
    ensures c == 0.0 && b != 0.0 ==> CaseTable(sqrt, b, c).Failed?
  {
    var del := b * b - 4.0 * c;
    if CaseTable(sqrt, b, c).Failed? {
      var s := sqrt(del);
      SqrtFacts(sqrt, del);
      MonicVieta(b, c, s);
      var t0, t1 := (-b - s) / 2.0, (-b + s) / 2.0;
      assert t0 == 0.0 || t1 == 0.0;
      assert c == t0 * t1;
    }
    if c == 0.0 && b != 0.0 {
      CaseTableFailsOnZeroRoot(sqrt, b);
    }
  }

  /** With c = 0 and b != 0 the roots are 0 and -b, and no branch of the table matches. */
  lemma CaseTableFailsOnZeroRoot(sqrt: real -> real, b: real)
    requires IsSqrt(sqrt) && b != 0.0
    ensures CaseTable(sqrt, b, 0.0).Failed?
  {
    var del := b * b - 4.0 * 0.0;
    SquarePositive(b);
    assert del == b * b;
    AbsSquare(b);
    SqrtOfSquare(sqrt, del, Abs(b));
    var t0, t1 := (-b - Abs(b)) / 2.0, (-b + Abs(b)) / 2.0;
    if 0.0 < b {
      assert Abs(b) == b;
      assert t0 < 0.0 && t1 == 0.0;
    } else {
      assert Abs(b) == -b;
      assert t0 == 0.0 && 0.0 < t1;
    }
  }

  /** A single Exit crossing happens exactly when c < 0, the roots having opposite signs. */
  lemma CaseTableExitOnly(sqrt: real -> real, b: real, c: real)
    requires IsSqrt(sqrt)
    ensures var r := CaseTable(sqrt, b, c);
      r.Crossed? && |r.list| == 1 && r.list[0].kind == Exit ==> c < 0.0
    ensures var r := CaseTable(sqrt, b, c);
      c < 0.0 ==> r.Crossed? && |r.list| == 1 && r.list[0].kind == Exit
  {
    var r := CaseTable(sqrt, b, c);
    var del := b * b - 4.0 * c;
    SquareNonNegative(b);
    if del > 0.0 {
      var s := sqrt(del);
      SqrtFacts(sqrt, del);
      MonicVieta(b, c, s);
      RootSigns((-b - s) / 2.0, (-b + s) / 2.0, b, c);
    }
  }

  /** The coefficients of a quadratic whose two roots are both positive. */
  predicate TwoCrossingCase(b: real, c: real) {
    0.0 < c && b < 0.0 && 0.0 < b * b - 4.0 * c
  }

  /** Two crossings happen exactly when c > 0, b < 0 and the discriminant is positive. */
  lemma CaseTableTwo(sqrt: real -> real, b: real, c: real)
    requires IsSqrt(sqrt)
    ensures var r := CaseTable(sqrt, b, c);
      r.Crossed? && |r.list| == 2 ==> TwoCrossingCase(b, c)
    ensures var r := CaseTable(sqrt, b, c);
      TwoCrossingCase(b, c) ==> r.Crossed? && |r.list| == 2
  {
    var del := b * b - 4.0 * c;
    if del > 0.0 {
      var s := sqrt(del);
      SqrtFacts(sqrt, del);
      MonicVieta(b, c, s);
      RootSigns((-b - s) / 2.0, (-b + s) / 2.0, b, c);
    }
  }

  /** t^2 + b t + c is not negative at t. */
  predicate MonicNonNegative(b: real, c: real, t: real) {
    0.0 <= t * t + b * t + c
  }

  /** A Tangent crossing means a zero discriminant: t^2 + b t + c never drops below 0. */
  lemma CaseTableTangent(sqrt: real -> real, b: real, c: real, t: real)
    requires IsSqrt(sqrt)
    requires CaseTable(sqrt, b, c).Crossed?
    requires exists x <- CaseTable(sqrt, b, c).list :: x.kind == Tangent
    ensures MonicNonNegative(b, c, t)
  {
    var del := b * b - 4.0 * c;
    if del > 0.0 {
      SqrtFacts(sqrt, del);
    }
    assert del == 0.0;
    MonicCompletedSquare(b, c, t);
    SquareNonNegative(t + b / 2.0);
  }

  /** The b coefficient of the ray quadratic: twice the projection of ro - so on the normalized direction. */
  function RayB(sqrt: real -> real, ro: Vec3, d: Vec3, so: Vec3): real
    requires IsSqrt(sqrt)
  {
    2.0 * Dot(Normalize(sqrt, d), Sub(ro, so))
  }

  /** The case table that Raycast consults for a non-zero direction. */
  function TableOf(sqrt: real -> real, ro: Vec3, d: Vec3, so: Vec3, sphereRadius: real): Crossings
    requires IsSqrt(sqrt)
  {
    CaseTable(sqrt, RayB(sqrt, ro, d, so), SurfaceEquation(ro, so, Abs(sphereRadius)))
  }

  /** For a non-zero direction, Raycast reports exactly the crossings of its case table. */
  lemma RaycastFollowsTable(sqrt: real -> real, ro: Vec3, d: Vec3, so: Vec3, sphereRadius: real)
    requires IsSqrt(sqrt) && d != Zero
    ensures var r := Raycast(sqrt, ro, d, so, sphereRadius);
      var table := TableOf(sqrt, ro, d, so, sphereRadius);
      && (r.Fault? <==> table.Failed?)
      && (r.Hits? ==>
            && |r.hits| == |table.list|
            && forall i :: 0 <= i < |r.hits| ==>
                 r.hits[i].distanceAlongRay == table.list[i].t && r.hits[i].hitType == table.list[i].kind)
  {
    assert Dot(Normalize(sqrt, d), Normalize(sqrt, d)) == 1.0;
  }

  /**
   * For a non-zero direction whose ray quadratic has coefficients b and c,
   * Raycast is read off the case table at b and c.
   */
  lemma RaycastOfTable(sqrt: real -> real, ro: Vec3, d: Vec3, so: Vec3, sphereRadius: real, b: real, c: real)
    requires IsSqrt(sqrt) && d != Zero
    requires RayB(sqrt, ro, d, so) == b && SurfaceEquation(ro, so, Abs(sphereRadius)) == c
    ensures var table := CaseTable(sqrt, b, c);
      Raycast(sqrt, ro, d, so, sphereRadius)
        == if table.Failed? then Fault(table.fault)
           else RaycastOutcome.Hits(|table.list|, Hits(sqrt, ro, Normalize(sqrt, d), so, table.list))
  {
    assert Dot(Normalize(sqrt, d), Normalize(sqrt, d)) == 1.0;
  }

  /**
   * Along the ray with the normalized direction, the sphere equation is the
   * quadratic t^2 + b t + c of the case table, c being the sphere equation at
   * the ray origin.
   */
  lemma SurfaceAlongRay(sqrt: real -> real, ro: Vec3, d: Vec3, so: Vec3, sr: real, t: real)
    requires IsSqrt(sqrt) && d != Zero
    ensures SurfaceEquation(PointAt(Ray(ro, Normalize(sqrt, d)), t), so, sr)
         == t * t + RayB(sqrt, ro, d, so) * t + SurfaceEquation(ro, so, sr)
  {
    var rd := Normalize(sqrt, d);
    var rs := Sub(ro, so);
    assert Sub(PointAt(Ray(ro, rd), t), so) == Add(rs, Scale(rd, t));
    DotAlongLine(rs, rd, t);
    assert Dot(rd, rd) == 1.0;
  }

  /** Every hit the raycast reports lies on the sphere of radius |sphereRadius|. */
  lemma RaycastHitsLieOnSurface(sqrt: real -> real, rayOrigin: Vec3, rayDirection: Vec3, sphereOrigin: Vec3, sphereRadius: real)
    requires IsSqrt(sqrt)
    ensures var r := Raycast(sqrt, rayOrigin, rayDirection, sphereOrigin, sphereRadius);
      r.Hits? ==> forall h <- r.hits :: Distance(sqrt, h.hitPoint, sphereOrigin, Abs(sphereRadius)) == 0.0
  {
    if Raycast(sqrt, rayOrigin, rayDirection, sphereOrigin, sphereRadius).Hits? {
      RaycastCorrectedAgrees(sqrt, rayOrigin, rayDirection, sphereOrigin, sphereRadius);
      RaycastCorrectedHitsLieOnSurface(sqrt, rayOrigin, rayDirection, sphereOrigin, sphereRadius);
    }
  }

  /**
   * Every point where the ray (with t >= 0) meets the sphere is reported as a
   * hit, unless the raycast faults.
   */
  lemma RaycastFindsEveryForwardCrossing(sqrt: real -> real, rayOrigin: Vec3, rayDirection: Vec3, sphereOrigin: Vec3, sphereRadius: real, t: real)
    requires IsSqrt(sqrt)
    requires Raycast(sqrt, rayOrigin, rayDirection, sphereOrigin, sphereRadius).Hits?
    requires 0.0 <= t
    requires Distance(sqrt, PointAt(Ray(rayOrigin, Normalize(sqrt, rayDirection)), t), sphereOrigin, Abs(sphereRadius)) == 0.0
    ensures HitAt(Raycast(sqrt, rayOrigin, rayDirection, sphereOrigin, sphereRadius).hits, t)
  {
    RaycastCorrectedAgrees(sqrt, rayOrigin, rayDirection, sphereOrigin, sphereRadius);
    RaycastCorrectedFindsEveryForwardCrossing(sqrt, rayOrigin, rayDirection, sphereOrigin, sphereRadius, t);
  }

  /** Normalizing a non-zero direction keeps the sign of its dot product with any vector. */
  lemma DirectionSign(sqrt: real -> real, d: Vec3, v: Vec3)
    requires IsSqrt(sqrt) && d != Zero
    ensures Dot(Normalize(sqrt, d), v) < 0.0 <==> Dot(d, v) < 0.0
    ensures Dot(Normalize(sqrt, d), v) == 0.0 <==> Dot(d, v) == 0.0
  {
    var k := 1.0 / Length(sqrt, d);
    NormalizeScales(sqrt, d);
    DotScale(d, v, k);
    ProductSign(k, Dot(d, v));
    if Dot(d, v) == 0.0 {
      assert k * Dot(d, v) == 0.0;
    }
  }

  /** The ray reports a single Exit hit exactly when its origin lies strictly inside the sphere. */
  lemma RaycastExitOnlyIffInside(sqrt: real -> real, rayOrigin: Vec3, rayDirection: Vec3, sphereOrigin: Vec3, sphereRadius: real)
    requires IsSqrt(sqrt) && rayDirection != Zero
    ensures var r := Raycast(sqrt, rayOrigin, rayDirection, sphereOrigin, sphereRadius);
      Distance(sqrt, rayOrigin, sphereOrigin, Abs(sphereRadius)) < 0.0 ==>
        r.Hits? && r.count == 1 && r.hits[0].hitType == Exit
    ensures var r := Raycast(sqrt, rayOrigin, rayDirection, sphereOrigin, sphereRadius);
      r.Hits? && r.count == 1 && r.hits[0].hitType == Exit ==>
        Distance(sqrt, rayOrigin, sphereOrigin, Abs(sphereRadius)) < 0.0
  {
    RaycastFollowsTable(sqrt, rayOrigin, rayDirection, sphereOrigin, sphereRadius);
    CaseTableExitOnly(sqrt, RayB(sqrt, rayOrigin, rayDirection, sphereOrigin), SurfaceEquation(rayOrigin, sphereOrigin, Abs(sphereRadius)));
  }

  /**
   * The ray reports an Enter and an Exit hit exactly when its origin lies
   * strictly outside the sphere, it points towards the centre, and the point
   * of its line closest to the centre lies strictly inside.
   */
  lemma RaycastTwoHitsIff(sqrt: real -> real, rayOrigin: Vec3, rayDirection: Vec3, sphereOrigin: Vec3, sphereRadius: real)
    requires IsSqrt(sqrt) && rayDirection != Zero
    ensures var r := Raycast(sqrt, rayOrigin, rayDirection, sphereOrigin, sphereRadius);
      var rd := Normalize(sqrt, rayDirection);
      var closest := PointAt(Ray(rayOrigin, rd), Dot(rd, Sub(sphereOrigin, rayOrigin)));
      (r.Hits? && r.count == 2 <==>
        && 0.0 < Distance(sqrt, rayOrigin, sphereOrigin, Abs(sphereRadius))
        && 0.0 < Dot(rayDirection, Sub(sphereOrigin, rayOrigin))
        && Distance(sqrt, closest, sphereOrigin, Abs(sphereRadius)) < 0.0)
  {
    TwoHitsTable(sqrt, rayOrigin, rayDirection, sphereOrigin, sphereRadius);
    TwoHitsGeometry(sqrt, rayOrigin, rayDirection, sphereOrigin, Abs(sphereRadius));
  }

  lemma TwoHitsTable(sqrt: real -> real, rayOrigin: Vec3, rayDirection: Vec3, sphereOrigin: Vec3, sphereRadius: real)
    requires IsSqrt(sqrt) && rayDirection != Zero
    ensures var r := Raycast(sqrt, rayOrigin, rayDirection, sphereOrigin, sphereRadius);
      var b := RayB(sqrt, rayOrigin, rayDirection, sphereOrigin);
      var c := SurfaceEquation(rayOrigin, sphereOrigin, Abs(sphereRadius));
      r.Hits? && r.count == 2 ==> TwoCrossingCase(b, c)
    ensures var r := Raycast(sqrt, rayOrigin, rayDirection, sphereOrigin, sphereRadius);
      var b := RayB(sqrt, rayOrigin, rayDirection, sphereOrigin);
      var c := SurfaceEquation(rayOrigin, sphereOrigin, Abs(sphereRadius));
      TwoCrossingCase(b, c) ==> r.Hits? && r.count == 2
  {
    var r := Raycast(sqrt, rayOrigin, rayDirection, sphereOrigin, sphereRadius);
    var table := TableOf(sqrt, rayOrigin, rayDirection, sphereOrigin, sphereRadius);
    var b := RayB(sqrt, rayOrigin, rayDirection, sphereOrigin);
    var c := SurfaceEquation(rayOrigin, sphereOrigin, Abs(sphereRadius));
    RaycastFollowsTable(sqrt, rayOrigin, rayDirection, sphereOrigin, sphereRadius);
    CaseTableTwo(sqrt, b, c);
    assert table == CaseTable(sqrt, b, c);
  }

  lemma TwoHitsGeometry(sqrt: real -> real, ro: Vec3, d: Vec3, so: Vec3, sr: real)
    requires IsSqrt(sqrt) && d != Zero && 0.0 <= sr
    ensures var rd := Normalize(sqrt, d);
      var closest := PointAt(Ray(ro, rd), Dot(rd, Sub(so, ro)));
      var b := RayB(sqrt, ro, d, so);
      var c := SurfaceEquation(ro, so, sr);
      (TwoCrossingCase(b, c) <==>
        && 0.0 < Distance(sqrt, ro, so, sr)
        && 0.0 < Dot(d, Sub(so, ro))
        && Distance(sqrt, closest, so, sr) < 0.0)
  {
    ClosestInside(sqrt, ro, d, so, sr);
    FacingCentre(sqrt, ro, d, so);
  }

  /** b < 0 exactly when the ray direction points towards the centre. */
  lemma FacingCentre(sqrt: real -> real, ro: Vec3, d: Vec3, so: Vec3)
    requires IsSqrt(sqrt) && d != Zero
    ensures RayB(sqrt, ro, d, so) < 0.0 <==> 0.0 < Dot(d, Sub(so, ro))
  {
    DotOpposite(Normalize(sqrt, d), ro, so);
    DirectionSign(sqrt, d, Sub(so, ro));
  }

  lemma DotOpposite(w: Vec3, p: Vec3, q: Vec3)
    ensures Dot(w, Sub(q, p)) == -Dot(w, Sub(p, q))
  {
  }

  /**
   * At the point of the line closest to the centre the sphere equation is
   * -(b^2 - 4c) / 4: it is inside exactly when the discriminant is positive.
   */
  lemma ClosestPoint(sqrt: real -> real, ro: Vec3, d: Vec3, so: Vec3, sr: real)
    requires IsSqrt(sqrt) && d != Zero
    ensures var rd := Normalize(sqrt, d);
      var b := RayB(sqrt, ro, d, so);
      SurfaceEquation(PointAt(Ray(ro, rd), Dot(rd, Sub(so, ro))), so, sr)
        == -(b * b - 4.0 * SurfaceEquation(ro, so, sr)) / 4.0
  {
    var rd := Normalize(sqrt, d);
    var b := RayB(sqrt, ro, d, so);
    var c := SurfaceEquation(ro, so, sr);
    var tc := Dot(rd, Sub(so, ro));
    assert tc == -b / 2.0;
    SurfaceAlongRay(sqrt, ro, d, so, sr, tc);
    MonicCompletedSquare(b, c, tc);
  }

  /** The discriminant is positive exactly when the point of the line closest to the centre is strictly inside. */
  lemma ClosestInside(sqrt: real -> real, ro: Vec3, d: Vec3, so: Vec3, sr: real)
    requires IsSqrt(sqrt) && d != Zero && 0.0 <= sr
    ensures var rd := Normalize(sqrt, d);
      var b := RayB(sqrt, ro, d, so);
      var closest := PointAt(Ray(ro, rd), Dot(rd, Sub(so, ro)));
      0.0 < b * b - 4.0 * SurfaceEquation(ro, so, sr) <==> Distance(sqrt, closest, so, sr) < 0.0
  {
    ClosestPoint(sqrt, ro, d, so, sr);
  }

  /**
   * A Tangent hit means the ray's line only grazes the sphere: no point of the
   * line lies strictly inside it.
   */
  lemma RaycastTangentGrazes(sqrt: real -> real, rayOrigin: Vec3, rayDirection: Vec3, sphereOrigin: Vec3, sphereRadius: real, t: real)
    requires IsSqrt(sqrt)
    requires var r := Raycast(sqrt, rayOrigin, rayDirection, sphereOrigin, sphereRadius);
      r.Hits? && exists h <- r.hits :: h.hitType == Tangent
    ensures 0.0 <= Distance(sqrt, PointAt(Ray(rayOrigin, Normalize(sqrt, rayDirection)), t), sphereOrigin, Abs(sphereRadius))
  {
    var r := Raycast(sqrt, rayOrigin, rayDirection, sphereOrigin, sphereRadius);
    var table := TableOf(sqrt, rayOrigin, rayDirection, sphereOrigin, sphereRadius);
    var h :| h in r.hits && h.hitType == Tangent;
    var i :| 0 <= i < |r.hits| && r.hits[i] == h;
    RaycastFollowsTable(sqrt, rayOrigin, rayDirection, sphereOrigin, sphereRadius);
    assert table.list[i] in table.list;
    CaseTableTangent(sqrt, RayB(sqrt, rayOrigin, rayDirection, sphereOrigin), SurfaceEquation(rayOrigin, sphereOrigin, Abs(sphereRadius)), t);
    NotInsideAlongRay(sqrt, rayOrigin, rayDirection, sphereOrigin, Abs(sphereRadius), t);
  }

  /** Where the ray quadratic is not negative, the point of the ray is not inside the sphere. */
  lemma NotInsideAlongRay(sqrt: real -> real, ro: Vec3, d: Vec3, so: Vec3, sr: real, t: real)
    requires IsSqrt(sqrt) && d != Zero && 0.0 <= sr
    requires MonicNonNegative(RayB(sqrt, ro, d, so), SurfaceEquation(ro, so, sr), t)
    ensures 0.0 <= Distance(sqrt, PointAt(Ray(ro, Normalize(sqrt, d)), t), so, sr)
  {
    SurfaceAlongRay(sqrt, ro, d, so, sr, t);
  }

  /**
   * The raycast throws exactly when the direction is zero, or when the ray
   * origin lies on the sphere and the ray is not tangent to it there.
   */
  lemma RaycastFaultsIff(sqrt: real -> real, rayOrigin: Vec3, rayDirection: Vec3, sphereOrigin: Vec3, sphereRadius: real)
    requires IsSqrt(sqrt)
    ensures Raycast(sqrt, rayOrigin, rayDirection, sphereOrigin, sphereRadius).Fault? ==>
      || rayDirection == Zero
      || (Distance(sqrt, rayOrigin, sphereOrigin, Abs(sphereRadius)) == 0.0 && Dot(rayDirection, Sub(rayOrigin, sphereOrigin)) != 0.0)
    ensures
      || rayDirection == Zero
      || (Distance(sqrt, rayOrigin, sphereOrigin, Abs(sphereRadius)) == 0.0 && Dot(rayDirection, Sub(rayOrigin, sphereOrigin)) != 0.0)
      ==> Raycast(sqrt, rayOrigin, rayDirection, sphereOrigin, sphereRadius).Fault?
  {
    if rayDirection != Zero {
      RaycastFollowsTable(sqrt, rayOrigin, rayDirection, sphereOrigin, sphereRadius);
      CaseTableFails(sqrt, RayB(sqrt, rayOrigin, rayDirection, sphereOrigin), SurfaceEquation(rayOrigin, sphereOrigin, Abs(sphereRadius)));
      DirectionSign(sqrt, rayDirection, Sub(rayOrigin, sphereOrigin));
    }
  }

  /**
   * The case table with a root of exactly 0 counted as a crossing, as the
   * tangent branch already does: a ray starting on the sphere reports the
   * point it starts from.
   */
  function CaseTableCorrected(sqrt: real -> real, b: real, c: real): Crossings
    requires IsSqrt(sqrt)
  {
    var del := b * b - 4.0 * c;
    if del < 0.0 then
      Crossed([])
    else if del > 0.0 then
      var delRoot := sqrt(del);
      var t0 := (-b - delRoot) / 2.0;
      var t1 := (-b + delRoot) / 2.0;
      if t0 >= 0.0 && t1 >= 0.0 then
        Crossed([Crossing(Enter, t0), Crossing(Exit, t1)])
      else if (t0 < 0.0 && t1 >= 0.0) || (t0 >= 0.0 && t1 < 0.0) then
        Crossed([Crossing(Exit, if t0 > t1 then t0 else t1)])
      else
        Crossed([])
    else
      var t := -b / 2.0;
      if t < 0.0 then
        Crossed([])
      else
        Crossed([Crossing(Tangent, t)])
  }

  /** The corrected table never fails, and its crossings have the shape Raycast promises. */
  lemma CaseTableCorrectedShape(sqrt: real -> real, b: real, c: real)
    requires IsSqrt(sqrt)
    ensures var r := CaseTableCorrected(sqrt, b, c);
      && r.Crossed?
      && |r.list| <= 2
      && (forall x <- r.list :: 0.0 <= x.t)
      && (|r.list| == 2 ==> r.list[0].kind == Enter && r.list[1].kind == Exit && r.list[0].t < r.list[1].t)
  {
    var del := b * b - 4.0 * c;
    if del > 0.0 {
      SqrtFacts(sqrt, del);
    }
  }

  /** Wherever the table as written does not fail, the corrected table agrees with it. */
  lemma CaseTableCorrectedAgrees(sqrt: real -> real, b: real, c: real)
    requires IsSqrt(sqrt)
    ensures CaseTable(sqrt, b, c).Crossed? ==> CaseTableCorrected(sqrt, b, c) == CaseTable(sqrt, b, c)
  {
  }

  /** Every crossing of the corrected table is a root of t^2 + b t + c. */
  lemma CaseTableCorrectedSound(sqrt: real -> real, b: real, c: real)
    requires IsSqrt(sqrt)
    ensures forall x <- CaseTableCorrected(sqrt, b, c).list :: MonicRoot(b, c, x.t)
  {
    var del := b * b - 4.0 * c;
    if del > 0.0 {
      var s := sqrt(del);
      SqrtFacts(sqrt, del);
      MonicFactor(b, c, s, (-b - s) / 2.0);
      MonicFactor(b, c, s, (-b + s) / 2.0);
    } else if del == 0.0 {
      MonicCompletedSquare(b, c, -b / 2.0);
    }
  }

  /** Every non-negative root of t^2 + b t + c is a crossing of the corrected table. */
  lemma CaseTableCorrectedComplete(sqrt: real -> real, b: real, c: real, t: real)
    requires IsSqrt(sqrt)
    requires 0.0 <= t && MonicRoot(b, c, t)
    ensures CrossesAt(CaseTableCorrected(sqrt, b, c).list, t)
  {
    var list := CaseTableCorrected(sqrt, b, c).list;
    var del := b * b - 4.0 * c;
    MonicCompletedSquare(b, c, t);
    SquareNonNegative(t + b / 2.0);
    if del > 0.0 {
      var s := sqrt(del);
      SqrtFacts(sqrt, del);
      var t0, t1 := (-b - s) / 2.0, (-b + s) / 2.0;
      MonicFactor(b, c, s, t);
      ProductZero(t - t0, t - t1);
      assert t == t0 || t == t1;
      if t0 >= 0.0 && t1 >= 0.0 {
        assert list[0].t == t0 && list[1].t == t1;
      } else {
        assert list[0].t == t;
      }
    } else {
      assert del == 0.0;
      SquareZero(t + b / 2.0);
      assert list[0].t == t;
    }
  }

  /**
   * The sphere raycast with the corrected case table: for a non-zero
   * direction it never throws, and otherwise keeps every promise of Raycast.
   */
  function RaycastCorrected(sqrt: real -> real, rayOrigin: Vec3, rayDirection: Vec3, sphereOrigin: Vec3, sphereRadius: real): (r: RaycastOutcome)
    requires IsSqrt(sqrt)
    ensures r.Fault? <==> rayDirection == Zero
    ensures r.Hits? ==> r.count == |r.hits| <= 2
    ensures r.Hits? ==> forall h <- r.hits ::
      && OnRay(h)
      && h.ray == Ray(rayOrigin, Normalize(sqrt, rayDirection))
      && h.surfaceNormal == Normalize(sqrt, Sub(h.hitPoint, sphereOrigin))
    ensures r.Hits? && r.count == 2 ==>
      && r.hits[0].hitType == Enter && r.hits[1].hitType == Exit
      && r.hits[0].distanceAlongRay < r.hits[1].distanceAlongRay
  {
    if rayDirection == Zero then
      Fault(ImpossibleDiscriminant)
    else
      var ro := rayOrigin;
      var rd := Normalize(sqrt, rayDirection);
      var so := sphereOrigin;
      var sr := Abs(sphereRadius);
      var rs := Sub(ro, so);
      // a = rd.rd is 1, rd being normalized: the table works on t^2 + b t + c.
      var b := 2.0 * Dot(rd, rs);
      var c := Dot(rs, rs) - sr * sr;
      CaseTableCorrectedShape(sqrt, b, c);
      match CaseTableCorrected(sqrt, b, c)
      case Failed(f) => Fault(f)
      case Crossed(list) => RaycastOutcome.Hits(|list|, Hits(sqrt, ro, rd, so, list))
  }

  /** For a non-zero direction, RaycastCorrected reports exactly the crossings of the corrected table. */
  lemma RaycastCorrectedFollowsTable(sqrt: real -> real, ro: Vec3, d: Vec3, so: Vec3, sphereRadius: real)
    requires IsSqrt(sqrt) && d != Zero
    ensures var r := RaycastCorrected(sqrt, ro, d, so, sphereRadius);
      var list := CaseTableCorrected(sqrt, RayB(sqrt, ro, d, so), SurfaceEquation(ro, so, Abs(sphereRadius))).list;
      && |r.hits| == |list|
      && forall i :: 0 <= i < |r.hits| ==>
           r.hits[i].distanceAlongRay == list[i].t && r.hits[i].hitType == list[i].kind
  {
    assert Dot(Normalize(sqrt, d), Normalize(sqrt, d)) == 1.0;
  }

  /** RaycastOfTable for RaycastCorrected and the corrected case table. */
  lemma RaycastCorrectedOfTable(sqrt: real -> real, ro: Vec3, d: Vec3, so: Vec3, sphereRadius: real, b: real, c: real)
    requires IsSqrt(sqrt) && d != Zero
    requires RayB(sqrt, ro, d, so) == b && SurfaceEquation(ro, so, Abs(sphereRadius)) == c
    ensures var table := CaseTableCorrected(sqrt, b, c);
      RaycastCorrected(sqrt, ro, d, so, sphereRadius)
        == if table.Failed? then Fault(table.fault)
           else RaycastOutcome.Hits(|table.list|, Hits(sqrt, ro, Normalize(sqrt, d), so, table.list))
  {
    assert Dot(Normalize(sqrt, d), Normalize(sqrt, d)) == 1.0;
  }

  /** Wherever Raycast does not throw, RaycastCorrected returns the same hits. */
  lemma RaycastCorrectedAgrees(sqrt: real -> real, rayOrigin: Vec3, rayDirection: Vec3, sphereOrigin: Vec3, sphereRadius: real)
    requires IsSqrt(sqrt)
    ensures var r := Raycast(sqrt, rayOrigin, rayDirection, sphereOrigin, sphereRadius);
      r.Hits? ==> RaycastCorrected(sqrt, rayOrigin, rayDirection, sphereOrigin, sphereRadius) == r
  {
    if rayDirection != Zero {
      var rd := Normalize(sqrt, rayDirection);
      assert Dot(rd, rd) == 1.0;
      CaseTableCorrectedAgrees(sqrt, RayB(sqrt, rayOrigin, rayDirection, sphereOrigin), SurfaceEquation(rayOrigin, sphereOrigin, Abs(sphereRadius)));
    }
  }

  /** Every hit of the corrected raycast lies on the sphere of radius |sphereRadius|. */
  lemma RaycastCorrectedHitsLieOnSurface(sqrt: real -> real, rayOrigin: Vec3, rayDirection: Vec3, sphereOrigin: Vec3, sphereRadius: real)
    requires IsSqrt(sqrt)
    ensures var r := RaycastCorrected(sqrt, rayOrigin, rayDirection, sphereOrigin, sphereRadius);
      r.Hits? ==> forall h <- r.hits :: Distance(sqrt, h.hitPoint, sphereOrigin, Abs(sphereRadius)) == 0.0
  {
    var r := RaycastCorrected(sqrt, rayOrigin, rayDirection, sphereOrigin, sphereRadius);
    if r.Hits? {
      forall i | 0 <= i < |r.hits|
        ensures Distance(sqrt, r.hits[i].hitPoint, sphereOrigin, Abs(sphereRadius)) == 0.0
      {
        CorrectedHitOnSurface(sqrt, rayOrigin, rayDirection, sphereOrigin, sphereRadius, i);
      }
    }
  }

  lemma CorrectedHitOnSurface(sqrt: real -> real, rayOrigin: Vec3, rayDirection: Vec3, sphereOrigin: Vec3, sphereRadius: real, i: int)
    requires IsSqrt(sqrt)
    requires var r := RaycastCorrected(sqrt, rayOrigin, rayDirection, sphereOrigin, sphereRadius);
      r.Hits? && 0 <= i < |r.hits|
    ensures var r := RaycastCorrected(sqrt, rayOrigin, rayDirection, sphereOrigin, sphereRadius);
      SurfaceEquation(r.hits[i].hitPoint, sphereOrigin, Abs(sphereRadius)) == 0.0
  {
    var h := RaycastCorrected(sqrt, rayOrigin, rayDirection, sphereOrigin, sphereRadius).hits[i];
    assert h in RaycastCorrected(sqrt, rayOrigin, rayDirection, sphereOrigin, sphereRadius).hits;
    CorrectedHitIsRoot(sqrt, rayOrigin, rayDirection, sphereOrigin, sphereRadius, i);
    RootOnSurface(sqrt, rayOrigin, rayDirection, sphereOrigin, Abs(sphereRadius), h.distanceAlongRay);
  }

  lemma CorrectedHitIsRoot(sqrt: real -> real, rayOrigin: Vec3, rayDirection: Vec3, sphereOrigin: Vec3, sphereRadius: real, i: int)
    requires IsSqrt(sqrt)
    requires var r := RaycastCorrected(sqrt, rayOrigin, rayDirection, sphereOrigin, sphereRadius);
      r.Hits? && 0 <= i < |r.hits|
    ensures rayDirection != Zero
    ensures var r := RaycastCorrected(sqrt, rayOrigin, rayDirection, sphereOrigin, sphereRadius);
      MonicRoot(RayB(sqrt, rayOrigin, rayDirection, sphereOrigin),
                SurfaceEquation(rayOrigin, sphereOrigin, Abs(sphereRadius)), r.hits[i].distanceAlongRay)
  {
    var b := RayB(sqrt, rayOrigin, rayDirection, sphereOrigin);
    var c := SurfaceEquation(rayOrigin, sphereOrigin, Abs(sphereRadius));
    RaycastCorrectedFollowsTable(sqrt, rayOrigin, rayDirection, sphereOrigin, sphereRadius);
    CaseTableCorrectedSound(sqrt, b, c);
    var list := CaseTableCorrected(sqrt, b, c).list;
    assert list[i] in list;
  }

  /** A root of the ray quadratic is a point of the ray on the sphere. */
  lemma RootOnSurface(sqrt: real -> real, ro: Vec3, d: Vec3, so: Vec3, sr: real, t: real)
    requires IsSqrt(sqrt) && d != Zero
    requires MonicRoot(RayB(sqrt, ro, d, so), SurfaceEquation(ro, so, sr), t)
    ensures SurfaceEquation(PointAt(Ray(ro, Normalize(sqrt, d)), t), so, sr) == 0.0
  {
    SurfaceAlongRay(sqrt, ro, d, so, sr, t);
  }

  /** A point of the ray on the sphere is at a root of the ray quadratic. */
  lemma SurfacePointIsRoot(sqrt: real -> real, ro: Vec3, d: Vec3, so: Vec3, sr: real, t: real)
    requires IsSqrt(sqrt) && d != Zero && 0.0 <= sr
    requires Distance(sqrt, PointAt(Ray(ro, Normalize(sqrt, d)), t), so, sr) == 0.0
    ensures MonicRoot(RayB(sqrt, ro, d, so), SurfaceEquation(ro, so, sr), t)
  {
    SurfaceAlongRay(sqrt, ro, d, so, sr, t);
  }

  /** Every point where the ray (with t >= 0) meets the sphere is a hit of the corrected raycast. */
  lemma RaycastCorrectedFindsEveryForwardCrossing(sqrt: real -> real, rayOrigin: Vec3, rayDirection: Vec3, sphereOrigin: Vec3, sphereRadius: real, t: real)
    requires IsSqrt(sqrt) && rayDirection != Zero
    requires 0.0 <= t
    requires Distance(sqrt, PointAt(Ray(rayOrigin, Normalize(sqrt, rayDirection)), t), sphereOrigin, Abs(sphereRadius)) == 0.0
    ensures HitAt(RaycastCorrected(sqrt, rayOrigin, rayDirection, sphereOrigin, sphereRadius).hits, t)
  {
    var sr := Abs(sphereRadius);
    var b := RayB(sqrt, rayOrigin, rayDirection, sphereOrigin);
    var c := SurfaceEquation(rayOrigin, sphereOrigin, sr);
    SurfacePointIsRoot(sqrt, rayOrigin, rayDirection, sphereOrigin, sr, t);
    RaycastCorrectedFollowsTable(sqrt, rayOrigin, rayDirection, sphereOrigin, sphereRadius);
    CaseTableCorrectedComplete(sqrt, b, c, t);
    var list := CaseTableCorrected(sqrt, b, c).list;
    var i :| 0 <= i < |list| && list[i].t == t;
    assert RaycastCorrected(sqrt, rayOrigin, rayDirection, sphereOrigin, sphereRadius).hits[i].distanceAlongRay == t;
  }
}
