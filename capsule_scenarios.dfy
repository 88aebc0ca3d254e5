/**
 * The scenarios of the capsule unit tests, on the capsule of those tests:
 * the segment from (0, -10, 0) to (0, 10, 0) with radius 5, and rays along
 * the z axis or parallel to it.
 */
module CapsuleScenarios {
  import opened Quadratics
  import opened Vectors
  import opened Raycasting
  import opened Floats
  import opened Capsule

  const OriginA: Vec3 := Vec3(0.0, -10.0, 0.0)
  const OriginB: Vec3 := Vec3(0.0, 10.0, 0.0)
  const Radius: real := 5.0

  /** The unit direction +z and its opposite. */
  const Forward: Vec3 := Vec3(0.0, 0.0, 1.0)
  const Backward: Vec3 := Vec3(0.0, 0.0, -1.0)

  lemma UnitNormalizes(sqrt: real -> real, u: Vec3)
    requires IsSqrt(sqrt) && Dot(u, u) == 1.0
    ensures u != Zero && Normalize(sqrt, u) == u
  {
    assert Positive(Dot(u, u));
    PositiveNorm(u);
    assert Dot(u, u) == 1.0 * 1.0;
    LengthBy(sqrt, u, 1.0);
    NormalizeScales(sqrt, u);
    ScaleByOne(u);
  }

  /**
   * The raycast of a ray with a unit direction, read off the ray quadratic:
   * when its coefficients are a, b and c and the case table of those lists
   * crossings whose hits are `hits`, those are the raycast's hits.
   */
  lemma RaycastCrosses(sqrt: real -> real, ro: Vec3, u: Vec3, pa: Vec3, pb: Vec3, r: real, a: real, b: real, c: real, list: seq<Crossing>, hits: seq<RayHitResult>)
    requires IsSqrt(sqrt) && Dot(u, u) == 1.0
    requires QuadA(u, Sub(pb, pa)) == a && QuadB(u, Sub(pb, pa), Sub(ro, pa)) == b && CylinderEquation(ro, pa, pb, Sphere.Abs(r)) == c
    requires CaseTable(sqrt, a, b, c) == Crossed(list) && Capsule.Hits(ro, u, list) == hits
    ensures Capsule.Raycast(sqrt, ro, u, pa, pb, r) == RaycastOutcome.Hits(|list|, hits)
  {
    UnitNormalizes(sqrt, u);
    RaycastOfTable(sqrt, ro, u, pa, pb, r);
  }

  /** RaycastCrosses for the corrected raycast and its case table. */
  lemma RaycastCorrectedCrosses(sqrt: real -> real, ro: Vec3, u: Vec3, pa: Vec3, pb: Vec3, r: real, a: real, b: real, c: real, list: seq<Crossing>, hits: seq<RayHitResult>)
    requires IsSqrt(sqrt) && Dot(u, u) == 1.0
    requires QuadA(u, Sub(pb, pa)) == a && QuadB(u, Sub(pb, pa), Sub(ro, pa)) == b && CylinderEquation(ro, pa, pb, Sphere.Abs(r)) == c
    requires CaseTableCorrected(sqrt, a, b, c) == Crossed(list) && Capsule.Hits(ro, u, list) == hits
    ensures RaycastCorrected(sqrt, ro, u, pa, pb, r) == RaycastOutcome.Hits(|list|, hits)
  {
    UnitNormalizes(sqrt, u);
    RaycastCorrectedOfTable(sqrt, ro, u, pa, pb, r);
  }

  /** A fault of the case table is the raycast's fault. */
  lemma RaycastFails(sqrt: real -> real, ro: Vec3, u: Vec3, pa: Vec3, pb: Vec3, r: real, a: real, b: real, c: real, fault: RaycastFault)
    requires IsSqrt(sqrt) && Dot(u, u) == 1.0
    requires QuadA(u, Sub(pb, pa)) == a && QuadB(u, Sub(pb, pa), Sub(ro, pa)) == b && CylinderEquation(ro, pa, pb, Sphere.Abs(r)) == c
    requires CaseTable(sqrt, a, b, c) == Failed(fault)
    ensures Capsule.Raycast(sqrt, ro, u, pa, pb, r) == Fault(fault)
  {
    UnitNormalizes(sqrt, u);
    RaycastOfTable(sqrt, ro, u, pa, pb, r);
  }

  /**
   * The ray quadratic of the test capsule for a ray along +z from (x, 0, z):
   * the axis is perpendicular to the ray, so a = |ba|^2 = 400, b = 400 (rd.oa)
   * = 400 z and c = 400 (x^2 + z^2 - 25).
   */
  lemma ForwardCoefficients(x: real, z: real, b: real, c: real)
    requires b == 400.0 * z && c == 400.0 * (x * x + z * z - 25.0)
    ensures Dot(Forward, Forward) == 1.0
    ensures QuadA(Forward, Sub(OriginB, OriginA)) == 400.0
    ensures QuadB(Forward, Sub(OriginB, OriginA), Sub(Vec3(x, 0.0, z), OriginA)) == b
    ensures CylinderEquation(Vec3(x, 0.0, z), OriginA, OriginB, Sphere.Abs(Radius)) == c
  {
    assert Sphere.Abs(Radius) == Radius;
  }

  /** The same along -z: only the sign of b changes. */
  lemma BackwardCoefficients(x: real, z: real, b: real, c: real)
    requires b == -400.0 * z && c == 400.0 * (x * x + z * z - 25.0)
    ensures Dot(Backward, Backward) == 1.0
    ensures QuadA(Backward, Sub(OriginB, OriginA)) == 400.0
    ensures QuadB(Backward, Sub(OriginB, OriginA), Sub(Vec3(x, 0.0, z), OriginA)) == b
    ensures CylinderEquation(Vec3(x, 0.0, z), OriginA, OriginB, Sphere.Abs(Radius)) == c
  {
    assert Sphere.Abs(Radius) == Radius;
  }

  /** The root of the positive reduced discriminant that the crossing tests share. */
  lemma DiscriminantRoot(sqrt: real -> real)
    requires IsSqrt(sqrt)
    ensures sqrt(4000000.0) == 2000.0
  {
    SqrtOfSquare(sqrt, 4000000.0, 2000.0);
  }

  /**
   * The signed distance from a point whose projection onto the axis falls at
   * parameter h inside the segment, at distance l from the axis, is l - r.
   */
  lemma DistanceAt(sqrt: real -> real, point: Vec3, pa: Vec3, pb: Vec3, r: real, h: real, l: real)
    requires IsSqrt(sqrt) && 0.0 < Dot(Sub(pb, pa), Sub(pb, pa)) && 0.0 <= h <= 1.0 && 0.0 <= l
    requires Dot(Sub(point, pa), Sub(pb, pa)) / Dot(Sub(pb, pa), Sub(pb, pa)) == h
    requires var off := Sub(Sub(point, pa), Scale(Sub(pb, pa), h)); Dot(off, off) == l * l
    ensures Capsule.Distance(sqrt, point, pa, pb, r) == Value(l - r)
  {
    LengthBy(sqrt, Sub(Sub(point, pa), Scale(Sub(pb, pa), h)), l);
  }

  /** The vectors from the end A of the test capsule to its end B and to a point on the z axis. */
  lemma AxisVectors(z: real)
    ensures Sub(Vec3(0.0, 0.0, z), OriginA) == Vec3(0.0, 10.0, z)
    ensures Sub(OriginB, OriginA) == Vec3(0.0, 20.0, 0.0)
  {
  }

  /** Half the axis of the test capsule, taken off the vector to a point on the z axis, leaves the point. */
  lemma AxisMidpoint(z: real)
    ensures Sub(Vec3(0.0, 10.0, z), Scale(Vec3(0.0, 20.0, 0.0), 0.5)) == Vec3(0.0, 0.0, z)
  {
    assert Scale(Vec3(0.0, 20.0, 0.0), 0.5) == Vec3(0.0, 10.0, 0.0);
  }

  /** The products of the vectors of AxisVectors. */
  lemma AxisProducts(z: real)
    ensures Dot(Vec3(0.0, 20.0, 0.0), Vec3(0.0, 20.0, 0.0)) == 400.0
    ensures Dot(Vec3(0.0, 10.0, z), Vec3(0.0, 20.0, 0.0)) == 200.0
    ensures Dot(Vec3(0.0, 0.0, z), Vec3(0.0, 0.0, z)) == z * z
  {
  }

  /**
   * A point on the z axis projects onto the middle of the axis of the test
   * capsule, at its own distance |z| from it.
   */
  lemma AxisPointOffsets(z: real)
    ensures var p, ba := Sub(Vec3(0.0, 0.0, z), OriginA), Sub(OriginB, OriginA);
      && 0.0 < Dot(ba, ba)
      && Dot(p, ba) / Dot(ba, ba) == 0.5
      && Dot(Sub(p, Scale(ba, 0.5)), Sub(p, Scale(ba, 0.5))) == z * z
  {
    AxisVectors(z);
    AxisMidpoint(z);
    AxisProducts(z);
    assert 200.0 / 400.0 == 0.5;
  }

  /** A point on the z axis at distance l from the axis of the test capsule lies l - 5 from its surface. */
  lemma AxisDistance(sqrt: real -> real, z: real, l: real)
    requires IsSqrt(sqrt) && 0.0 <= l && l * l == z * z
    ensures Capsule.Distance(sqrt, Vec3(0.0, 0.0, z), OriginA, OriginB, Radius) == Value(l - Radius)
  {
    AxisPointOffsets(z);
    DistanceAt(sqrt, Vec3(0.0, 0.0, z), OriginA, OriginB, Radius, 0.5, l);
  }

  /** Test 1A and 1C, distance part: 5 outside the capsule, on the z axis at z = -10. */
  lemma DistanceOutside(sqrt: real -> real)
    requires IsSqrt(sqrt)
    ensures Capsule.Distance(sqrt, Vec3(0.0, 0.0, -10.0), OriginA, OriginB, Radius) == Value(5.0)
  {
    AxisDistance(sqrt, -10.0, 10.0);
  }

  /** Test 1B, distance part: -5 at the centre of the capsule. */
  lemma DistanceAtCentre(sqrt: real -> real)
    requires IsSqrt(sqrt)
    ensures Capsule.Distance(sqrt, Zero, OriginA, OriginB, Radius) == Value(-5.0)
  {
    AxisDistance(sqrt, 0.0, 0.0);
  }

  /** The hits of the crossings of test 1A, in either order. */
  lemma TowardsHits()
    ensures var ro := Vec3(0.0, 0.0, -10.0);
      Capsule.Hits(ro, Forward, [Crossing(Exit, 15.0), Crossing(Enter, 5.0)])
        == [RayHitResult(Exit, Ray(ro, Forward), 15.0, Vec3(0.0, 0.0, 5.0), Zero),
            RayHitResult(Enter, Ray(ro, Forward), 5.0, Vec3(0.0, 0.0, -5.0), Zero)]
    ensures var ro := Vec3(0.0, 0.0, -10.0);
      Capsule.Hits(ro, Forward, [Crossing(Enter, 5.0), Crossing(Exit, 15.0)])
        == [RayHitResult(Enter, Ray(ro, Forward), 5.0, Vec3(0.0, 0.0, -5.0), Zero),
            RayHitResult(Exit, Ray(ro, Forward), 15.0, Vec3(0.0, 0.0, 5.0), Zero)]
  {
  }

  /** The case tables of the ray of test 1A, with roots t0 = 15 and t1 = 5. */
  lemma TowardsTables(sqrt: real -> real)
    requires IsSqrt(sqrt)
    ensures CaseTable(sqrt, 400.0, -4000.0, 30000.0) == Crossed([Crossing(Exit, 15.0), Crossing(Enter, 5.0)])
    ensures CaseTableCorrected(sqrt, 400.0, -4000.0, 30000.0) == Crossed([Crossing(Enter, 5.0), Crossing(Exit, 15.0)])
  {
    DiscriminantRoot(sqrt);
  }

  /**
   * Test 1A: from (0, 0, -10) along +z the ray crosses the cylinder at 5 and
   * 15. The source lists the root t0 = 15 first, so it returns Exit at 15
   * before Enter at 5, where the test expects Enter at 5 first; its hits
   * carry the zero normal.
   */
  lemma TowardsFromOutside(sqrt: real -> real)
    requires IsSqrt(sqrt)
    ensures var ro := Vec3(0.0, 0.0, -10.0);
      Capsule.Raycast(sqrt, ro, Forward, OriginA, OriginB, Radius)
        == RaycastOutcome.Hits(2, [RayHitResult(Exit, Ray(ro, Forward), 15.0, Vec3(0.0, 0.0, 5.0), Zero),
                                   RayHitResult(Enter, Ray(ro, Forward), 5.0, Vec3(0.0, 0.0, -5.0), Zero)])
  {
    var ro := Vec3(0.0, 0.0, -10.0);
    ForwardCoefficients(0.0, -10.0, -4000.0, 30000.0);
    TowardsTables(sqrt);
    TowardsHits();
    RaycastCrosses(sqrt, ro, Forward, OriginA, OriginB, Radius, 400.0, -4000.0, 30000.0,
      [Crossing(Exit, 15.0), Crossing(Enter, 5.0)],
      [RayHitResult(Exit, Ray(ro, Forward), 15.0, Vec3(0.0, 0.0, 5.0), Zero),
       RayHitResult(Enter, Ray(ro, Forward), 5.0, Vec3(0.0, 0.0, -5.0), Zero)]);
  }

  /** Test 1A with the corrected table: Enter at 5, then Exit at 15, as the test expects. */
  lemma TowardsFromOutsideCorrected(sqrt: real -> real)
    requires IsSqrt(sqrt)
    ensures var ro := Vec3(0.0, 0.0, -10.0);
      RaycastCorrected(sqrt, ro, Forward, OriginA, OriginB, Radius)
        == RaycastOutcome.Hits(2, [RayHitResult(Enter, Ray(ro, Forward), 5.0, Vec3(0.0, 0.0, -5.0), Zero),
                                   RayHitResult(Exit, Ray(ro, Forward), 15.0, Vec3(0.0, 0.0, 5.0), Zero)])
  {
    var ro := Vec3(0.0, 0.0, -10.0);
    ForwardCoefficients(0.0, -10.0, -4000.0, 30000.0);
    TowardsTables(sqrt);
    TowardsHits();
    RaycastCorrectedCrosses(sqrt, ro, Forward, OriginA, OriginB, Radius, 400.0, -4000.0, 30000.0,
      [Crossing(Enter, 5.0), Crossing(Exit, 15.0)],
      [RayHitResult(Enter, Ray(ro, Forward), 5.0, Vec3(0.0, 0.0, -5.0), Zero),
       RayHitResult(Exit, Ray(ro, Forward), 15.0, Vec3(0.0, 0.0, 5.0), Zero)]);
  }

  /** The hit of the crossing of test 1B. */
  lemma InsideHits()
    ensures Capsule.Hits(Zero, Forward, [Crossing(Exit, 5.0)])
         == [RayHitResult(Exit, Ray(Zero, Forward), 5.0, Vec3(0.0, 0.0, 5.0), Zero)]
  {
  }

  /** The case table of the ray of test 1B, with roots 5 and -5. */
  lemma InsideTable(sqrt: real -> real)
    requires IsSqrt(sqrt)
    ensures CaseTable(sqrt, 400.0, 0.0, -10000.0) == Crossed([Crossing(Exit, 5.0)])
  {
    DiscriminantRoot(sqrt);
  }

  /** Test 1B: from the centre along +z, one Exit at 5. */
  lemma FromInside(sqrt: real -> real)
    requires IsSqrt(sqrt)
    ensures Capsule.Raycast(sqrt, Zero, Forward, OriginA, OriginB, Radius)
         == RaycastOutcome.Hits(1, [RayHitResult(Exit, Ray(Zero, Forward), 5.0, Vec3(0.0, 0.0, 5.0), Zero)])
  {
    ForwardCoefficients(0.0, 0.0, 0.0, -10000.0);
    InsideTable(sqrt);
    InsideHits();
    RaycastCrosses(sqrt, Zero, Forward, OriginA, OriginB, Radius, 400.0, 0.0, -10000.0,
      [Crossing(Exit, 5.0)], [RayHitResult(Exit, Ray(Zero, Forward), 5.0, Vec3(0.0, 0.0, 5.0), Zero)]);
  }

  /** No crossing, no hit. */
  lemma AwayHits()
    ensures Capsule.Hits(Vec3(0.0, 0.0, -10.0), Backward, []) == []
  {
  }

  /** The case table of the ray of test 1C, with roots -5 and -15. */
  lemma AwayTable(sqrt: real -> real)
    requires IsSqrt(sqrt)
    ensures CaseTable(sqrt, 400.0, 4000.0, 30000.0) == Crossed([])
  {
    DiscriminantRoot(sqrt);
  }

  /** Test 1C: from (0, 0, -10) along -z, away from the capsule: no hit. */
  lemma AwayFromOutside(sqrt: real -> real)
    requires IsSqrt(sqrt)
    ensures Capsule.Raycast(sqrt, Vec3(0.0, 0.0, -10.0), Backward, OriginA, OriginB, Radius) == RaycastOutcome.Hits(0, [])
  {
    BackwardCoefficients(0.0, -10.0, 4000.0, 30000.0);
    AwayTable(sqrt);
    AwayHits();
    RaycastCrosses(sqrt, Vec3(0.0, 0.0, -10.0), Backward, OriginA, OriginB, Radius, 400.0, 4000.0, 30000.0, [], []);
  }

  /** The Tangent hits of test 2A at 2.5 and at 5. */
  lemma GrazingHits()
    ensures var ro := Vec3(-5.0, 0.0, -5.0);
      Capsule.Hits(ro, Forward, [Crossing(Tangent, 2.5)])
        == [RayHitResult(Tangent, Ray(ro, Forward), 2.5, Vec3(-5.0, 0.0, -2.5), Zero)]
    ensures var ro := Vec3(-5.0, 0.0, -5.0);
      Capsule.Hits(ro, Forward, [Crossing(Tangent, 5.0)])
        == [RayHitResult(Tangent, Ray(ro, Forward), 5.0, Vec3(-5.0, 0.0, 0.0), Zero)]
  {
  }

  /** The case tables of the ray of test 2A, with a double root at 5 that the source halves. */
  lemma GrazingTables(sqrt: real -> real)
    requires IsSqrt(sqrt)
    ensures CaseTable(sqrt, 400.0, -2000.0, 10000.0) == Crossed([Crossing(Tangent, 2.5)])
    ensures CaseTableCorrected(sqrt, 400.0, -2000.0, 10000.0) == Crossed([Crossing(Tangent, 5.0)])
  {
  }

  /**
   * Test 2A: from (-5, 0, -5) along +z the ray touches the cylinder at
   * distance 5, where the test expects the Tangent hit; the source reports
   * it at -b / (2a) = 2.5, half the distance, off the capsule.
   */
  lemma Grazing(sqrt: real -> real)
    requires IsSqrt(sqrt)
    ensures var ro := Vec3(-5.0, 0.0, -5.0);
      Capsule.Raycast(sqrt, ro, Forward, OriginA, OriginB, Radius)
        == RaycastOutcome.Hits(1, [RayHitResult(Tangent, Ray(ro, Forward), 2.5, Vec3(-5.0, 0.0, -2.5), Zero)])
  {
    var ro := Vec3(-5.0, 0.0, -5.0);
    ForwardCoefficients(-5.0, -5.0, -2000.0, 10000.0);
    GrazingTables(sqrt);
    GrazingHits();
    RaycastCrosses(sqrt, ro, Forward, OriginA, OriginB, Radius, 400.0, -2000.0, 10000.0,
      [Crossing(Tangent, 2.5)], [RayHitResult(Tangent, Ray(ro, Forward), 2.5, Vec3(-5.0, 0.0, -2.5), Zero)]);
  }

  /** Test 2A with the corrected table: the Tangent hit at 5, at (-5, 0, 0), as the test expects. */
  lemma GrazingCorrected(sqrt: real -> real)
    requires IsSqrt(sqrt)
    ensures var ro := Vec3(-5.0, 0.0, -5.0);
      RaycastCorrected(sqrt, ro, Forward, OriginA, OriginB, Radius)
        == RaycastOutcome.Hits(1, [RayHitResult(Tangent, Ray(ro, Forward), 5.0, Vec3(-5.0, 0.0, 0.0), Zero)])
  {
    var ro := Vec3(-5.0, 0.0, -5.0);
    ForwardCoefficients(-5.0, -5.0, -2000.0, 10000.0);
    GrazingTables(sqrt);
    GrazingHits();
    RaycastCorrectedCrosses(sqrt, ro, Forward, OriginA, OriginB, Radius, 400.0, -2000.0, 10000.0,
      [Crossing(Tangent, 5.0)], [RayHitResult(Tangent, Ray(ro, Forward), 5.0, Vec3(-5.0, 0.0, 0.0), Zero)]);
  }

  /** No crossing, no hit. */
  lemma GrazingPastHits()
    ensures Capsule.Hits(Vec3(-5.0, 0.0, -5.0), Backward, []) == []
  {
  }

  /** The case table of the ray of test 2B: a double root behind the origin. */
  lemma GrazingPastTable(sqrt: real -> real)
    requires IsSqrt(sqrt)
    ensures CaseTable(sqrt, 400.0, 2000.0, 10000.0) == Crossed([])
  {
  }

  /** Test 2B: the same line along -z, past the point of contact: no hit. */
  lemma GrazingPast(sqrt: real -> real)
    requires IsSqrt(sqrt)
    ensures Capsule.Raycast(sqrt, Vec3(-5.0, 0.0, -5.0), Backward, OriginA, OriginB, Radius) == RaycastOutcome.Hits(0, [])
  {
    BackwardCoefficients(-5.0, -5.0, 2000.0, 10000.0);
    GrazingPastTable(sqrt);
    GrazingPastHits();
    RaycastCrosses(sqrt, Vec3(-5.0, 0.0, -5.0), Backward, OriginA, OriginB, Radius, 400.0, 2000.0, 10000.0, [], []);
  }

  /** No crossing, no hit. */
  lemma MissingHits()
    ensures Capsule.Hits(Vec3(-10.0, 0.0, -10.0), Forward, []) == []
  {
  }

  /** The case table of the ray of test 3: a negative discriminant. */
  lemma MissingTable(sqrt: real -> real)
    requires IsSqrt(sqrt)
    ensures CaseTable(sqrt, 400.0, -4000.0, 70000.0) == Crossed([])
  {
  }

  /** Test 3: from (-10, 0, -10) along +z, on a line 10 from the axis: no hit. */
  lemma Missing(sqrt: real -> real)
    requires IsSqrt(sqrt)
    ensures Capsule.Raycast(sqrt, Vec3(-10.0, 0.0, -10.0), Forward, OriginA, OriginB, Radius) == RaycastOutcome.Hits(0, [])
  {
    ForwardCoefficients(-10.0, -10.0, -4000.0, 70000.0);
    MissingTable(sqrt);
    MissingHits();
    RaycastCrosses(sqrt, Vec3(-10.0, 0.0, -10.0), Forward, OriginA, OriginB, Radius, 400.0, -4000.0, 70000.0, [], []);
  }

  /** The hits of the corrected crossings of a ray starting on the cylinder. */
  lemma OnSurfaceHits()
    ensures var ro := Vec3(0.0, 0.0, -5.0);
      Capsule.Hits(ro, Forward, [Crossing(Enter, 0.0), Crossing(Exit, 10.0)])
        == [RayHitResult(Enter, Ray(ro, Forward), 0.0, ro, Zero),
            RayHitResult(Exit, Ray(ro, Forward), 10.0, Vec3(0.0, 0.0, 5.0), Zero)]
  {
    var ro := Vec3(0.0, 0.0, -5.0);
    assert Scale(Forward, 0.0) == Zero;
    assert Add(ro, Zero) == ro;
  }

  /** The case tables of a ray starting on the cylinder, with roots 10 and 0. */
  lemma OnSurfaceTables(sqrt: real -> real)
    requires IsSqrt(sqrt)
    ensures CaseTable(sqrt, 400.0, -2000.0, 0.0) == Failed(ImpossibleDiscriminant)
    ensures CaseTableCorrected(sqrt, 400.0, -2000.0, 0.0) == Crossed([Crossing(Enter, 0.0), Crossing(Exit, 10.0)])
  {
    DiscriminantRoot(sqrt);
  }

  /**
   * A ray starting on the capsule at (0, 0, -5) and pointing through it: the
   * roots are 10 and 0, the root 0 is neither positive nor negative, and the
   * source throws.
   */
  lemma StartingOnSurface(sqrt: real -> real)
    requires IsSqrt(sqrt)
    ensures Capsule.Raycast(sqrt, Vec3(0.0, 0.0, -5.0), Forward, OriginA, OriginB, Radius) == Fault(ImpossibleDiscriminant)
  {
    ForwardCoefficients(0.0, -5.0, -2000.0, 0.0);
    OnSurfaceTables(sqrt);
    OnSurfaceHits();
    RaycastFails(sqrt, Vec3(0.0, 0.0, -5.0), Forward, OriginA, OriginB, Radius, 400.0, -2000.0, 0.0, ImpossibleDiscriminant);
  }

  /** The same ray with the corrected table: Enter where it starts, Exit at 10. */
  lemma StartingOnSurfaceCorrected(sqrt: real -> real)
    requires IsSqrt(sqrt)
    ensures var ro := Vec3(0.0, 0.0, -5.0);
      RaycastCorrected(sqrt, ro, Forward, OriginA, OriginB, Radius)
        == RaycastOutcome.Hits(2, [RayHitResult(Enter, Ray(ro, Forward), 0.0, ro, Zero),
                                   RayHitResult(Exit, Ray(ro, Forward), 10.0, Vec3(0.0, 0.0, 5.0), Zero)])
  {
    var ro := Vec3(0.0, 0.0, -5.0);
    ForwardCoefficients(0.0, -5.0, -2000.0, 0.0);
    OnSurfaceTables(sqrt);
    OnSurfaceHits();
    RaycastCorrectedCrosses(sqrt, ro, Forward, OriginA, OriginB, Radius, 400.0, -2000.0, 0.0,
      [Crossing(Enter, 0.0), Crossing(Exit, 10.0)],
      [RayHitResult(Enter, Ray(ro, Forward), 0.0, ro, Zero),
       RayHitResult(Exit, Ray(ro, Forward), 10.0, Vec3(0.0, 0.0, 5.0), Zero)]);
  }
}
