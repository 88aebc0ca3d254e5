/**
 * The scenarios of the sphere unit tests, stated for every sphere centre,
 * every positive radius and every unit direction `u`: rays along the line
 * through the centre, and rays along a line at distance `q` from it.
 */
module SphereScenarios {
  import opened Quadratics
  import opened Vectors
  import opened Raycasting
  import opened Sphere

  /** The point at signed distance `s` from `so` along `u`. */
  function Along(so: Vec3, u: Vec3, s: real): Vec3 {
    Add(so, Scale(u, s))
  }

  lemma AlongOffset(so: Vec3, u: Vec3, s: real)
    ensures Sub(Along(so, u, s), so) == Scale(u, s)
  {
  }

  lemma AlongStep(so: Vec3, u: Vec3, s: real, t: real)
    ensures Add(Along(so, u, s), Scale(u, t)) == Along(so, u, s + t)
  {
  }

  lemma UnitScaled(u: Vec3, s: real)
    requires Dot(u, u) == 1.0
    ensures Dot(u, Scale(u, s)) == s
    ensures Dot(Scale(u, s), Scale(u, s)) == s * s
  {
    DotScale(u, u, s);
    DotScale(u, Scale(u, s), s);
  }

  lemma NormalizeUnit(sqrt: real -> real, u: Vec3)
    requires IsSqrt(sqrt) && Dot(u, u) == 1.0
    ensures u != Zero && Normalize(sqrt, u) == u
  {
    assert Positive(Dot(u, u));
    PositiveNorm(u);
    assert Dot(u, u) == 1.0 * 1.0;
    LengthBy(sqrt, u, 1.0);
    NormalizeScales(sqrt, u);
    ScaleByOne(u);
  }

  lemma NormalizeForward(sqrt: real -> real, u: Vec3, s: real)
    requires IsSqrt(sqrt) && Dot(u, u) == 1.0 && 0.0 < s
    ensures Normalize(sqrt, Scale(u, s)) == u
  {
    UnitScaled(u, s);
    NormalizeBy(sqrt, Scale(u, s), s);
    ScaleByInverse(u, s);
  }

  /** The outward normal at a point of the axis: `u` beyond the centre, `-u` before it. */
  lemma NormalizeAlong(sqrt: real -> real, u: Vec3, s: real)
    requires IsSqrt(sqrt) && Dot(u, u) == 1.0 && s != 0.0
    ensures 0.0 < s ==> Normalize(sqrt, Scale(u, s)) == u
    ensures s < 0.0 ==> Normalize(sqrt, Scale(u, s)) == Scale(u, -1.0)
  {
    if 0.0 < s {
      NormalizeForward(sqrt, u, s);
    } else {
      Reversed(u, s);
      NormalizeForward(sqrt, Scale(u, -1.0), -s);
    }
  }

  /** `-u` is a unit vector too, and `s u` is `-s` times `-u`. */
  lemma Reversed(u: Vec3, s: real)
    requires Dot(u, u) == 1.0
    ensures Dot(Scale(u, -1.0), Scale(u, -1.0)) == 1.0
    ensures Scale(u, s) == Scale(Scale(u, -1.0), -s)
  {
    DotScale(u, Scale(u, -1.0), -1.0);
    DotScale(u, u, -1.0);
  }

  /** On the axis, at signed distance `s` from the centre, the roots are -s - r and r - s. */
  lemma AxisRoots(sqrt: real -> real, s: real, r: real)
    requires IsSqrt(sqrt) && 0.0 < r
    ensures var b, c := 2.0 * s, s * s - r * r;
      var del := b * b - 4.0 * c;
      && 0.0 < del
      && (-b - sqrt(del)) / 2.0 == -s - r
      && (-b + sqrt(del)) / 2.0 == r - s
  {
    var b, c := 2.0 * s, s * s - r * r;
    var del := b * b - 4.0 * c;
    assert del == (2.0 * r) * (2.0 * r);
    SquarePositive(2.0 * r);
    SqrtOfSquare(sqrt, del, 2.0 * r);
  }

  /** The case table along the axis, by where the origin lies on it. */
  lemma AxisTable(sqrt: real -> real, s: real, r: real)
    requires IsSqrt(sqrt) && 0.0 < r
    ensures s < -r ==> CaseTable(sqrt, 2.0 * s, s * s - r * r) == Crossed([Crossing(Enter, -s - r), Crossing(Exit, r - s)])
    ensures -r < s < r ==> CaseTable(sqrt, 2.0 * s, s * s - r * r) == Crossed([Crossing(Exit, r - s)])
    ensures r < s ==> CaseTable(sqrt, 2.0 * s, s * s - r * r) == Crossed([])
    ensures s == -r || s == r ==> CaseTable(sqrt, 2.0 * s, s * s - r * r) == Failed(ImpossibleDiscriminant)
  {
    AxisRoots(sqrt, s, r);
  }

  /** The corrected table along the axis, from the near pole or before it: Enter and Exit at both poles. */
  lemma AxisTableCorrected(sqrt: real -> real, s: real, r: real)
    requires IsSqrt(sqrt) && 0.0 < r && s <= -r
    ensures CaseTableCorrected(sqrt, 2.0 * s, s * s - r * r) == Crossed([Crossing(Enter, -s - r), Crossing(Exit, r - s)])
  {
    AxisRoots(sqrt, s, r);
  }

  /** The corrected table from the near pole: Enter at 0 and Exit at 2r. */
  lemma SurfaceTableCorrected(sqrt: real -> real, r: real)
    requires IsSqrt(sqrt) && 0.0 < r
    ensures CaseTableCorrected(sqrt, 2.0 * -r, -r * -r - r * r) == Crossed([Crossing(Enter, 0.0), Crossing(Exit, 2.0 * r)])
  {
    AxisTableCorrected(sqrt, -r, r);
    assert -(-r) - r == 0.0 && r - -r == 2.0 * r;
  }

  /** The ray quadratic of a ray along the axis, from the point at signed distance `s`. */
  lemma AxisCoefficients(sqrt: real -> real, so: Vec3, u: Vec3, r: real, s: real)
    requires IsSqrt(sqrt) && Dot(u, u) == 1.0 && 0.0 < r
    ensures RayB(sqrt, Along(so, u, s), u, so) == 2.0 * s
    ensures SurfaceEquation(Along(so, u, s), so, Abs(r)) == s * s - r * r
  {
    NormalizeUnit(sqrt, u);
    AlongOffset(so, u, s);
    UnitScaled(u, s);
  }

  /** The hit at distance `t` of the ray along the axis from `s`, reaching the point at `p = s + t`. */
  lemma AxisHit(sqrt: real -> real, kind: SurfaceHitType, so: Vec3, u: Vec3, s: real, t: real, p: real)
    requires IsSqrt(sqrt) && Dot(u, u) == 1.0 && p == s + t && p != 0.0
    ensures Hit(sqrt, kind, Along(so, u, s), u, t, so)
         == RayHitResult(kind, Ray(Along(so, u, s), u), t, Along(so, u, p), if 0.0 < p then u else Scale(u, -1.0))
  {
    AlongStep(so, u, s, t);
    AlongOffset(so, u, p);
    NormalizeAlong(sqrt, u, p);
  }

  /** AxisHit before the centre, where the outward normal is `-u`. */
  lemma AxisHitBefore(sqrt: real -> real, kind: SurfaceHitType, so: Vec3, u: Vec3, s: real, t: real, p: real)
    requires IsSqrt(sqrt) && Dot(u, u) == 1.0 && p == s + t && p < 0.0
    ensures Hit(sqrt, kind, Along(so, u, s), u, t, so)
         == RayHitResult(kind, Ray(Along(so, u, s), u), t, Along(so, u, p), Scale(u, -1.0))
  {
    AxisHit(sqrt, kind, so, u, s, t, p);
  }

  /** AxisHit beyond the centre, where the outward normal is `u`. */
  lemma AxisHitBeyond(sqrt: real -> real, kind: SurfaceHitType, so: Vec3, u: Vec3, s: real, t: real, p: real)
    requires IsSqrt(sqrt) && Dot(u, u) == 1.0 && p == s + t && 0.0 < p
    ensures Hit(sqrt, kind, Along(so, u, s), u, t, so)
         == RayHitResult(kind, Ray(Along(so, u, s), u), t, Along(so, u, p), u)
  {
    AxisHit(sqrt, kind, so, u, s, t, p);
  }

  /** The hits of two crossings, one for each. */
  lemma HitsOfTwo(sqrt: real -> real, ro: Vec3, u: Vec3, so: Vec3, k0: SurfaceHitType, t0: real, k1: SurfaceHitType, t1: real, h0: RayHitResult, h1: RayHitResult)
    requires IsSqrt(sqrt)
    requires Hit(sqrt, k0, ro, u, t0, so) == h0 && Hit(sqrt, k1, ro, u, t1, so) == h1
    ensures Sphere.Hits(sqrt, ro, u, so, [Crossing(k0, t0), Crossing(k1, t1)]) == [h0, h1]
  {
  }

  /**
   * The hits of an Enter crossing at t0 reaching p0 before the centre and an
   * Exit crossing at t1 reaching p1 beyond it, for the ray along the axis from `s`.
   */
  lemma AxisHitsPair(sqrt: real -> real, so: Vec3, u: Vec3, s: real, t0: real, p0: real, t1: real, p1: real)
    requires IsSqrt(sqrt) && Dot(u, u) == 1.0 && p0 == s + t0 && p0 < 0.0 && p1 == s + t1 && 0.0 < p1
    ensures var ro := Along(so, u, s);
      Sphere.Hits(sqrt, ro, u, so, [Crossing(Enter, t0), Crossing(Exit, t1)])
        == [RayHitResult(Enter, Ray(ro, u), t0, Along(so, u, p0), Scale(u, -1.0)),
            RayHitResult(Exit, Ray(ro, u), t1, Along(so, u, p1), u)]
  {
    var ro := Along(so, u, s);
    AxisHitBefore(sqrt, Enter, so, u, s, t0, p0);
    AxisHitBeyond(sqrt, Exit, so, u, s, t1, p1);
    HitsOfTwo(sqrt, ro, u, so, Enter, t0, Exit, t1,
      RayHitResult(Enter, Ray(ro, u), t0, Along(so, u, p0), Scale(u, -1.0)),
      RayHitResult(Exit, Ray(ro, u), t1, Along(so, u, p1), u));
  }

  /** The hit of an Exit crossing of the ray along the axis from `s`, reaching r. */
  lemma AxisHitsExit(sqrt: real -> real, so: Vec3, u: Vec3, r: real, s: real)
    requires IsSqrt(sqrt) && Dot(u, u) == 1.0 && 0.0 < r
    ensures var ro := Along(so, u, s);
      Sphere.Hits(sqrt, ro, u, so, [Crossing(Exit, r - s)])
        == [RayHitResult(Exit, Ray(ro, u), r - s, Along(so, u, r), u)]
  {
    AxisHit(sqrt, Exit, so, u, s, r - s, r);
  }

  /** Tests 1A to 1C, distance part: on the axis, the signed distance is |s| - r. */
  lemma DistanceOnAxis(sqrt: real -> real, so: Vec3, u: Vec3, r: real, s: real)
    requires IsSqrt(sqrt) && Dot(u, u) == 1.0
    ensures Distance(sqrt, Along(so, u, s), so, r) == Abs(s) - r
  {
    AlongOffset(so, u, s);
    UnitScaled(u, s);
    AbsSquare(s);
    SqrtOfSquare(sqrt, s * s, Abs(s));
  }

  /** A unit direction whose case table crosses the sphere yields the hits of those crossings. */
  lemma RaycastCrosses(sqrt: real -> real, ro: Vec3, u: Vec3, so: Vec3, r: real, b: real, c: real, list: seq<Crossing>, hits: seq<RayHitResult>)
    requires IsSqrt(sqrt) && Dot(u, u) == 1.0
    requires RayB(sqrt, ro, u, so) == b && SurfaceEquation(ro, so, Abs(r)) == c
    requires CaseTable(sqrt, b, c) == Crossed(list) && Sphere.Hits(sqrt, ro, u, so, list) == hits
    ensures Raycast(sqrt, ro, u, so, r) == RaycastOutcome.Hits(|list|, hits)
  {
    NormalizeUnit(sqrt, u);
    RaycastOfTable(sqrt, ro, u, so, r, b, c);
  }

  /** RaycastCrosses for the corrected raycast and its case table. */
  lemma RaycastCorrectedCrosses(sqrt: real -> real, ro: Vec3, u: Vec3, so: Vec3, r: real, b: real, c: real, list: seq<Crossing>, hits: seq<RayHitResult>)
    requires IsSqrt(sqrt) && Dot(u, u) == 1.0
    requires RayB(sqrt, ro, u, so) == b && SurfaceEquation(ro, so, Abs(r)) == c
    requires CaseTableCorrected(sqrt, b, c) == Crossed(list) && Sphere.Hits(sqrt, ro, u, so, list) == hits
    ensures RaycastCorrected(sqrt, ro, u, so, r) == RaycastOutcome.Hits(|list|, hits)
  {
    NormalizeUnit(sqrt, u);
    RaycastCorrectedOfTable(sqrt, ro, u, so, r, b, c);
  }

  /** A ray along the axis whose case table lists an Enter before the centre and an Exit beyond it. */
  lemma AxisRaycastPair(sqrt: real -> real, so: Vec3, u: Vec3, r: real, s: real, b: real, c: real, t0: real, p0: real, t1: real, p1: real)
    requires IsSqrt(sqrt) && Dot(u, u) == 1.0 && p0 == s + t0 && p0 < 0.0 && p1 == s + t1 && 0.0 < p1
    requires RayB(sqrt, Along(so, u, s), u, so) == b && SurfaceEquation(Along(so, u, s), so, Abs(r)) == c
    requires CaseTable(sqrt, b, c) == Crossed([Crossing(Enter, t0), Crossing(Exit, t1)])
    ensures var ro := Along(so, u, s);
      Raycast(sqrt, ro, u, so, r)
        == Hits(2, [RayHitResult(Enter, Ray(ro, u), t0, Along(so, u, p0), Scale(u, -1.0)),
                    RayHitResult(Exit, Ray(ro, u), t1, Along(so, u, p1), u)])
  {
    var ro := Along(so, u, s);
    AxisHitsPair(sqrt, so, u, s, t0, p0, t1, p1);
    RaycastCrosses(sqrt, ro, u, so, r, b, c, [Crossing(Enter, t0), Crossing(Exit, t1)],
      [RayHitResult(Enter, Ray(ro, u), t0, Along(so, u, p0), Scale(u, -1.0)),
       RayHitResult(Exit, Ray(ro, u), t1, Along(so, u, p1), u)]);
  }

  /** AxisRaycastPair for the corrected raycast and its case table. */
  lemma AxisRaycastCorrectedPair(sqrt: real -> real, so: Vec3, u: Vec3, r: real, s: real, b: real, c: real, t0: real, p0: real, t1: real, p1: real)
    requires IsSqrt(sqrt) && Dot(u, u) == 1.0 && p0 == s + t0 && p0 < 0.0 && p1 == s + t1 && 0.0 < p1
    requires RayB(sqrt, Along(so, u, s), u, so) == b && SurfaceEquation(Along(so, u, s), so, Abs(r)) == c
    requires CaseTableCorrected(sqrt, b, c) == Crossed([Crossing(Enter, t0), Crossing(Exit, t1)])
    ensures var ro := Along(so, u, s);
      RaycastCorrected(sqrt, ro, u, so, r)
        == Hits(2, [RayHitResult(Enter, Ray(ro, u), t0, Along(so, u, p0), Scale(u, -1.0)),
                    RayHitResult(Exit, Ray(ro, u), t1, Along(so, u, p1), u)])
  {
    var ro := Along(so, u, s);
    AxisHitsPair(sqrt, so, u, s, t0, p0, t1, p1);
    RaycastCorrectedCrosses(sqrt, ro, u, so, r, b, c, [Crossing(Enter, t0), Crossing(Exit, t1)],
      [RayHitResult(Enter, Ray(ro, u), t0, Along(so, u, p0), Scale(u, -1.0)),
       RayHitResult(Exit, Ray(ro, u), t1, Along(so, u, p1), u)]);
  }

  /**
   * Test 1A generalised: from outside, facing the centre, the ray enters at
   * the near pole and exits at the far pole, with outward normals -u and u.
   */
  lemma ThroughCentreFromOutside(sqrt: real -> real, so: Vec3, u: Vec3, r: real, s: real)
    requires IsSqrt(sqrt) && Dot(u, u) == 1.0 && 0.0 < r && s < -r
    ensures var ro := Along(so, u, s);
      Raycast(sqrt, ro, u, so, r)
        == Hits(2, [RayHitResult(Enter, Ray(ro, u), -s - r, Along(so, u, -r), Scale(u, -1.0)),
                    RayHitResult(Exit, Ray(ro, u), r - s, Along(so, u, r), u)])
  {
    AxisCoefficients(sqrt, so, u, r, s);
    AxisTable(sqrt, s, r);
    AxisRaycastPair(sqrt, so, u, r, s, 2.0 * s, s * s - r * r, -s - r, -r, r - s, r);
  }

  /** Test 1B generalised: from inside, on the axis, one Exit at the far pole. */
  lemma ThroughCentreFromInside(sqrt: real -> real, so: Vec3, u: Vec3, r: real, s: real)
    requires IsSqrt(sqrt) && Dot(u, u) == 1.0 && -r < s < r
    ensures var ro := Along(so, u, s);
      Raycast(sqrt, ro, u, so, r)
        == Hits(1, [RayHitResult(Exit, Ray(ro, u), r - s, Along(so, u, r), u)])
  {
    var ro := Along(so, u, s);
    AxisCoefficients(sqrt, so, u, r, s);
    AxisTable(sqrt, s, r);
    AxisHitsExit(sqrt, so, u, r, s);
    RaycastCrosses(sqrt, ro, u, so, r, 2.0 * s, s * s - r * r, [Crossing(Exit, r - s)],
      [RayHitResult(Exit, Ray(ro, u), r - s, Along(so, u, r), u)]);
  }

  /** Test 1C generalised: beyond the far pole, facing away, no hit. */
  lemma ThroughCentreBeyond(sqrt: real -> real, so: Vec3, u: Vec3, r: real, s: real)
    requires IsSqrt(sqrt) && Dot(u, u) == 1.0 && 0.0 < r < s
    ensures Raycast(sqrt, Along(so, u, s), u, so, r) == Hits(0, [])
  {
    NormalizeUnit(sqrt, u);
    AxisCoefficients(sqrt, so, u, r, s);
    AxisTable(sqrt, s, r);
    RaycastOfTable(sqrt, Along(so, u, s), u, so, r, 2.0 * s, s * s - r * r);
  }

  /**
   * A ray starting on the sphere and pointing through the centre: the roots
   * are 0 and 2r, no branch of the case table matches and Raycast throws.
   */
  lemma StartingOnSurface(sqrt: real -> real, so: Vec3, u: Vec3, r: real)
    requires IsSqrt(sqrt) && Dot(u, u) == 1.0 && 0.0 < r
    ensures Raycast(sqrt, Along(so, u, -r), u, so, r) == Fault(ImpossibleDiscriminant)
  {
    var s := -r;
    NormalizeUnit(sqrt, u);
    AxisCoefficients(sqrt, so, u, r, s);
    AxisTable(sqrt, s, r);
    RaycastOfTable(sqrt, Along(so, u, s), u, so, r, 2.0 * s, s * s - r * r);
  }

  /** The same ray with the corrected case table: Enter where it starts, Exit at the far pole. */
  lemma StartingOnSurfaceCorrected(sqrt: real -> real, so: Vec3, u: Vec3, r: real)
    requires IsSqrt(sqrt) && Dot(u, u) == 1.0 && 0.0 < r
    ensures var ro := Along(so, u, -r);
      RaycastCorrected(sqrt, ro, u, so, r)
        == Hits(2, [RayHitResult(Enter, Ray(ro, u), 0.0, Along(so, u, -r), Scale(u, -1.0)),
                    RayHitResult(Exit, Ray(ro, u), 2.0 * r, Along(so, u, r), u)])
  {
    AxisCoefficients(sqrt, so, u, r, -r);
    SurfaceTableCorrected(sqrt, r);
    AxisRaycastCorrectedPair(sqrt, so, u, r, -r, 2.0 * -r, -r * -r - r * r, 0.0, -r, 2.0 * r, r);
  }

  /** The point reached from the centre by `q` along `v`, then `s` along `u`. */
  function Offset(so: Vec3, v: Vec3, q: real, u: Vec3, s: real): Vec3 {
    Add(Along(so, v, q), Scale(u, s))
  }

  /** The ray quadratic of a ray along `u` from a point at distance `q` from the axis along `v`, with `u` and `v` orthonormal. */
  lemma OffsetCoefficients(sqrt: real -> real, so: Vec3, v: Vec3, q: real, u: Vec3, s: real, r: real)
    requires IsSqrt(sqrt) && Dot(u, u) == 1.0 && Dot(v, v) == 1.0 && Dot(u, v) == 0.0 && 0.0 < r
    ensures RayB(sqrt, Offset(so, v, q, u, s), u, so) == 2.0 * s
    ensures SurfaceEquation(Offset(so, v, q, u, s), so, Abs(r)) == s * s + (q * q - r * r)
  {
    NormalizeUnit(sqrt, u);
    var w := Sub(Offset(so, v, q, u, s), so);
    assert w == Add(Scale(v, q), Scale(u, s));
    DotAlongLine(Scale(v, q), u, s);
    UnitScaled(v, q);
    DotScale(u, v, q);
    DotScale(u, u, s);
    assert Dot(u, w) == q * Dot(u, v) + s * Dot(u, u);
  }

  /** A line at the radius from the centre touches the sphere once, at the foot of the perpendicular. */
  lemma GrazeTable(sqrt: real -> real, s: real, k: real)
    requires IsSqrt(sqrt) && k == 0.0
    ensures s < 0.0 ==> CaseTable(sqrt, 2.0 * s, s * s + k) == Crossed([Crossing(Tangent, -s)])
    ensures 0.0 < s ==> CaseTable(sqrt, 2.0 * s, s * s + k) == Crossed([])
  {
  }

  /** A line farther than the radius from the centre never meets the sphere. */
  lemma MissTable(sqrt: real -> real, s: real, k: real)
    requires IsSqrt(sqrt) && 0.0 < k
    ensures CaseTable(sqrt, 2.0 * s, s * s + k) == Crossed([])
  {
  }

  /**
   * Test 2A generalised: a ray along a line at distance r from the centre,
   * before the point of contact, grazes the sphere there with normal `v`.
   */
  lemma Grazing(sqrt: real -> real, so: Vec3, v: Vec3, u: Vec3, r: real, s: real)
    requires IsSqrt(sqrt) && Dot(u, u) == 1.0 && Dot(v, v) == 1.0 && Dot(u, v) == 0.0 && 0.0 < r && s < 0.0
    ensures var ro := Offset(so, v, r, u, s);
      Raycast(sqrt, ro, u, so, r) == Hits(1, [RayHitResult(Tangent, Ray(ro, u), -s, Along(so, v, r), v)])
  {
    var ro := Offset(so, v, r, u, s);
    NormalizeUnit(sqrt, u);
    OffsetCoefficients(sqrt, so, v, r, u, s, r);
    GrazeTable(sqrt, s, r * r - r * r);
    RaycastOfTable(sqrt, ro, u, so, r, 2.0 * s, s * s + (r * r - r * r));
    GrazingHit(sqrt, so, v, u, r, s);
  }

  /** The Tangent hit of the grazing ray, at the foot of the perpendicular, with normal `v`. */
  lemma GrazingHit(sqrt: real -> real, so: Vec3, v: Vec3, u: Vec3, r: real, s: real)
    requires IsSqrt(sqrt) && Dot(u, u) == 1.0 && Dot(v, v) == 1.0 && 0.0 < r
    ensures var ro := Offset(so, v, r, u, s);
      Sphere.Hits(sqrt, ro, u, so, [Crossing(Tangent, -s)]) == [RayHitResult(Tangent, Ray(ro, u), -s, Along(so, v, r), v)]
  {
    var ro := Offset(so, v, r, u, s);
    assert Add(ro, Scale(u, -s)) == Along(so, v, r);
    AlongOffset(so, v, r);
    NormalizeAlong(sqrt, v, r);
  }

  /** Test 2B generalised: the same line, past the point of contact, reports no hit. */
  lemma GrazingPast(sqrt: real -> real, so: Vec3, v: Vec3, u: Vec3, r: real, s: real)
    requires IsSqrt(sqrt) && Dot(u, u) == 1.0 && Dot(v, v) == 1.0 && Dot(u, v) == 0.0 && 0.0 < r && 0.0 < s
    ensures Raycast(sqrt, Offset(so, v, r, u, s), u, so, r) == Hits(0, [])
  {
    NormalizeUnit(sqrt, u);
    OffsetCoefficients(sqrt, so, v, r, u, s, r);
    GrazeTable(sqrt, s, r * r - r * r);
    RaycastOfTable(sqrt, Offset(so, v, r, u, s), u, so, r, 2.0 * s, s * s + (r * r - r * r));
  }

  /** Test 3 generalised: a ray along a line farther than the radius from the centre reports no hit. */
  lemma Missing(sqrt: real -> real, so: Vec3, v: Vec3, q: real, u: Vec3, r: real, s: real)
    requires IsSqrt(sqrt) && Dot(u, u) == 1.0 && Dot(v, v) == 1.0 && Dot(u, v) == 0.0 && 0.0 < r < q
    ensures Raycast(sqrt, Offset(so, v, q, u, s), u, so, r) == Hits(0, [])
  {
    NormalizeUnit(sqrt, u);
    OffsetCoefficients(sqrt, so, v, q, u, s, r);
    SquareStrictlyMonotonic(r, q);
    MissTable(sqrt, s, q * q - r * r);
    RaycastOfTable(sqrt, Offset(so, v, q, u, s), u, so, r, 2.0 * s, s * s + (q * q - r * r));
  }
}
