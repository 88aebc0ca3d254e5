/**
 * The composition layer: the four binary reducers that combine two signed
 * distances (union, subtraction, intersection, xor), and SdfGroup, a mutable
 * list of shapes whose distance is the running minimum of its members'
 * distances.
 */
module Sdf {
  import opened Vectors
  import opened Floats
  import Sphere
  import Capsule

  /** Union of two shapes: the nearer of the two distances. */
  function Union(d1: real, d2: real): (r: real)
    ensures r <= d1 && r <= d2
    ensures r == d1 || r == d2
  {
    if d1 <= d2 then d1 else d2
  }

  /** Subtraction of the first shape from the second: max(-d1, d2). */
  function Subtraction(d1: real, d2: real): (r: real)
    ensures -d1 <= r && d2 <= r
    ensures r == -d1 || r == d2
  {
    if -d1 >= d2 then -d1 else d2
  }

  /** Intersection of two shapes: the farther of the two distances. */
  function Intersection(d1: real, d2: real): (r: real)
    ensures d1 <= r && d2 <= r
    ensures r == d1 || r == d2
  {
    if d1 >= d2 then d1 else d2
  }

  /** Symmetric difference: max(min(d1, d2), -max(d1, d2)). */
  function Xor(d1: real, d2: real): (r: real)
    ensures Union(d1, d2) <= r && -Intersection(d1, d2) <= r
    ensures r == Union(d1, d2) || r == -Intersection(d1, d2)
  {
    Intersection(Union(d1, d2), -Intersection(d1, d2))
  }

  /** Union and intersection do not depend on the order of their arguments, and a shape combined with itself is itself. */
  lemma UnionIntersectionLaws(d1: real, d2: real)
    ensures Union(d1, d2) == Union(d2, d1) && Intersection(d1, d2) == Intersection(d2, d1)
    ensures Union(d1, d1) == d1 && Intersection(d1, d1) == d1
    ensures Union(d1, d2) <= Intersection(d1, d2)
  {
  }

  /** Xor does not depend on the order of its arguments. */
  lemma XorSymmetric(d1: real, d2: real)
    ensures Xor(d1, d2) == Xor(d2, d1)
  {
    UnionIntersectionLaws(d1, d2);
  }

  /** A point is inside the union exactly when it is inside either shape. */
  lemma UnionInside(d1: real, d2: real)
    ensures Union(d1, d2) < 0.0 <==> d1 < 0.0 || d2 < 0.0
  {
  }

  /** A point is inside the intersection exactly when it is inside both shapes. */
  lemma IntersectionInside(d1: real, d2: real)
    ensures Intersection(d1, d2) < 0.0 <==> d1 < 0.0 && d2 < 0.0
  {
  }

  /** A point is inside the subtraction exactly when it is outside the first shape and inside the second. */
  lemma SubtractionInside(d1: real, d2: real)
    ensures Subtraction(d1, d2) < 0.0 <==> 0.0 < d1 && d2 < 0.0
  {
  }

  /** A point is inside the xor exactly when it is strictly inside one shape and strictly outside the other. */
  lemma XorInside(d1: real, d2: real)
    ensures Xor(d1, d2) < 0.0 <==> (d1 < 0.0 && 0.0 < d2) || (0.0 < d1 && d2 < 0.0)
  {
  }

  /**
   * A member of a group. The sphere's Position is never moved from the
   * origin, so a sphere member is centred at Zero; a nested group is
   * represented by the list of its members.
   */
  datatype Shape =
    | SphereShape(radius: real)
    | CapsuleShape(originA: Vec3, originB: Vec3, radius: real)
    | GroupShape(members: seq<Shape>)

  /** The distance a member reports: the instance Distance of Sphere, Capsule and SdfGroup. */
  function ShapeDistance(sqrt: real -> real, shape: Shape, point: Vec3): (d: Num)
    requires IsSqrt(sqrt)
    ensures shape.SphereShape? ==> d.Value?
    ensures shape.CapsuleShape? ==> (d.NaN? <==> shape.originA == shape.originB)
    decreases shape, 1
  {
    match shape
    case SphereShape(radius) => Value(Sphere.Distance(sqrt, point, Zero, radius))
    case CapsuleShape(originA, originB, radius) => Capsule.Distance(sqrt, point, originA, originB, radius)
    case GroupShape(members) => GroupDistance(sqrt, members, point)
  }

  /** The distances of the members, in list order. */
  function Distances(sqrt: real -> real, shapes: seq<Shape>, point: Vec3): (ds: seq<Num>)
    requires IsSqrt(sqrt)
    ensures |ds| == |shapes|
    ensures forall i :: 0 <= i < |shapes| ==> ds[i] == ShapeDistance(sqrt, shapes[i], point)
    decreases shapes, 0
  {
    if shapes == [] then []
    else [ShapeDistance(sqrt, shapes[0], point)] + Distances(sqrt, shapes[1..], point)
  }

  /**
   * The value the distance loop leaves in `min` after the distances `ds`:
   * the first distance, replaced by every later one that is smaller in float
   * comparison (which is false whenever a NaN takes part).
   */
  function RunningMin(ds: seq<Num>): Num
    requires |ds| > 0
  {
    if |ds| == 1 then ds[0]
    else
      var min := RunningMin(ds[..|ds| - 1]);
      var dist := ds[|ds| - 1];
      if Less(dist, min) then dist else min
  }

  /** The distance of a group: NaN when it has no member, the running minimum otherwise. */
  function GroupDistance(sqrt: real -> real, shapes: seq<Shape>, point: Vec3): Num
    requires IsSqrt(sqrt)
    decreases shapes, 2
  {
    if shapes == [] then NaN else RunningMin(Distances(sqrt, shapes, point))
  }

  /** The running minimum is NaN exactly when the first distance is: a later NaN is skipped. */
  lemma {:induction false} RunningMinNaN(ds: seq<Num>)
    requires |ds| > 0
    ensures RunningMin(ds).NaN? <==> ds[0].NaN?
  {
    if |ds| > 1 {
      RunningMinNaN(ds[..|ds| - 1]);
    }
  }

  /**
   * When the first distance is a number, the running minimum is a number, no
   * larger than any distance that is a number, and one of the distances.
   */
  lemma {:induction false} RunningMinIsMinimum(ds: seq<Num>)
    requires |ds| > 0 && ds[0].Value?
    ensures RunningMin(ds).Value?
    ensures forall i :: 0 <= i < |ds| && ds[i].Value? ==> RunningMin(ds).v <= ds[i].v
    ensures exists i :: 0 <= i < |ds| && ds[i] == RunningMin(ds)
  {
    if |ds| > 1 {
      var prefix := ds[..|ds| - 1];
      RunningMinIsMinimum(prefix);
      var j :| 0 <= j < |prefix| && prefix[j] == RunningMin(prefix);
      if Less(ds[|ds| - 1], RunningMin(prefix)) {
        assert ds[|ds| - 1] == RunningMin(ds);
      } else {
        assert ds[j] == RunningMin(ds);
      }
    } else {
      assert ds[0] == RunningMin(ds);
    }
  }

  /** Every distance is a number. */
  predicate AllValues(ds: seq<Num>) {
    forall i :: 0 <= i < |ds| ==> ds[i].Value?
  }

  /** The left fold of the lifted union (Math.Min, which propagates NaN) over the distances. */
  function UnionFold(ds: seq<Num>): Num
    requires |ds| > 0
  {
    if |ds| == 1 then ds[0]
    else Lift(Union, UnionFold(ds[..|ds| - 1]), ds[|ds| - 1])
  }

  /** Without NaN, the running minimum of the loop is the fold of UnionDistance over the members. */
  lemma {:induction false} RunningMinIsUnionFold(ds: seq<Num>)
    requires |ds| > 0 && AllValues(ds)
    ensures RunningMin(ds) == UnionFold(ds)
  {
    if |ds| > 1 {
      var prefix := ds[..|ds| - 1];
      assert AllValues(prefix);
      RunningMinIsUnionFold(prefix);
      RunningMinNaN(prefix);
    }
  }

  /** With a NaN after the first member the two differ: the loop skips it, Math.Min does not. */
  lemma RunningMinSkipsNaN(x: real)
    ensures RunningMin([Value(x), NaN]) == Value(x)
    ensures UnionFold([Value(x), NaN]) == NaN
  {
    assert [Value(x), NaN][..1] == [Value(x)];
  }

  /** The minimum of the distances of xs + ys is the union of the minima of xs and of ys. */
  lemma RunningMinOfConcat(xs: seq<Num>, ys: seq<Num>)
    requires |xs| > 0 && |ys| > 0 && AllValues(xs) && AllValues(ys)
    ensures RunningMin(xs + ys) == Lift(Union, RunningMin(xs), RunningMin(ys))
  {
    var zs := xs + ys;
    assert AllValues(zs);
    RunningMinIsMinimum(xs);
    RunningMinIsMinimum(ys);
    RunningMinIsMinimum(zs);
    var k :| 0 <= k < |zs| && zs[k] == RunningMin(zs);
    var i :| 0 <= i < |xs| && xs[i] == RunningMin(xs);
    var j :| 0 <= j < |ys| && ys[j] == RunningMin(ys);
    assert zs[i] == xs[i] && zs[|xs| + j] == ys[j];
    if k < |xs| {
      assert zs[k] == xs[k];
    } else {
      assert zs[k] == ys[k - |xs|];
    }
  }

  /** The distances of a concatenation are the concatenated distances. */
  lemma DistancesOfConcat(sqrt: real -> real, xs: seq<Shape>, ys: seq<Shape>, point: Vec3)
    requires IsSqrt(sqrt)
    ensures Distances(sqrt, xs + ys, point) == Distances(sqrt, xs, point) + Distances(sqrt, ys, point)
  {
    var zs := xs + ys;
    assert forall i :: 0 <= i < |xs| ==> zs[i] == xs[i];
    assert forall j :: 0 <= j < |ys| ==> zs[|xs| + j] == ys[j];
  }

  /** A group's distance is NaN exactly when it has no member or its first member's distance is NaN. */
  lemma GroupNaN(sqrt: real -> real, shapes: seq<Shape>, point: Vec3)
    requires IsSqrt(sqrt)
    ensures GroupDistance(sqrt, shapes, point).NaN? <==> shapes == [] || ShapeDistance(sqrt, shapes[0], point).NaN?
  {
    if shapes != [] {
      RunningMinNaN(Distances(sqrt, shapes, point));
    }
  }

  /** A member's distance is never below the group's distance once the group's first member has a number for a distance. */
  lemma GroupBelowMembers(sqrt: real -> real, shapes: seq<Shape>, point: Vec3)
    requires IsSqrt(sqrt) && |shapes| > 0 && ShapeDistance(sqrt, shapes[0], point).Value?
    ensures GroupDistance(sqrt, shapes, point).Value?
    ensures forall s <- shapes :: ShapeDistance(sqrt, s, point).Value? ==>
      GroupDistance(sqrt, shapes, point).v <= ShapeDistance(sqrt, s, point).v
    ensures exists s <- shapes :: ShapeDistance(sqrt, s, point) == GroupDistance(sqrt, shapes, point)
  {
    var ds := Distances(sqrt, shapes, point);
    RunningMinIsMinimum(ds);
    var i :| 0 <= i < |ds| && ds[i] == RunningMin(ds);
    assert shapes[i] in shapes;
  }

  /**
   * The union of two groups whose members all have numbers for distances is
   * the group of all their members.
   */
  lemma UnionOfGroups(sqrt: real -> real, xs: seq<Shape>, ys: seq<Shape>, point: Vec3)
    requires IsSqrt(sqrt) && |xs| > 0 && |ys| > 0
    requires forall s <- xs + ys :: ShapeDistance(sqrt, s, point).Value?
    ensures Lift(Union, GroupDistance(sqrt, xs, point), GroupDistance(sqrt, ys, point)) == GroupDistance(sqrt, xs + ys, point)
  {
    var dx, dy := Distances(sqrt, xs, point), Distances(sqrt, ys, point);
    forall i | 0 <= i < |dx| ensures dx[i].Value? {
      assert xs[i] in xs + ys;
    }
    forall j | 0 <= j < |dy| ensures dy[j].Value? {
      assert ys[j] in xs + ys;
    }
    DistancesOfConcat(sqrt, xs, ys, point);
    RunningMinOfConcat(dx, dy);
  }

  /** The list with its first occurrence of x taken out (List.Remove). */
  function RemoveFirst(s: seq<Shape>, x: Shape): seq<Shape> {
    if s == [] then []
    else if s[0] == x then s[1..]
    else [s[0]] + RemoveFirst(s[1..], x)
  }

  /** The position of the first occurrence of x in s. */
  function FirstIndex(s: seq<Shape>, x: Shape): (i: nat)
    requires x in s
    ensures i < |s| && s[i] == x && x !in s[..i]
  {
    if s[0] == x then 0
    else
      assert x in s[1..];
      var j := FirstIndex(s[1..], x);
      assert s[..j + 1] == [s[0]] + s[1..][..j];
      j + 1
  }

  /** Removing a shape that is not in the list changes nothing. */
  lemma {:induction false} RemoveAbsent(s: seq<Shape>, x: Shape)
    requires x !in s
    ensures RemoveFirst(s, x) == s
  {
    if s != [] {
      RemoveAbsent(s[1..], x);
      assert s == [s[0]] + s[1..];
    }
  }

  /** Removing a shape that is in the list takes out its first occurrence and keeps the order of the rest. */
  lemma {:induction false} RemoveFirstOccurrence(s: seq<Shape>, x: Shape)
    requires x in s
    ensures RemoveFirst(s, x) == s[..FirstIndex(s, x)] + s[FirstIndex(s, x) + 1..]
  {
    if s[0] != x {
      var t := s[1..];
      assert x in t;
      RemoveFirstOccurrence(t, x);
      var j := FirstIndex(t, x);
      assert FirstIndex(s, x) == j + 1;
      calc {
        RemoveFirst(s, x);
        [s[0]] + RemoveFirst(t, x);
        [s[0]] + (t[..j] + t[j + 1..]);
        ([s[0]] + t[..j]) + t[j + 1..];
        { assert [s[0]] + t[..j] == s[..j + 1]; assert t[j + 1..] == s[j + 2..]; }
        s[..j + 1] + s[j + 2..];
      }
    } else {
      assert s[..0] == [];
    }
  }

  /** Removing a shape takes one copy of it out of the multiset of members when it is there. */
  lemma {:induction false} RemoveFirstMultiset(s: seq<Shape>, x: Shape)
    ensures multiset(RemoveFirst(s, x)) == multiset(s) - multiset{x}
  {
    if s != [] {
      assert s == [s[0]] + s[1..];
      if s[0] != x {
        RemoveFirstMultiset(s[1..], x);
      }
    }
  }

  /**
   * SdfGroup: the list of member shapes, which Add and Remove change in
   * place, and the distance over it.
   */
  class SdfGroup {
    var shapes: seq<Shape>

    /** The group holds the given shapes, in the given order. */
    constructor(shapes: seq<Shape>)
      ensures this.shapes == shapes
    {
      this.shapes := shapes;
    }

    /** Appends a shape at the end. */
    method Add(shape: Shape)
      modifies this
      ensures shapes == old(shapes) + [shape]
    {
      shapes := shapes + [shape];
    }

    /** Takes out the first occurrence of a shape; reports whether there was one. */
    method Remove(shape: Shape) returns (removed: bool)
      modifies this
      ensures removed <==> shape in old(shapes)
      ensures shapes == RemoveFirst(old(shapes), shape)
    {
      removed := shape in shapes;
      shapes := RemoveFirst(shapes, shape);
    }

    /**
     * The group's distance: NaN for an empty group, otherwise the first
     * member's distance, replaced by every later member's distance that is
     * smaller.
     */
    method Distance(sqrt: real -> real, point: Vec3) returns (d: Num)
      requires IsSqrt(sqrt)
      ensures d == GroupDistance(sqrt, shapes, point)
    {
      if |shapes| == 0 {
        return NaN;
      }
      ghost var ds := Distances(sqrt, shapes, point);
      var min := ShapeDistance(sqrt, shapes[0], point);
      var i := 1;
      assert ds[..1] == [min];
      while i < |shapes|
        invariant 1 <= i <= |shapes|
        invariant min == RunningMin(ds[..i])
      {
        var dist := ShapeDistance(sqrt, shapes[i], point);
        assert ds[..i + 1][..i] == ds[..i] && ds[..i + 1][i] == dist;
        if Less(dist, min) {
          min := dist;
        }
        i := i + 1;
      }
      assert ds[..i] == ds;
      return min;
    }

    /** UnionDistance with another shape: Math.Min of the two distances. */
    method UnionDistance(sqrt: real -> real, other: Shape, point: Vec3) returns (d: Num)
      requires IsSqrt(sqrt)
      ensures d == Lift(Union, GroupDistance(sqrt, shapes, point), ShapeDistance(sqrt, other, point))
    {
      var mine := Distance(sqrt, point);
      d := Lift(Union, mine, ShapeDistance(sqrt, other, point));
    }

    /** SubtractionDistance with another shape: Math.Max of the negated own distance and the other's. */
    method SubtractionDistance(sqrt: real -> real, other: Shape, point: Vec3) returns (d: Num)
      requires IsSqrt(sqrt)
      ensures d == Lift(Subtraction, GroupDistance(sqrt, shapes, point), ShapeDistance(sqrt, other, point))
    {
      var mine := Distance(sqrt, point);
      d := Lift(Subtraction, mine, ShapeDistance(sqrt, other, point));
    }

    /** IntersectionDistance with another shape: Math.Max of the two distances. */
    method IntersectionDistance(sqrt: real -> real, other: Shape, point: Vec3) returns (d: Num)
      requires IsSqrt(sqrt)
      ensures d == Lift(Intersection, GroupDistance(sqrt, shapes, point), ShapeDistance(sqrt, other, point))
    {
      var mine := Distance(sqrt, point);
      d := Lift(Intersection, mine, ShapeDistance(sqrt, other, point));
    }

    /** XorDistance with another shape. */
    method XorDistance(sqrt: real -> real, other: Shape, point: Vec3) returns (d: Num)
      requires IsSqrt(sqrt)
      ensures d == Lift(Xor, GroupDistance(sqrt, shapes, point), ShapeDistance(sqrt, other, point))
    {
      var mine := Distance(sqrt, point);
      d := Lift(Xor, mine, ShapeDistance(sqrt, other, point));
    }
  }
}
