/** Ray-sphere intersection: the roots of the quadratic in the ray parameter
    t, and the selection of the nearest root in an open range over all
    spheres of the scene. */
module Intersection {
  import opened JsValues
  import opened VectorMath
  import opened SceneModel

  /** The coefficients of the quadratic k1 t^2 + k2 t + k3, which is zero
      exactly where origin + t direction lies on the sphere. */
  datatype Quadratic = Quadratic(k1: real, k2: real, k3: real)

  function Coefficients(origin: Vec3, direction: Vec3, sphere: Sphere): Quadratic {
    var oc := Subtract(origin, sphere.center);
    Quadratic(DotProduct(direction, direction),
              2.0 * DotProduct(oc, direction),
              DotProduct(oc, oc) - sphere.radius * sphere.radius)
  }

  function Discriminant(q: Quadratic): real {
    q.k2 * q.k2 - 4.0 * q.k1 * q.k3
  }

  function Evaluate(q: Quadratic, t: real): real {
    q.k1 * t * t + q.k2 * t + q.k3
  }

  /** The point reached after travelling t along the ray. */
  function PointAt(origin: Vec3, direction: Vec3, t: real): Vec3 {
    Add(origin, Multiply(t, direction))
  }

  /** The ray at t is on the sphere: its squared distance to the centre is
      the squared radius. */
  predicate OnSphere(origin: Vec3, direction: Vec3, t: real, sphere: Sphere) {
    var d := Subtract(PointAt(origin, direction, t), sphere.center);
    DotProduct(d, d) == sphere.radius * sphere.radius
  }

  /** The two parameters at which the ray meets the sphere, `[t1, t2]` with
      t1 computed with +sqrt and t2 with -sqrt. A negative discriminant gives
      `[Infinity, Infinity]`; a zero direction (k1 = 0, hence k2 = 0 and a
      zero discriminant) divides 0 by 0 and gives NaN twice. */
  function IntersectRaySphere(h: Host, origin: Vec3, direction: Vec3, sphere: Sphere): (Num, Num) {
    var q := Coefficients(origin, direction, sphere);
    var discriminant := Discriminant(q);
    if discriminant < 0.0 then (PosInf, PosInf)
    else if q.k1 == 0.0 then (NaN, NaN)
    else
      (Fin((-q.k2 + Sqrt(h, discriminant)) / (2.0 * q.k1)),
       Fin((-q.k2 - Sqrt(h, discriminant)) / (2.0 * q.k1)))
  }

  /** The quadratic is the squared distance to the centre minus the squared radius. */
  lemma EvaluateIsDistance(origin: Vec3, direction: Vec3, t: real, sphere: Sphere)
    ensures var d := Subtract(PointAt(origin, direction, t), sphere.center);
      Evaluate(Coefficients(origin, direction, sphere), t) ==
      DotProduct(d, d) - sphere.radius * sphere.radius
  {
    var oc := Subtract(origin, sphere.center);
    var d := Subtract(PointAt(origin, direction, t), sphere.center);
    ExpandSquare(oc.x, direction.x, t, d.x);
    ExpandSquare(oc.y, direction.y, t, d.y);
    ExpandSquare(oc.z, direction.z, t, d.z);
    Collect(direction.x * direction.x, direction.y * direction.y, direction.z * direction.z,
            oc.x * direction.x, oc.y * direction.y, oc.z * direction.z,
            oc.x * oc.x, oc.y * oc.y, oc.z * oc.z, t, sphere.radius * sphere.radius);
  }

  lemma ExpandSquare(a: real, b: real, t: real, e: real)
    requires e == a + t * b
    ensures e * e == b * b * t * t + 2.0 * (a * b) * t + a * a
  {
  }

  lemma Collect(p1: real, p2: real, p3: real, m1: real, m2: real, m3: real,
                c1: real, c2: real, c3: real, t: real, rr: real)
    ensures (p1 + p2 + p3) * t * t + 2.0 * (m1 + m2 + m3) * t + (c1 + c2 + c3 - rr) ==
            (p1 * t * t + 2.0 * m1 * t + c1) + (p2 * t * t + 2.0 * m2 * t + c2) +
            (p3 * t * t + 2.0 * m3 * t + c3) - rr
  {
  }

  /** r with r^2 equal to the discriminant gives a root (-k2 + r) / (2 k1). */
  lemma QuadraticFormula(q: Quadratic, r: real, t: real)
    requires q.k1 != 0.0
    requires r * r == Discriminant(q)
    requires t * (2.0 * q.k1) == -q.k2 + r
    ensures Evaluate(q, t) == 0.0
  {
    var u := t * (2.0 * q.k1);
    SquareBoth(u, -q.k2 + r);
    ScaleBoth(q.k2, u, -q.k2 + r);
    assert 4.0 * q.k1 * Evaluate(q, t) == u * u + 2.0 * q.k2 * u + 4.0 * q.k1 * q.k3;
    ZeroProduct(4.0 * q.k1, Evaluate(q, t));
  }

  /** Every finite parameter the root finder returns is a point on the sphere. */
  lemma RootsOnSphere(h: Host, origin: Vec3, direction: Vec3, sphere: Sphere)
    requires ValidHost(h)
    ensures var ts := IntersectRaySphere(h, origin, direction, sphere);
      (ts.0.Fin? ==> OnSphere(origin, direction, ts.0.v, sphere)) &&
      (ts.1.Fin? ==> OnSphere(origin, direction, ts.1.v, sphere))
  {
    var q := Coefficients(origin, direction, sphere);
    var discriminant := Discriminant(q);
    if 0.0 <= discriminant && q.k1 != 0.0 {
      var s := Sqrt(h, discriminant);
      assert Square(s) == discriminant;
      var t1 := (-q.k2 + s) / (2.0 * q.k1);
      var t2 := (-q.k2 - s) / (2.0 * q.k1);
      DivideThenMultiply(-q.k2 + s, 2.0 * q.k1);
      DivideThenMultiply(-q.k2 - s, 2.0 * q.k1);
      QuadraticFormula(q, s, t1);
      QuadraticFormula(q, -s, t2);
      EvaluateIsDistance(origin, direction, t1, sphere);
      EvaluateIsDistance(origin, direction, t2, sphere);
    }
  }

  /** At a root the discriminant is a square: (2 k1 t + k2)^2. */
  lemma DiscriminantAtRoot(q: Quadratic, t: real)
    requires Evaluate(q, t) == 0.0
    ensures Discriminant(q) == (t * (2.0 * q.k1) + q.k2) * (t * (2.0 * q.k1) + q.k2)
    ensures 0.0 <= Discriminant(q)
  {
    var u := t * (2.0 * q.k1) + q.k2;
    ScaleBoth(4.0 * q.k1, q.k1 * t * t + q.k2 * t + q.k3, 0.0);
    assert u * u == Discriminant(q);
    SquareNonNegative(u, Discriminant(q));
  }

  /** Every root is one of the two the quadratic formula gives. */
  lemma RootIsGivenByFormula(q: Quadratic, s: real, t: real)
    requires q.k1 != 0.0
    requires 0.0 <= s && s * s == Discriminant(q)
    requires Evaluate(q, t) == 0.0
    ensures t == (-q.k2 + s) / (2.0 * q.k1) || t == (-q.k2 - s) / (2.0 * q.k1)
  {
    DiscriminantAtRoot(q, t);
    var u := t * (2.0 * q.k1) + q.k2;
    SameSquare(u, s, Discriminant(q));
    if u == s {
      SolveLinear(t, 2.0 * q.k1, -q.k2 + s);
    } else {
      SolveLinear(t, 2.0 * q.k1, -q.k2 - s);
    }
  }

  /** Conversely, every point where a ray of non-zero direction meets the
      sphere is one of the two returned parameters. */
  lemma ContactIsRoot(h: Host, origin: Vec3, direction: Vec3, sphere: Sphere, t: real)
    requires ValidHost(h)
    requires direction != Zero
    requires OnSphere(origin, direction, t, sphere)
    ensures var ts := IntersectRaySphere(h, origin, direction, sphere);
      ts.0 == Fin(t) || ts.1 == Fin(t)
  {
    var q := Coefficients(origin, direction, sphere);
    DotProductSelf(direction);
    EvaluateIsDistance(origin, direction, t, sphere);
    DiscriminantAtRoot(q, t);
    assert Square(Sqrt(h, Discriminant(q))) == Discriminant(q);
    RootIsGivenByFormula(q, Sqrt(h, Discriminant(q)), t);
  }

  /** A ray whose discriminant is negative meets the sphere nowhere. */
  lemma NegativeDiscriminantMisses(origin: Vec3, direction: Vec3, sphere: Sphere)
    requires Discriminant(Coefficients(origin, direction, sphere)) < 0.0
    ensures forall t :: !OnSphere(origin, direction, t, sphere)
  {
    forall t
      ensures !OnSphere(origin, direction, t, sphere)
    {
      EvaluateIsDistance(origin, direction, t, sphere);
      if OnSphere(origin, direction, t, sphere) {
        DiscriminantAtRoot(Coefficients(origin, direction, sphere), t);
      }
    }
  }

  // ---------------------------------------------------------------------
  // Closest-hit selection
  // ---------------------------------------------------------------------

  /** The sphere found (by its position in the scene list) and its parameter. */
  datatype Hit = Hit(index: nat, t: real)

  /** `closest_t`: Infinity while no sphere has been found. */
  function Bound(best: Option<Hit>): Num {
    if best.Some? then Fin(best.value.t) else PosInf
  }

  /** The open range (min_t, max_t) of ray parameters that count. */
  predicate InRange(t: Num, minT: real, maxT: Num) {
    Less(Fin(minT), t) && Less(t, maxT)
  }

  /** One comparison of the selection loop: the candidate replaces the best
      so far only when it is strictly smaller and strictly inside the range. */
  function Consider(best: Option<Hit>, t: Num, i: nat, minT: real, maxT: Num): Option<Hit> {
    if Less(t, Bound(best)) && InRange(t, minT, maxT) then Some(Hit(i, t.v)) else best
  }

  /** The root pairs of all spheres, in scene order. */
  function AllRoots(h: Host, spheres: seq<Sphere>, origin: Vec3, direction: Vec3): (roots: seq<(Num, Num)>)
    ensures |roots| == |spheres|
    ensures forall i :: 0 <= i < |spheres| ==> roots[i] == IntersectRaySphere(h, origin, direction, spheres[i])
  {
    seq(|spheres|, i requires 0 <= i < |spheres| => IntersectRaySphere(h, origin, direction, spheres[i]))
  }

  /** t is one of the two values of root pair i. */
  predicate IsRootOf(roots: seq<(Num, Num)>, i: int, t: real) {
    0 <= i < |roots| && (roots[i].0 == Fin(t) || roots[i].1 == Fin(t))
  }

  /** The selection over the first n root pairs, t1 before t2 for each. */
  function ClosestAmong(roots: seq<(Num, Num)>, minT: real, maxT: Num, n: nat): (best: Option<Hit>)
    requires n <= |roots|
    ensures best.Some? ==>
      best.value.index < n && InRange(Fin(best.value.t), minT, maxT) &&
      IsRootOf(roots, best.value.index, best.value.t)
  {
    if n == 0 then None
    else
      var ts := roots[n - 1];
      var before := ClosestAmong(roots, minT, maxT, n - 1);
      Consider(Consider(before, ts.0, n - 1, minT, maxT), ts.1, n - 1, minT, maxT)
  }

  /** The selected value is the least in-range root of the first n pairs,
      and it is strictly less than every in-range root of a pair listed
      before the selected one: on a tie the earlier sphere wins. When
      nothing is selected, no pair has a root in range. */
  lemma {:induction false} ClosestAmongIsLeast(roots: seq<(Num, Num)>, minT: real, maxT: Num, n: nat)
    requires n <= |roots|
    ensures var best := ClosestAmong(roots, minT, maxT, n);
      (best.Some? ==>
        (forall i, t :: 0 <= i < n && IsRootOf(roots, i, t) && InRange(Fin(t), minT, maxT)
                        ==> best.value.t <= t) &&
        (forall i, t :: 0 <= i < best.value.index && IsRootOf(roots, i, t) && InRange(Fin(t), minT, maxT)
                        ==> best.value.t < t)) &&
      (best.None? ==>
        forall i, t :: 0 <= i < n && IsRootOf(roots, i, t) ==> !InRange(Fin(t), minT, maxT))
  {
    if n > 0 {
      ClosestAmongIsLeast(roots, minT, maxT, n - 1);
      var before := ClosestAmong(roots, minT, maxT, n - 1);
      var middle := Consider(before, roots[n - 1].0, n - 1, minT, maxT);
      ConsiderStep(before, roots[n - 1].0, n - 1, minT, maxT);
      ConsiderStep(middle, roots[n - 1].1, n - 1, minT, maxT);
    }
  }

  /** One comparison keeps the least value seen: the result is no larger
      than the old best or an in-range candidate, and it is either the old
      best or the candidate, which then lies in range and is strictly below
      the old best. */
  lemma ConsiderStep(best: Option<Hit>, t: Num, i: nat, minT: real, maxT: Num)
    ensures var r := Consider(best, t, i, minT, maxT);
      (InRange(t, minT, maxT) ==> r.Some? && r.value.t <= t.v) &&
      (best.Some? ==> r.Some? && r.value.t <= best.value.t) &&
      (r == best ||
       (r == Some(Hit(i, t.v)) && InRange(t, minT, maxT) && (best.Some? ==> t.v < best.value.t)))
  {
  }

  /** t is one of the two parameters the root finder returns for sphere i. */
  predicate IsRoot(h: Host, spheres: seq<Sphere>, origin: Vec3, direction: Vec3, i: int, t: real) {
    0 <= i < |spheres| &&
    var ts := IntersectRaySphere(h, origin, direction, spheres[i]);
    ts.0 == Fin(t) || ts.1 == Fin(t)
  }

  /** t is a root of sphere i that lies in the open range. */
  predicate Candidate(h: Host, spheres: seq<Sphere>, origin: Vec3, direction: Vec3,
                      minT: real, maxT: Num, i: int, t: real) {
    IsRoot(h, spheres, origin, direction, i, t) && InRange(Fin(t), minT, maxT)
  }

  /** The result of ClosestIntersection: the selection over all spheres,
      which, when it finds one, names an in-range root of a listed sphere. */
  function ClosestHit(h: Host, spheres: seq<Sphere>, origin: Vec3, direction: Vec3,
                      minT: real, maxT: Num): (best: Option<Hit>)
    ensures best.Some? ==>
      best.value.index < |spheres| &&
      Candidate(h, spheres, origin, direction, minT, maxT, best.value.index, best.value.t)
  {
    ClosestAmong(AllRoots(h, spheres, origin, direction), minT, maxT, |spheres|)
  }

  /** A selected hit is an in-range root of its sphere; it is the least
      in-range root over all spheres and strictly less than those of the
      spheres listed before it. Nothing is selected exactly when no sphere
      has a root in range. */
  lemma ClosestHitIsLeast(h: Host, spheres: seq<Sphere>, origin: Vec3, direction: Vec3, minT: real, maxT: Num)
    ensures var best := ClosestHit(h, spheres, origin, direction, minT, maxT);
      (best.Some? ==>
        Candidate(h, spheres, origin, direction, minT, maxT, best.value.index, best.value.t) &&
        (forall i, t :: Candidate(h, spheres, origin, direction, minT, maxT, i, t) ==> best.value.t <= t) &&
        (forall i, t :: i < best.value.index && Candidate(h, spheres, origin, direction, minT, maxT, i, t)
                        ==> best.value.t < t)) &&
      (best.None? <==> forall i, t :: !Candidate(h, spheres, origin, direction, minT, maxT, i, t))
  {
    var roots := AllRoots(h, spheres, origin, direction);
    ClosestAmongIsLeast(roots, minT, maxT, |spheres|);
    forall i, t
      ensures Candidate(h, spheres, origin, direction, minT, maxT, i, t) <==>
              (IsRootOf(roots, i, t) && InRange(Fin(t), minT, maxT))
    {
    }
  }

  /** Geometrically: for a ray of non-zero direction the selection is the
      nearest point, within the range, where the ray meets any sphere. */
  lemma ClosestHitIsNearestContact(h: Host, spheres: seq<Sphere>, origin: Vec3, direction: Vec3,
                                   minT: real, maxT: Num)
    requires ValidHost(h)
    requires direction != Zero
    ensures var best := ClosestHit(h, spheres, origin, direction, minT, maxT);
      (best.Some? ==>
        OnSphere(origin, direction, best.value.t, spheres[best.value.index]) &&
        forall i, t ::
          (0 <= i < |spheres| && OnSphere(origin, direction, t, spheres[i]) && InRange(Fin(t), minT, maxT))
          ==> best.value.t <= t) &&
      (best.None? ==>
        forall i, t ::
          (0 <= i < |spheres| && OnSphere(origin, direction, t, spheres[i]))
          ==> !InRange(Fin(t), minT, maxT))
  {
    var best := ClosestHit(h, spheres, origin, direction, minT, maxT);
    ClosestHitIsLeast(h, spheres, origin, direction, minT, maxT);
    if best.Some? {
      RootsOnSphere(h, origin, direction, spheres[best.value.index]);
    }
    forall i, t | 0 <= i < |spheres| && OnSphere(origin, direction, t, spheres[i])
      ensures Candidate(h, spheres, origin, direction, minT, maxT, i, t) <==> InRange(Fin(t), minT, maxT)
    {
      ContactIsRoot(h, origin, direction, spheres[i], t);
    }
  }

  /** A sphere the ray misses, whose roots are [Infinity, Infinity], is never selected. */
  lemma MissedSphereNeverSelected(h: Host, spheres: seq<Sphere>, origin: Vec3, direction: Vec3,
                                  minT: real, maxT: Num, i: nat)
    requires i < |spheres|
    requires Discriminant(Coefficients(origin, direction, spheres[i])) < 0.0
    ensures var best := ClosestHit(h, spheres, origin, direction, minT, maxT);
      best.Some? ==> best.value.index != i
  {
  }

  /** The source's loop: closest_t and closest_sphere are updated in place,
      root t1 being tested before t2, and the pair is returned only when a
      sphere was found. */
  method ClosestIntersection(h: Host, spheres: seq<Sphere>, origin: Vec3, direction: Vec3,
                             minT: real, maxT: Num) returns (result: Option<Hit>)
    ensures result == ClosestHit(h, spheres, origin, direction, minT, maxT)
  {
    var closestT := PosInf;
    var closestSphere: Option<nat> := None;
    ghost var roots := AllRoots(h, spheres, origin, direction);
    var i := 0;
    while i < |spheres|
      invariant 0 <= i <= |spheres|
      invariant var best := ClosestAmong(roots, minT, maxT, i);
        closestT == Bound(best) &&
        closestSphere == (if best.Some? then Some(best.value.index) else None)
    {
      var ts := IntersectRaySphere(h, origin, direction, spheres[i]);
      assert ts == roots[i];
      if Less(ts.0, closestT) && Less(Fin(minT), ts.0) && Less(ts.0, maxT) {
        closestT := ts.0;
        closestSphere := Some(i);
      }
      if Less(ts.1, closestT) && Less(Fin(minT), ts.1) && Less(ts.1, maxT) {
        closestT := ts.1;
        closestSphere := Some(i);
      }
      i := i + 1;
    }
    if closestSphere.Some? {
      result := Some(Hit(closestSphere.value, closestT.v));
    } else {
      result := None;
    }
  }
}
