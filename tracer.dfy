/** The recursive tracer: the colour seen along a ray, mixing the lit colour
    of the nearest sphere with the colour seen along its mirror reflection,
    and the mapping from canvas coordinates to the viewport. */
module Tracer {
  import opened JsValues
  import opened VectorMath
  import opened SceneModel
  import opened Intersection
  import opened Lighting

  /** The viewport point a canvas pixel looks through: the canvas coordinates
      scaled by viewport size over canvas size, at the depth of the projection
      plane. Scaling back by the canvas size recovers the pixel. */
  function CanvasToViewport(x: real, y: real, width: real, height: real,
                            viewportSize: real, projectionZ: real): (r: Vec3)
    requires width != 0.0 && height != 0.0
    ensures r.x * width == x * viewportSize
    ensures r.y * height == y * viewportSize
    ensures r.z == projectionZ
  {
    DivideThenMultiply(x * viewportSize, width);
    DivideThenMultiply(y * viewportSize, height);
    Vec3(x * viewportSize / width, y * viewportSize / height, projectionZ)
  }

  /** A surface point found by the closest-hit search is not the centre of
      its sphere, since it lies on a sphere of positive radius. */
  lemma HitAwayFromCenter(h: Host, spheres: seq<Sphere>, origin: Vec3, direction: Vec3,
                          minT: real, maxT: Num, hit: Hit)
    requires ValidHost(h) && ValidSpheres(spheres)
    requires ClosestHit(h, spheres, origin, direction, minT, maxT) == Some(hit)
    ensures hit.index < |spheres|
    ensures Subtract(PointAt(origin, direction, hit.t), spheres[hit.index].center) != Zero
  {
    var sphere := spheres[hit.index];
    RootsOnSphere(h, origin, direction, sphere);
    assert OnSphere(origin, direction, hit.t, sphere);
    var d := Subtract(PointAt(origin, direction, hit.t), sphere.center);
    OffsetOfPositiveRadius(d, sphere.radius);
  }

  lemma OffsetOfPositiveRadius(d: Vec3, radius: real)
    requires 0.0 < radius && DotProduct(d, d) == radius * radius
    ensures d != Zero
  {
    if d == Zero {
      ZeroProduct(radius, radius);
    }
  }

  /** The unit normal at a surface point: the offset from the centre divided
      by its length. */
  function SurfaceNormal(h: Host, point: Vec3, center: Vec3): (normal: Vec3)
    requires ValidHost(h)
    requires Subtract(point, center) != Zero
    ensures DotProduct(normal, normal) == 1.0
  {
    var n := Subtract(point, center);
    var k := 1.0 / Length(h, n);
    LengthSquared(h, n);
    MultiplyDotProduct(k, n, n);
    MultiplyDotProduct(k, n, Multiply(k, n));
    UnitScale(k, Length(h, n), DotProduct(n, n));
    Multiply(k, n)
  }

  /** Scaling by the reciprocal of a positive length whose square is s
      gives squared length 1. */
  lemma UnitScale(k: real, length: real, s: real)
    requires 0.0 < length && Square(length) == s && k == 1.0 / length
    ensures k * (k * s) == 1.0
  {
    DivideThenMultiply(1.0, length);
    assert k * length == 1.0;
    assert k * (k * s) == (k * length) * (k * length);
  }

  /** The hit point, the unit normal there and the view vector (the ray
      direction reversed) of a hit found by the closest-hit search. */
  datatype Frame = Frame(point: Vec3, normal: Vec3, view: Vec3)

  function HitFrame(h: Host, spheres: seq<Sphere>, origin: Vec3, direction: Vec3,
                    minT: real, maxT: Num, hit: Hit): (f: Frame)
    requires ValidHost(h) && ValidSpheres(spheres)
    requires ClosestHit(h, spheres, origin, direction, minT, maxT) == Some(hit)
    ensures hit.index < |spheres|
    ensures f.point == PointAt(origin, direction, hit.t)
    ensures f.view == Multiply(-1.0, direction)
    ensures DotProduct(f.normal, f.normal) == 1.0
  {
    HitAwayFromCenter(h, spheres, origin, direction, minT, maxT, hit);
    var point := PointAt(origin, direction, hit.t);
    Frame(point, SurfaceNormal(h, point, spheres[hit.index].center), Multiply(-1.0, direction))
  }

  /** The reflected ray that TraceRay follows from a hit is the view vector
      mirrored about the unit normal: it has the view vector's length and
      makes the same angle with the normal, and mirroring it again gives
      back the view vector. */
  lemma ReflectedRayMirrorsView(h: Host, spheres: seq<Sphere>, origin: Vec3, direction: Vec3,
                                minT: real, maxT: Num, hit: Hit)
    requires ValidHost(h) && ValidSpheres(spheres)
    requires ClosestHit(h, spheres, origin, direction, minT, maxT) == Some(hit)
    ensures var f := HitFrame(h, spheres, origin, direction, minT, maxT, hit);
      var reflected := ReflectRay(f.view, f.normal);
      DotProduct(reflected, reflected) == DotProduct(f.view, f.view) &&
      DotProduct(reflected, f.normal) == DotProduct(f.view, f.normal) &&
      ReflectRay(reflected, f.normal) == f.view
  {
    var f := HitFrame(h, spheres, origin, direction, minT, maxT, hit);
    ReflectRayPreservesLength(f.view, f.normal);
    ReflectRayKeepsAxisComponent(f.view, f.normal);
    ReflectRayInvolution(f.view, f.normal);
  }

  /** The colour of the hit sphere scaled by the light reaching the hit
      point, before any reflection. */
  function LocalColor(h: Host, spheres: seq<Sphere>, lights: seq<Light>, origin: Vec3, direction: Vec3,
                      minT: real, maxT: Num, hit: Hit): Color
    requires ValidHost(h) && ValidSpheres(spheres)
    requires ClosestHit(h, spheres, origin, direction, minT, maxT) == Some(hit)
  {
    var f := HitFrame(h, spheres, origin, direction, minT, maxT, hit);
    var sphere := spheres[hit.index];
    Multiply(LightingSum(h, spheres, lights, f.point, f.normal, f.view, sphere.specular), sphere.color)
  }

  /** The colour traced along a ray: the background when no sphere meets
      the ray in (minT, maxT); otherwise the local colour, mixed, when the
      sphere is reflective and depth remains, with the colour traced once
      more along the reflected ray from the hit point with one less depth. */
  function TraceRay(h: Host, spheres: seq<Sphere>, lights: seq<Light>, background: Color,
                    origin: Vec3, direction: Vec3, minT: real, maxT: Num, depth: int): Color
    requires ValidHost(h) && ValidSpheres(spheres)
    decreases if depth < 0 then 0 else depth
  {
    match ClosestHit(h, spheres, origin, direction, minT, maxT)
    case None => background
    case Some(hit) =>
      var sphere := spheres[hit.index];
      var localColor := LocalColor(h, spheres, lights, origin, direction, minT, maxT, hit);
      if sphere.reflective <= 0.0 || depth <= 0 then localColor
      else
        var f := HitFrame(h, spheres, origin, direction, minT, maxT, hit);
        var reflectedColor :=
          TraceRay(h, spheres, lights, background, f.point, ReflectRay(f.view, f.normal), Epsilon, PosInf, depth - 1);
        Add(Multiply(1.0 - sphere.reflective, localColor), Multiply(sphere.reflective, reflectedColor))
  }

  /** A ray that meets no sphere inside (minT, maxT) sees the background,
      whatever the depth. */
  lemma MissSeesBackground(h: Host, spheres: seq<Sphere>, lights: seq<Light>, background: Color,
                           origin: Vec3, direction: Vec3, minT: real, maxT: Num, depth: int)
    requires ValidHost(h) && ValidSpheres(spheres)
    requires direction != Zero
    requires forall i, t :: 0 <= i < |spheres| && OnSphere(origin, direction, t, spheres[i])
                            ==> !InRange(Fin(t), minT, maxT)
    ensures TraceRay(h, spheres, lights, background, origin, direction, minT, maxT, depth) == background
  {
    ClosestHitIsNearestContact(h, spheres, origin, direction, minT, maxT);
  }

  /** A hit on a sphere that does not reflect, or a hit when no depth is
      left, gives the local colour: nothing further is traced. */
  lemma StopsAtLocalColor(h: Host, spheres: seq<Sphere>, lights: seq<Light>, background: Color,
                          origin: Vec3, direction: Vec3, minT: real, maxT: Num, depth: int, hit: Hit)
    requires ValidHost(h) && ValidSpheres(spheres)
    requires ClosestHit(h, spheres, origin, direction, minT, maxT) == Some(hit)
    requires spheres[hit.index].reflective <= 0.0 || depth <= 0
    ensures TraceRay(h, spheres, lights, background, origin, direction, minT, maxT, depth) ==
            LocalColor(h, spheres, lights, origin, direction, minT, maxT, hit)
  {
  }

  /** In a scene without reflective spheres the depth does not matter. */
  lemma DepthIrrelevantWithoutMirrors(h: Host, spheres: seq<Sphere>, lights: seq<Light>, background: Color,
                                      origin: Vec3, direction: Vec3, minT: real, maxT: Num,
                                      depth1: int, depth2: int)
    requires ValidHost(h) && ValidSpheres(spheres)
    requires forall i :: 0 <= i < |spheres| ==> spheres[i].reflective <= 0.0
    ensures TraceRay(h, spheres, lights, background, origin, direction, minT, maxT, depth1) ==
            TraceRay(h, spheres, lights, background, origin, direction, minT, maxT, depth2)
  {
  }

  /** The number of rays one call of TraceRay traces: this function mirrors
      TraceRay's branching, counting the call itself plus the rays of its
      single recursive call along the reflected ray. The count is at least
      one and at most depth + 1 (none below depth 0). */
  function RaysTraced(h: Host, spheres: seq<Sphere>, origin: Vec3, direction: Vec3,
                      minT: real, maxT: Num, depth: int): (n: nat)
    requires ValidHost(h) && ValidSpheres(spheres)
    ensures 1 <= n <= (if depth < 0 then 0 else depth) + 1
    decreases if depth < 0 then 0 else depth
  {
    match ClosestHit(h, spheres, origin, direction, minT, maxT)
    case None => 1
    case Some(hit) =>
      if spheres[hit.index].reflective <= 0.0 || depth <= 0 then 1
      else
        var f := HitFrame(h, spheres, origin, direction, minT, maxT, hit);
        1 + RaysTraced(h, spheres, f.point, ReflectRay(f.view, f.normal), Epsilon, PosInf, depth - 1)
  }

  /** With non-negative colours and intensities and reflectiveness at most 1,
      every traced colour is non-negative: the local colour is, and the
      reflection mix is a convex combination. */
  lemma {:induction false} TraceRayNonNegative(h: Host, spheres: seq<Sphere>, lights: seq<Light>,
                                               background: Color, origin: Vec3, direction: Vec3,
                                               minT: real, maxT: Num, depth: int)
    requires ValidHost(h) && ValidSpheres(spheres)
    requires PhysicalScene(spheres, lights, background)
    ensures NonNegativeColor(TraceRay(h, spheres, lights, background, origin, direction, minT, maxT, depth))
    decreases if depth < 0 then 0 else depth
  {
    match ClosestHit(h, spheres, origin, direction, minT, maxT)
    case None =>
    case Some(hit) =>
      var sphere := spheres[hit.index];
      var f := HitFrame(h, spheres, origin, direction, minT, maxT, hit);
      LightingSumNonNegative(h, spheres, lights, f.point, f.normal, f.view, sphere.specular);
      var local := LocalColor(h, spheres, lights, origin, direction, minT, maxT, hit);
      ScaleNonNegative(LightingSum(h, spheres, lights, f.point, f.normal, f.view, sphere.specular), sphere.color);
      if 0.0 < sphere.reflective && 0 < depth {
        var reflected :=
          TraceRay(h, spheres, lights, background, f.point, ReflectRay(f.view, f.normal), Epsilon, PosInf, depth - 1);
        TraceRayNonNegative(h, spheres, lights, background, f.point, ReflectRay(f.view, f.normal),
                            Epsilon, PosInf, depth - 1);
        ScaleNonNegative(1.0 - sphere.reflective, local);
        ScaleNonNegative(sphere.reflective, reflected);
      }
  }

  lemma ScaleNonNegative(k: real, c: Color)
    requires 0.0 <= k && NonNegativeColor(c)
    ensures NonNegativeColor(Multiply(k, c))
  {
  }

  /** Under a single ambient light of intensity 1, a sphere that does not
      reflect shows exactly its own colour wherever a ray hits it. */
  lemma AmbientLightShowsOwnColor(h: Host, spheres: seq<Sphere>, background: Color, origin: Vec3,
                                  direction: Vec3, minT: real, maxT: Num, depth: int, hit: Hit)
    requires ValidHost(h) && ValidSpheres(spheres)
    requires ClosestHit(h, spheres, origin, direction, minT, maxT) == Some(hit)
    requires spheres[hit.index].reflective <= 0.0
    ensures TraceRay(h, spheres, [Ambient(1.0)], background, origin, direction, minT, maxT, depth) ==
            spheres[hit.index].color
  {
    var f := HitFrame(h, spheres, origin, direction, minT, maxT, hit);
    assert LightingSum(h, spheres, [Ambient(1.0)], f.point, f.normal, f.view, spheres[hit.index].specular) == 1.0;
  }
}
