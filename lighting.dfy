/** Light accumulation at a surface point: ambient light, shadow tests
    against the scene, diffuse and specular reflection. */
module Lighting {
  import opened JsValues
  import opened VectorMath
  import opened SceneModel
  import opened Intersection

  /** The shadow ray of a point or directional light: the vector towards
      the light and the upper end of the range in which a sphere blocks it.
      A point light is blocked only by a sphere between the point and the
      light (t < 1), a directional light by any sphere along the ray. */
  function ShadowRay(light: Light, point: Vec3): (Vec3, Num)
    requires !light.Ambient?
  {
    if light.Point? then (Subtract(light.position, point), Fin(1.0))
    else (light.direction, PosInf)
  }

  /** The light is blocked: some sphere meets the shadow ray inside (Epsilon, t_max). */
  predicate Shadowed(h: Host, spheres: seq<Sphere>, light: Light, point: Vec3)
    requires !light.Ambient?
  {
    var (vecL, tMax) := ShadowRay(light, point);
    ClosestHit(h, spheres, point, vecL, Epsilon, tMax).Some?
  }

  /** Diffuse reflection: intensity times the cosine of the angle between
      the normal and the light vector, when that cosine is positive. */
  function Diffuse(h: Host, intensity: real, normal: Vec3, vecL: Vec3): real
    requires ValidHost(h)
  {
    var nDotL := DotProduct(normal, vecL);
    if 0.0 < nDotL then
      PositiveDotProductLengths(h, normal, vecL);
      intensity * nDotL / (Length(h, normal) * Length(h, vecL))
    else 0.0
  }

  /** Specular reflection: for a surface that is not matte (a specular
      exponent other than -1), intensity times the cosine between the light
      vector reflected about the normal and the view vector, raised to the
      specular exponent, when that cosine is positive. */
  function Specular(h: Host, intensity: real, normal: Vec3, view: Vec3, vecL: Vec3, specular: real): real
    requires ValidHost(h)
  {
    if specular != -1.0 then
      var vecR := ReflectRay(vecL, normal);
      var rDotV := DotProduct(vecR, view);
      if 0.0 < rDotV then
        PositiveDotProductLengths(h, vecR, view);
        intensity * Pow(h, rDotV / (Length(h, vecR) * Length(h, view)), specular)
      else 0.0
    else 0.0
  }

  /** What one light adds to the intensity at the point. */
  function LightTerm(h: Host, spheres: seq<Sphere>, point: Vec3, normal: Vec3, view: Vec3,
                     specular: real, light: Light): real
    requires ValidHost(h)
  {
    if light.Ambient? then light.intensity
    else if Shadowed(h, spheres, light, point) then 0.0
    else
      var vecL := ShadowRay(light, point).0;
      Diffuse(h, light.intensity, normal, vecL) + Specular(h, light.intensity, normal, view, vecL, specular)
  }

  /** The intensity after the loop has visited the given lights in order. */
  function LightingSum(h: Host, spheres: seq<Sphere>, lights: seq<Light>, point: Vec3, normal: Vec3,
                       view: Vec3, specular: real): real
    requires ValidHost(h)
  {
    if |lights| == 0 then 0.0
    else
      LightingSum(h, spheres, lights[..|lights| - 1], point, normal, view, specular) +
      LightTerm(h, spheres, point, normal, view, specular, lights[|lights| - 1])
  }

  /** Visiting one more light adds exactly that light's term. */
  lemma LightingSumAppend(h: Host, spheres: seq<Sphere>, lights: seq<Light>, light: Light,
                          point: Vec3, normal: Vec3, view: Vec3, specular: real)
    requires ValidHost(h)
    ensures LightingSum(h, spheres, lights + [light], point, normal, view, specular) ==
            LightingSum(h, spheres, lights, point, normal, view, specular) +
            LightTerm(h, spheres, point, normal, view, specular, light)
  {
    assert (lights + [light])[..|lights|] == lights;
  }

  /** An ambient light adds exactly its intensity. */
  lemma AmbientAddsIntensity(h: Host, spheres: seq<Sphere>, lights: seq<Light>, intensity: real,
                             point: Vec3, normal: Vec3, view: Vec3, specular: real)
    requires ValidHost(h)
    ensures LightingSum(h, spheres, lights + [Ambient(intensity)], point, normal, view, specular) ==
            LightingSum(h, spheres, lights, point, normal, view, specular) + intensity
  {
    LightingSumAppend(h, spheres, lights, Ambient(intensity), point, normal, view, specular);
  }

  /** A point or directional light that some sphere blocks adds nothing. */
  lemma ShadowedLightAddsNothing(h: Host, spheres: seq<Sphere>, lights: seq<Light>, light: Light,
                                 point: Vec3, normal: Vec3, view: Vec3, specular: real)
    requires ValidHost(h)
    requires !light.Ambient? && Shadowed(h, spheres, light, point)
    ensures LightingSum(h, spheres, lights + [light], point, normal, view, specular) ==
            LightingSum(h, spheres, lights, point, normal, view, specular)
  {
    LightingSumAppend(h, spheres, lights, light, point, normal, view, specular);
  }

  /** A point light is blocked exactly when some sphere meets the segment
      from the point to the light strictly beyond Epsilon and strictly before
      the light; a directional light, when some sphere meets the ray anywhere
      beyond Epsilon. */
  lemma ShadowMeansBlockerInRange(h: Host, spheres: seq<Sphere>, light: Light, point: Vec3)
    requires !light.Ambient?
    ensures var vecL := ShadowRay(light, point).0;
      Shadowed(h, spheres, light, point) <==>
      exists i, t :: 0 <= i < |spheres| && IsRoot(h, spheres, point, vecL, i, t) &&
                     Epsilon < t && (light.Point? ==> t < 1.0)
  {
    var (vecL, tMax) := ShadowRay(light, point);
    ClosestHitIsLeast(h, spheres, point, vecL, Epsilon, tMax);
    if exists i, t :: 0 <= i < |spheres| && IsRoot(h, spheres, point, vecL, i, t) &&
                      Epsilon < t && (light.Point? ==> t < 1.0) {
      var i, t :| 0 <= i < |spheres| && IsRoot(h, spheres, point, vecL, i, t) &&
                  Epsilon < t && (light.Point? ==> t < 1.0);
      assert Candidate(h, spheres, point, vecL, Epsilon, tMax, i, t);
    }
  }

  /** The sum of the ambient intensities among the lights. */
  function AmbientTotal(lights: seq<Light>): real {
    if |lights| == 0 then 0.0
    else
      AmbientTotal(lights[..|lights| - 1]) +
      (if lights[|lights| - 1].Ambient? then lights[|lights| - 1].intensity else 0.0)
  }

  /** A point in the shadow of every point and directional light receives
      exactly the ambient light. */
  lemma {:induction false} FullShadowIsAmbient(h: Host, spheres: seq<Sphere>, lights: seq<Light>,
                                               point: Vec3, normal: Vec3, view: Vec3, specular: real)
    requires ValidHost(h)
    requires forall j :: 0 <= j < |lights| && !lights[j].Ambient? ==> Shadowed(h, spheres, lights[j], point)
    ensures LightingSum(h, spheres, lights, point, normal, view, specular) == AmbientTotal(lights)
  {
    if |lights| > 0 {
      FullShadowIsAmbient(h, spheres, lights[..|lights| - 1], point, normal, view, specular);
    }
  }

  lemma DiffuseNonNegative(h: Host, intensity: real, normal: Vec3, vecL: Vec3)
    requires ValidHost(h) && 0.0 <= intensity
    ensures 0.0 <= Diffuse(h, intensity, normal, vecL)
  {
    var nDotL := DotProduct(normal, vecL);
    if 0.0 < nDotL {
      PositiveDotProductLengths(h, normal, vecL);
      NonNegativeQuotient(intensity * nDotL, Length(h, normal) * Length(h, vecL));
    }
  }

  lemma SpecularNonNegative(h: Host, intensity: real, normal: Vec3, view: Vec3, vecL: Vec3, specular: real)
    requires ValidHost(h) && 0.0 <= intensity
    ensures 0.0 <= Specular(h, intensity, normal, view, vecL, specular)
  {
    var vecR := ReflectRay(vecL, normal);
    var rDotV := DotProduct(vecR, view);
    if specular != -1.0 && 0.0 < rDotV {
      PositiveDotProductLengths(h, vecR, view);
      var base := rDotV / (Length(h, vecR) * Length(h, view));
      NonNegativeQuotient(rDotV, Length(h, vecR) * Length(h, view));
      assert 0.0 <= Pow(h, base, specular);
    }
  }

  lemma NonNegativeQuotient(n: real, d: real)
    requires 0.0 <= n && 0.0 < d
    ensures 0.0 <= n / d
    ensures 0.0 < n ==> 0.0 < n / d
  {
  }

  /** With no negative intensity, no term and hence no sum is negative. */
  lemma LightTermNonNegative(h: Host, spheres: seq<Sphere>, point: Vec3, normal: Vec3, view: Vec3,
                             specular: real, light: Light)
    requires ValidHost(h)
    requires 0.0 <= light.intensity
    ensures 0.0 <= LightTerm(h, spheres, point, normal, view, specular, light)
  {
    if !light.Ambient? && !Shadowed(h, spheres, light, point) {
      var vecL := ShadowRay(light, point).0;
      DiffuseNonNegative(h, light.intensity, normal, vecL);
      SpecularNonNegative(h, light.intensity, normal, view, vecL, specular);
    }
  }

  lemma {:induction false} LightingSumNonNegative(h: Host, spheres: seq<Sphere>, lights: seq<Light>,
                                                  point: Vec3, normal: Vec3, view: Vec3, specular: real)
    requires ValidHost(h)
    requires forall j :: 0 <= j < |lights| ==> 0.0 <= lights[j].intensity
    ensures 0.0 <= LightingSum(h, spheres, lights, point, normal, view, specular)
  {
    if |lights| > 0 {
      LightingSumNonNegative(h, spheres, lights[..|lights| - 1], point, normal, view, specular);
      LightTermNonNegative(h, spheres, point, normal, view, specular, lights[|lights| - 1]);
    }
  }

  /** The source's loop over the lights: an ambient light adds its
      intensity; a point or directional light is tested for a blocker with
      the closest-hit search, skipped with `continue` when blocked, and
      otherwise adds its diffuse and specular terms. */
  method ComputeLighting(h: Host, spheres: seq<Sphere>, lights: seq<Light>, point: Vec3, normal: Vec3,
                         view: Vec3, specular: real) returns (intensity: real)
    requires ValidHost(h)
    ensures intensity == LightingSum(h, spheres, lights, point, normal, view, specular)
  {
    intensity := 0.0;
    for i := 0 to |lights|
      invariant intensity == LightingSum(h, spheres, lights[..i], point, normal, view, specular)
    {
      LightingSumAppend(h, spheres, lights[..i], lights[i], point, normal, view, specular);
      assert lights[..i + 1] == lights[..i] + [lights[i]];
      var light := lights[i];
      if light.Ambient? {
        intensity := intensity + light.intensity;
      } else {
        var vecL: Vec3;
        var tMax: Num;
        if light.Point? {
          vecL := Subtract(light.position, point);
          tMax := Fin(1.0);
        } else {
          vecL := light.direction;
          tMax := PosInf;
        }
        assert (vecL, tMax) == ShadowRay(light, point);

        var blocker := ClosestIntersection(h, spheres, point, vecL, Epsilon, tMax);
        if blocker.Some? {
          continue;
        }

        intensity := intensity + Diffuse(h, light.intensity, normal, vecL);
        intensity := intensity + Specular(h, light.intensity, normal, view, vecL, specular);
      }
    }
    assert lights[..|lights|] == lights;
  }
}
