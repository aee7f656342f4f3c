/** The scene description: spheres with their material, the three kinds of
    light, and the constants shared by the tracer. */
module SceneModel {
  import opened VectorMath

  /** A sphere: its centre and radius, its colour, its specular exponent
      (-1 for a matte surface) and its reflectiveness in [0, 1]. */
  datatype Sphere = Sphere(center: Vec3, radius: real, color: Color, specular: real, reflective: real)

  /** A light. The source keeps a type tag and a `position` field that holds
      the light's position for a point light and its direction for a
      directional light; the ambient light has neither. */
  datatype Light =
    | Ambient(intensity: real)
    | Point(intensity: real, position: Vec3)
    | Directional(intensity: real, direction: Vec3)

  /** Conceptually an infinitesimally small real: the lower end of the
      parameter range for shadow and reflection rays, which keeps a ray from
      hitting the surface it starts on. */
  const Epsilon: real := 0.0001

  /** Spheres of positive radius: their surface points are never their centre. */
  predicate ValidSpheres(spheres: seq<Sphere>) {
    forall i :: 0 <= i < |spheres| ==> 0.0 < spheres[i].radius
  }

  /** Colours, intensities and reflectiveness in the ranges the shading
      formulas are meant for: nothing is negative and reflectiveness is at most 1. */
  predicate PhysicalScene(spheres: seq<Sphere>, lights: seq<Light>, background: Color) {
    NonNegativeColor(background) &&
    (forall i :: 0 <= i < |spheres| ==>
      NonNegativeColor(spheres[i].color) && spheres[i].reflective <= 1.0) &&
    (forall j :: 0 <= j < |lights| ==> 0.0 <= lights[j].intensity)
  }

  predicate NonNegativeColor(c: Color) {
    0.0 <= c.x && 0.0 <= c.y && 0.0 <= c.z
  }
}
