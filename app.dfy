/** The page-level program state: the scene, the recursion limit and the
    canvas; rendering every canvas point, the recursion-limit control and
    the keyboard handler that moves the first sphere. */
module App {
  import opened JsValues
  import opened VectorMath
  import opened SceneModel
  import opened Tracer
  import opened Canvas

  /** The recursion limit the control accepts: its value limited to [0, 5]. */
  function ClampDepth(v: int): (r: int)
    ensures 0 <= r <= 5
    ensures 0 <= v <= 5 ==> r == v
    ensures v < 0 ==> r == 0
    ensures 5 < v ==> r == 5
  {
    var low := if v < 0 then 0 else v;
    if low > 5 then 5 else low
  }

  lemma ClampDepthIdempotent(v: int)
    ensures ClampDepth(ClampDepth(v)) == ClampDepth(v)
  {
  }

  /** The control's value as the program reads it: converted with `| 0`,
      then limited to [0, 5]. */
  lemma RecursionLimitExamples()
    ensures ClampDepth(ToInt32(Fin(3.9))) == 3
    ensures ClampDepth(ToInt32(Fin(-2.0))) == 0
    ensures ClampDepth(ToInt32(Fin(4294967299.0))) == 3
    ensures ClampDepth(ToInt32(NaN)) == 0
  {
  }

  /** The centre after a key press: w and s move it up and down, a and d
      left and right, PageUp and PageDown away and towards the camera, by
      0.2 each; any other key leaves it where it is. */
  function MoveCenter(key: string, c: Vec3): (r: Vec3)
    ensures key == "w" ==> r == Vec3(c.x, c.y + 0.2, c.z)
    ensures key == "a" ==> r == Vec3(c.x - 0.2, c.y, c.z)
    ensures key == "s" ==> r == Vec3(c.x, c.y - 0.2, c.z)
    ensures key == "d" ==> r == Vec3(c.x + 0.2, c.y, c.z)
    ensures key == "PageDown" ==> r == Vec3(c.x, c.y, c.z - 0.2)
    ensures key == "PageUp" ==> r == Vec3(c.x, c.y, c.z + 0.2)
    ensures !IsMoveKey(key) ==> r == c
  {
    match key
    case "w" => c.(y := c.y - 0.2 * (-1.0))
    case "a" => c.(x := c.x + 0.2 * (-1.0))
    case "s" => c.(y := c.y + 0.2 * (-1.0))
    case "d" => c.(x := c.x - 0.2 * (-1.0))
    case "PageDown" => c.(z := c.z + 0.2 * (-1.0))
    case "PageUp" => c.(z := c.z - 0.2 * (-1.0))
    case _ => c
  }

  predicate IsMoveKey(key: string) {
    key in {"w", "a", "s", "d", "PageDown", "PageUp"}
  }

  /** A move key changes exactly one coordinate, by 0.2 one way or the other. */
  lemma MoveChangesOneCoordinate(key: string, c: Vec3)
    requires IsMoveKey(key)
    ensures var r := MoveCenter(key, c);
      (r.x != c.x && r.y == c.y && r.z == c.z && (r.x - c.x == 0.2 || c.x - r.x == 0.2)) ||
      (r.x == c.x && r.y != c.y && r.z == c.z && (r.y - c.y == 0.2 || c.y - r.y == 0.2)) ||
      (r.x == c.x && r.y == c.y && r.z != c.z && (r.z - c.z == 0.2 || c.z - r.z == 0.2))
  {
  }

  /** Opposite keys undo each other. */
  lemma OppositeKeysCancel(c: Vec3)
    ensures MoveCenter("s", MoveCenter("w", c)) == c && MoveCenter("w", MoveCenter("s", c)) == c
    ensures MoveCenter("d", MoveCenter("a", c)) == c && MoveCenter("a", MoveCenter("d", c)) == c
    ensures MoveCenter("PageUp", MoveCenter("PageDown", c)) == c &&
            MoveCenter("PageDown", MoveCenter("PageUp", c)) == c
  {
  }

  /** The program: its scene, the recursion limit and the canvas. Only the
      first sphere's centre and the recursion limit ever change. */
  class Raytracer {
    const host: Host
    const canvas: Canvas
    const viewportSize: real
    const projectionZ: real
    const camera: Vec3
    const background: Color
    var spheres: seq<Sphere>
    const lights: seq<Light>
    var recursionDepth: int

    ghost predicate Valid()
      reads this
    {
      canvas.Valid() && ValidHost(host) && ValidSpheres(spheres) && |spheres| > 0
    }

    /** The colour the render loop stores at canvas point (x, y): the traced
        colour of the ray from the camera through that point's viewport
        position, over (1, Infinity), clamped. */
    function PixelColor(x: int, y: int): Color
      requires Valid()
      reads this
    {
      var direction := CanvasToViewport(x as real, y as real, canvas.width as real, canvas.height as real,
                                        viewportSize, projectionZ);
      Clamp(TraceRay(host, spheres, lights, background, camera, direction, 1.0, PosInf, recursionDepth))
    }

    /** Every canvas point shows its colour for the current scene and limit. */
    ghost predicate Rendered()
      requires Valid()
      reads this, canvas.data
    {
      forall x, y :: OnCanvas(canvas.width, canvas.height, x, y) ==>
        ShowsIn(canvas.data[..], canvas.width, canvas.height, x, y, PixelColor(x, y))
    }

    /** The script's set-up: the given scene, a recursion limit of 100, and
        a first render. */
    constructor (canvas: Canvas, host: Host, viewportSize: real, projectionZ: real, camera: Vec3,
                 background: Color, spheres: seq<Sphere>, lights: seq<Light>)
      requires canvas.Valid() && ValidHost(host) && ValidSpheres(spheres) && |spheres| > 0
      modifies canvas.data
      ensures Valid() && Rendered()
      ensures this.canvas == canvas && this.host == host && this.spheres == spheres && this.lights == lights
      ensures this.viewportSize == viewportSize && this.projectionZ == projectionZ
      ensures this.camera == camera && this.background == background
      ensures recursionDepth == 100
    {
      this.host := host;
      this.canvas := canvas;
      this.viewportSize := viewportSize;
      this.projectionZ := projectionZ;
      this.camera := camera;
      this.background := background;
      this.spheres := spheres;
      this.lights := lights;
      recursionDepth := 100;
      new;
      Render();
    }

    /** The render loop: every canvas point, column by column, gets the
        clamped colour traced through it. */
    method Render()
      requires Valid()
      modifies canvas.data
      ensures Rendered()
    {
      var width, height := canvas.width, canvas.height;
      var x := -(width / 2);
      while x < width / 2
        invariant -(width / 2) <= x <= width / 2
        invariant forall x', y' :: OnCanvas(width, height, x', y') && x' < x ==>
                                   ShowsIn(canvas.data[..], width, height, x', y', PixelColor(x', y'))
      {
        var y := -(height / 2);
        while y < height / 2
          invariant -(height / 2) <= y <= height / 2
          invariant forall x', y' :: OnCanvas(width, height, x', y') && (x' < x || (x' == x && y' < y)) ==>
                                     ShowsIn(canvas.data[..], width, height, x', y', PixelColor(x', y'))
        {
          var direction := CanvasToViewport(x as real, y as real, width as real, height as real,
                                            viewportSize, projectionZ);
          var color := TraceRay(host, spheres, lights, background, camera, direction, 1.0, PosInf, recursionDepth);
          ghost var before := canvas.data[..];
          canvas.PutPixel(x, y, Clamp(color));
          OnCanvasInBounds(width, height, x, y);
          WriteKeepsOtherPoints(width, height, before, x, y, Clamp(color));
          forall x', y' | OnCanvas(width, height, x', y') && (x' < x || (x' == x && y' <= y))
            ensures ShowsIn(canvas.data[..], width, height, x', y', PixelColor(x', y'))
          {
            PointInBuffer(width, height, x', y');
            if (x', y') != (x, y) {
              assert ShowsIn(before, width, height, x', y', PixelColor(x', y'));
            }
          }
          y := y + 1;
        }
        x := x + 1;
      }
    }

    /** The recursion-limit control: the entered number is converted with
        `| 0` and limited to [0, 5]; that value is written back to the
        control (returned as shown) and, only when it differs from the
        current limit, becomes the limit and the canvas is rendered again. */
    method UpdateRecursionLimit(input: Num) returns (shown: int)
      requires Valid()
      modifies this, canvas.data
      ensures Valid()
      ensures shown == ClampDepth(ToInt32(input)) && recursionDepth == shown
      ensures spheres == old(spheres)
      ensures old(recursionDepth) != shown ==> Rendered()
      ensures old(recursionDepth) == shown ==> canvas.data[..] == old(canvas.data[..])
    {
      var v := ToInt32(input);
      if v < 0 {
        v := 0;
      }
      if v > 5 {
        v := 5;
      }
      shown := v;

      if recursionDepth != v {
        recursionDepth := v;
        Render();
      }
    }

    /** The keyboard handler: the key moves the first sphere's centre (or
        not, for any other key), and the canvas is rendered again. */
    method KeyUp(key: string)
      requires Valid()
      modifies this, canvas.data
      ensures Valid() && Rendered()
      ensures |spheres| == |old(spheres)|
      ensures spheres[0] == old(spheres[0]).(center := MoveCenter(key, old(spheres[0].center)))
      ensures forall i :: 1 <= i < |spheres| ==> spheres[i] == old(spheres[i])
      ensures recursionDepth == old(recursionDepth)
    {
      var sphere := spheres[0];
      spheres := spheres[0 := sphere.(center := MoveCenter(key, sphere.center))];
      Render();
    }
  }
}
