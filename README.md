# Ray tracer model

A Dafny model of `dist/rayTrace.js`, a textbook recursive ray tracer drawn
onto an HTML canvas. The model covers the decision and bookkeeping logic of
the script, stated exactly over `real` and `int`:

- the vector helpers (dot product, length, scaling, addition, subtraction,
  reflection, colour clamping);
- the ray–sphere root finder, with JavaScript's `Infinity` and `NaN` as
  values of an extended number type;
- the closest-hit search, a loop that keeps a running minimum over an open
  range of ray parameters;
- the lighting loop, which adds ambient light, skips lights that another
  sphere shadows, and adds diffuse and specular terms;
- the recursive tracer, which mixes the local colour with the colour seen
  along the mirror reflection;
- the canvas-to-viewport mapping, the pixel write into an RGBA byte buffer,
  and the nested render loop;
- the recursion-limit control and the keyboard handler that moves the
  first sphere.

Modules, one file each:

| file | module | contents |
|---|---|---|
| `jsvalues.dfy` | `JsValues` | numbers with the infinities and NaN, JavaScript's `<`, `null` as `Option`, the conversion of a bitwise OR with 0 |
| `vecmath.dfy` | `VectorMath` | vectors and colours, `Math.sqrt` and `Math.pow` as host functions, the algebra helpers |
| `scene.dfy` | `SceneModel` | spheres, lights, `EPSILON` |
| `intersection.dfy` | `Intersection` | the root finder, the selection of the nearest root, the `ClosestIntersection` loop |
| `lighting.dfy` | `Lighting` | shadow rays, diffuse and specular terms, the `ComputeLighting` loop |
| `tracer.dfy` | `Tracer` | `CanvasToViewport`, the hit frame (point, normal, view), `TraceRay` |
| `canvas.dfy` | `Canvas` | byte storage, pixel addressing, the `Canvas` class and its `PutPixel` |
| `app.dfy` | `App` | the `Raytracer` class: set-up, `Render`, the recursion-limit control, the key handler |

How the source's forms are kept:

- The expression-only helpers, the root finder and `TraceRay` are functions.
- `ClosestIntersection` and `ComputeLighting` are methods with the source's
  loops. Each is proved equal to a function: `ClosestHit` and `LightingSum`.
  The properties are proved as lemmas about those functions.
- The image buffer is an `array<byte>` inside a `Canvas` class.
  `PutPixel` writes its four bytes in place, advancing the offset as the
  source does.
- The script's global state (the scene, the recursion limit, the canvas) is
  the `Raytracer` class. `Render`, `UpdateRecursionLimit` and `KeyUp` are
  its methods. Its class-level promise is `Rendered()`: every canvas point
  shows the clamped traced colour for the current scene and limit.

`Math.sqrt` and `Math.pow` are not computed. They are the two fields of a
`Host` value passed to every operation that needs them. `ValidHost` is all
the model assumes about them:

- a square root is non-negative, and positive for a positive argument;
- the square root is exact;
- a power of a positive base is non-negative.

A zero direction gives `k1 = 0`, a zero discriminant and the quotient
`0 / 0`, so `IntersectRaySphere` returns NaN twice and such a ray finds
nothing, since no NaN passes the range tests. A point light placed exactly
at the shaded point produces such a ray, so the model keeps this case
instead of requiring a non-zero direction.

## Model

| member | source | states |
|---|---|---|
| JsValues.Less | dist/rayTrace.js:238-242 | JavaScript's `<` on finite numbers, the infinities and NaN; its properties are stated by `LessStrictOrder` |
| JsValues.Truncate | dist/rayTrace.js:135 | rounding toward zero, the first step of the bitwise OR with 0: the result is within 1 of the value, on the side of 0 |
| JsValues.LessStrictOrder | dist/rayTrace.js:238 | `<` on numbers is irreflexive, transitive and asymmetric; no comparison involving NaN is true |
| JsValues.ToInt32 | dist/rayTrace.js:135 | the bitwise OR with 0 gives a signed 32-bit value congruent modulo 2^32 to the truncation; it equals the truncation when that fits; NaN and the infinities give 0 |
| JsValues.ToInt32Examples | dist/rayTrace.js:135 | 3.7 → 3, -3.7 → -3, 2^32 + 2 → 2, 2^31 → -2^31, NaN and Infinity → 0 |
| VectorMath.DotProduct | dist/rayTrace.js:49-51 | the sum of the component products; `DotProductSelf` and `MultiplyDotProduct` state its properties |
| VectorMath.Multiply | dist/rayTrace.js:61-63 | k times each component; `MultiplyDotProduct` states how it scales the dot product |
| VectorMath.Add | dist/rayTrace.js:67-69 | the component-wise sum; `Subtract` is proved its inverse |
| VectorMath.ReflectRay | dist/rayTrace.js:87-89 | 2 (v1 · v2) v2 - v1; `ReflectRayKeepsAxisComponent`, `ReflectRayInvolution` and `ReflectRayPreservesLength` state its properties |
| VectorMath.Length | dist/rayTrace.js:55-57 | under a valid host the length is non-negative, and positive for a non-zero vector |
| VectorMath.LengthSquared | dist/rayTrace.js:55-57 | the length squared is the dot product of the vector with itself |
| VectorMath.DotProductSelf | dist/rayTrace.js:49-51 | a vector's dot product with itself is non-negative, and zero exactly for the zero vector |
| VectorMath.MultiplyDotProduct | dist/rayTrace.js:49-63 | scaling either argument of the dot product scales the result |
| VectorMath.Subtract | dist/rayTrace.js:73-75 | the difference added back to v2 gives v1 |
| VectorMath.ClampChannel | dist/rayTrace.js:80 | `min(255, max(0, v))` lies in [0, 255]; it is v when v is in range, 0 below and 255 above |
| VectorMath.Clamp | dist/rayTrace.js:79-83 | every channel lies in [0, 255], and a channel already in range is unchanged |
| VectorMath.ClampIdempotent | dist/rayTrace.js:79-83 | clamping twice is clamping once |
| VectorMath.ClampBoundaryExample | dist/rayTrace.js:79-83 | (300, -10, 255) clamps to (255, 0, 255) |
| VectorMath.PositiveDotProductLengths | dist/rayTrace.js:203-205 | a positive dot product means both lengths, and their product, are positive, so the shading divisions are defined |
| VectorMath.ReflectRayKeepsAxisComponent | dist/rayTrace.js:87-89 | reflecting about a unit axis keeps the component along the axis |
| VectorMath.ReflectRayInvolution | dist/rayTrace.js:87-89 | reflecting twice about a unit axis gives back the input |
| VectorMath.ReflectRayPreservesLength | dist/rayTrace.js:87-89 | reflecting about a unit axis keeps the squared length |
| Intersection.IntersectRaySphere | dist/rayTrace.js:159-174 | `[Infinity, Infinity]` for a negative discriminant, NaN twice for a zero direction, else the two quadratic-formula values; `RootsOnSphere` proves every finite value is on the sphere and `ContactIsRoot` that every contact is one of them |
| Intersection.EvaluateIsDistance | dist/rayTrace.js:160-164 | the quadratic with coefficients k1, k2, k3 at t is the squared distance of the ray point from the centre minus the squared radius |
| Intersection.QuadraticFormula | dist/rayTrace.js:166-172 | (-k2 + r) / (2 k1), with r² the discriminant, is a zero of the quadratic |
| Intersection.DiscriminantAtRoot | dist/rayTrace.js:166 | at a zero t of the quadratic the discriminant is (2 k1 t + k2)², so it is not negative |
| Intersection.RootIsGivenByFormula | dist/rayTrace.js:171-172 | every zero of the quadratic is one of the two values of the formula |
| Intersection.RootsOnSphere | dist/rayTrace.js:159-174 | each finite value the root finder returns is a parameter at which the ray is on the sphere |
| Intersection.ContactIsRoot | dist/rayTrace.js:159-174 | conversely, every parameter at which a ray of non-zero direction meets the sphere is t1 or t2 |
| Intersection.NegativeDiscriminantMisses | dist/rayTrace.js:166-169 | when the discriminant is negative (roots `[Infinity, Infinity]`) the ray meets the sphere nowhere |
| Intersection.ClosestAmong | dist/rayTrace.js:235-246 | the selection over the first n spheres names one of them, and a root of it strictly inside (min_t, max_t) |
| Intersection.Consider | dist/rayTrace.js:238-245 | one test of the loop: the root replaces the best so far only when it is strictly below it and strictly inside the range; `ConsiderStep` states the result |
| Intersection.ConsiderStep | dist/rayTrace.js:238-245 | one comparison either keeps the best so far or replaces it with an in-range root strictly below it; the result is no larger than either |
| Intersection.ClosestAmongIsLeast | dist/rayTrace.js:235-246 | the selected value is at most every in-range root of the first n spheres, strictly below those of earlier spheres (first sphere wins ties), and nothing is selected only when no root is in range |
| Intersection.ClosestHit | dist/rayTrace.js:231-252 | a found hit names a listed sphere and an in-range root of it |
| Intersection.ClosestHitIsLeast | dist/rayTrace.js:231-252 | the hit is the least in-range root of all spheres, strictly below those of earlier spheres; null is returned exactly when no root is in range |
| Intersection.ClosestHitIsNearestContact | dist/rayTrace.js:231-252 | for a non-zero direction, the hit is on its sphere and is the nearest in-range point where the ray meets any sphere; null means the ray meets no sphere in range |
| Intersection.MissedSphereNeverSelected | dist/rayTrace.js:238-245 | a sphere whose discriminant is negative is never selected |
| Intersection.ClosestIntersection | dist/rayTrace.js:231-252 | the loop over the spheres, testing t1 before t2 with strict comparisons, returns exactly the selection `ClosestHit` |
| Lighting.ShadowRay | dist/rayTrace.js:187-194 | a point light gives the vector to its position and t_max = 1, a directional light its direction and t_max = Infinity; `ShadowMeansBlockerInRange` states what these ranges mean |
| Lighting.Shadowed | dist/rayTrace.js:196-200 | the shadow search from the point finds a blocker; `ShadowMeansBlockerInRange` characterises it by the roots in range |
| Lighting.Diffuse | dist/rayTrace.js:202-206 | intensity · (n · l) / (len(n) · len(l)) when n · l > 0, else 0; `DiffuseNonNegative` states its sign |
| Lighting.Specular | dist/rayTrace.js:208-215 | for a specular exponent other than -1 and r · v > 0, intensity · pow((r · v) / (len(r) · len(v)), specular), else 0; `SpecularNonNegative` states its sign |
| Lighting.LightTerm | dist/rayTrace.js:183-216 | one iteration of the loop: an ambient light's intensity, 0 for a blocked light, else diffuse plus specular; `AmbientAddsIntensity`, `ShadowedLightAddsNothing` and `LightTermNonNegative` state it |
| Lighting.LightingSum | dist/rayTrace.js:177-220 | the intensity after visiting the lights in order; `ComputeLighting` is proved to return it, and `LightingSumAppend`, `FullShadowIsAmbient` and `LightingSumNonNegative` state its properties |
| Lighting.LightingSumAppend | dist/rayTrace.js:182-217 | visiting one more light adds exactly that light's term |
| Lighting.AmbientAddsIntensity | dist/rayTrace.js:184-185 | an ambient light adds exactly its intensity |
| Lighting.ShadowedLightAddsNothing | dist/rayTrace.js:196-200 | a point or directional light for which the shadow search finds a blocker adds 0 |
| Lighting.ShadowMeansBlockerInRange | dist/rayTrace.js:187-200 | a point light is blocked exactly when some sphere has a root in (EPSILON, 1), a directional light exactly when some sphere has a root beyond EPSILON |
| Lighting.FullShadowIsAmbient | dist/rayTrace.js:182-217 | a point shadowed from every point and directional light receives exactly the sum of the ambient intensities |
| Lighting.DiffuseNonNegative | dist/rayTrace.js:203-206 | with a non-negative intensity the diffuse term is non-negative |
| Lighting.SpecularNonNegative | dist/rayTrace.js:209-215 | with a non-negative intensity the specular term is non-negative |
| Lighting.LightTermNonNegative | dist/rayTrace.js:184-215 | a light of non-negative intensity never lowers the total |
| Lighting.LightingSumNonNegative | dist/rayTrace.js:177-220 | with non-negative intensities the computed lighting is non-negative |
| Lighting.ComputeLighting | dist/rayTrace.js:177-220 | the loop over the lights, with its ambient branch, shadow test and `continue`, returns exactly `LightingSum` |
| Tracer.CanvasToViewport | dist/rayTrace.js:151-155 | the viewport point scaled back by the canvas size gives the canvas point times the viewport size, at depth projection_plane_z |
| Tracer.HitAwayFromCenter | dist/rayTrace.js:265-267 | the hit point is not the centre of its sphere, so the normal's division by its length is defined |
| Tracer.SurfaceNormal | dist/rayTrace.js:266-267 | the offset from the centre divided by its length has unit length |
| Tracer.HitFrame | dist/rayTrace.js:265-269 | the frame's point is origin + t direction, its normal has unit length and its view vector is the direction reversed |
| Tracer.ReflectedRayMirrorsView | dist/rayTrace.js:277 | the reflected ray has the view vector's length and angle to the normal, and mirroring it again gives the view vector |
| Tracer.LocalColor | dist/rayTrace.js:270-271 | the lighting at the hit point times the sphere's colour; `AmbientLightShowsOwnColor` and `TraceRayNonNegative` state its properties |
| Tracer.TraceRay | dist/rayTrace.js:256-282 | background on a miss, the local colour when the sphere does not reflect or no depth is left, else the mix with one recursive trace at depth - 1; `MissSeesBackground`, `StopsAtLocalColor`, `DepthIrrelevantWithoutMirrors` and `TraceRayNonNegative` state its properties |
| Tracer.MissSeesBackground | dist/rayTrace.js:257-260 | a ray that meets no sphere in range sees the background colour, whatever the depth |
| Tracer.StopsAtLocalColor | dist/rayTrace.js:273-275 | with reflective <= 0 or depth <= 0 the result is the local colour |
| Tracer.DepthIrrelevantWithoutMirrors | dist/rayTrace.js:273-278 | in a scene without reflective spheres the depth does not change the result |
| Tracer.RaysTraced | dist/rayTrace.js:277-278 | following TraceRay's branching, one call traces between 1 and max(depth, 0) + 1 rays |
| Tracer.TraceRayNonNegative | dist/rayTrace.js:256-282 | with non-negative colours and intensities and reflectiveness at most 1 every traced colour is non-negative |
| Tracer.AmbientLightShowsOwnColor | dist/rayTrace.js:270-275 | under a single ambient light of intensity 1 a non-reflective hit sphere shows exactly its colour |
| Canvas.RoundHalfToEven | dist/rayTrace.js:23-25 | the result is within 0.5 of the value, and even on a tie |
| Canvas.ToUint8Clamp | dist/rayTrace.js:23-25 | a stored channel is 0 at or below 0, 255 at or above 255, and otherwise within 0.5 of the value |
| Canvas.ToUint8ClampKeepsBytes | dist/rayTrace.js:23-25 | a whole number in [0, 255] is stored unchanged |
| Canvas.ToUint8ClampTies | dist/rayTrace.js:23-26 | halves round to even (0.5 → 0, 1.5 → 2, 2.5 → 2, 254.5 → 254); -3 → 0, 300 → 255 |
| Canvas.PixelIndexInverse | dist/rayTrace.js:22 | the pixel index col + width·row recovers its column and row |
| Canvas.OffsetIsFourTimesIndex | dist/rayTrace.js:22 | `4x + pitch·y` is four times the pixel index |
| Canvas.OffsetInBounds | dist/rayTrace.js:18-22 | after the bounds check, the four bytes at the offset lie inside the buffer |
| Canvas.OffsetsDisjoint | dist/rayTrace.js:22 | different pixels have disjoint four-byte blocks |
| Canvas.WritePixel | dist/rayTrace.js:22-26 | after the write the four bytes at the offset are red, green, blue and 255, and every other byte is kept |
| Canvas.WriteKeepsOtherPixel | dist/rayTrace.js:22-26 | a write leaves every non-overlapping pixel as it was |
| Canvas.OnCanvasInBounds | dist/rayTrace.js:288-292 | with even dimensions every point of the render loop passes the bounds check, and x and y are recovered from the column and row |
| Canvas.EveryPixelOnCanvas | dist/rayTrace.js:288-289 | every pixel of the buffer is reached from one point of the render loop |
| Canvas.PointsDisjoint | dist/rayTrace.js:15-22 | different points of the render loop have disjoint pixel blocks inside the buffer |
| Canvas.PointInBuffer | dist/rayTrace.js:15-22 | the pixel block of a point of the render loop is inside the buffer |
| Canvas.WriteKeepsOtherPoints | dist/rayTrace.js:14-27 | writing one point's pixel leaves the pixels of all other points as they were |
| Canvas.Column | dist/rayTrace.js:15 | the column width/2 + x; `OnCanvasInBounds` and `EveryPixelOnCanvas` prove the mapping from loop points one-to-one and onto |
| Canvas.Row | dist/rayTrace.js:16 | the row height/2 - y - 1, y growing upwards; covered by the same two lemmas |
| Canvas.Offset | dist/rayTrace.js:22 | 4 · column + pitch · row; `OffsetInBounds`, `OffsetsDisjoint` and `PixelIndexInverse` state its properties |
| Canvas.PixelBytes | dist/rayTrace.js:23-26 | the stored red, green and blue bytes of the colour and alpha 255; `WritePixel` reads them back |
| Canvas.Canvas.constructor | dist/rayTrace.js:9-10 | a fresh buffer of 4·width·height bytes, all 0, for even positive dimensions |
| Canvas.Canvas.PutPixel | dist/rayTrace.js:14-27 | outside the canvas nothing changes; inside, the buffer becomes `WritePixel` at `4x + pitch·y` of the old buffer |
| App.ClampDepth | dist/rayTrace.js:136-141 | the limit lies in [0, 5]; it is the value when in range, 0 below and 5 above |
| App.ClampDepthIdempotent | dist/rayTrace.js:136-141 | limiting twice is limiting once |
| App.RecursionLimitExamples | dist/rayTrace.js:135-141 | entered values 3.9, -2, 2^32 + 3 and NaN become limits 3, 0, 3 and 0 |
| App.MoveCenter | dist/rayTrace.js:313-334 | w/s move the centre up/down, a/d left/right, PageUp/PageDown away/towards the camera, by 0.2; any other key leaves it unchanged |
| App.MoveChangesOneCoordinate | dist/rayTrace.js:313-334 | a movement key changes exactly one coordinate, by exactly 0.2 |
| App.OppositeKeysCancel | dist/rayTrace.js:313-334 | w and s, a and d, PageUp and PageDown undo each other |
| App.Raytracer.constructor | dist/rayTrace.js:117-132 | the given scene with recursion limit 100, rendered once |
| App.Raytracer.Render | dist/rayTrace.js:285-294 | after the nested loops every canvas point shows the clamped colour traced through it |
| App.Raytracer.UpdateRecursionLimit | dist/rayTrace.js:134-148 | the value shown and stored is the entered value converted by a bitwise OR with 0 and limited to [0, 5]; the canvas is rendered again only when the limit changed, and otherwise left as it was |
| App.Raytracer.KeyUp | dist/rayTrace.js:311-336 | only the first sphere's centre moves, as `MoveCenter` says; the other spheres and the limit are kept, and the canvas is rendered again |

## Left out

- Browser plumbing: `getElementById`, `getContext`, `getImageData`,
  `UpdateCanvas` (`putImageData`), `ClearAll` and the event-listener
  registration. The buffer is a `Canvas` value, and `ClearAll` only resets
  the visible canvas, not the buffer the model writes.
- `console.log(workers)` in `Render` names an undeclared variable, so the
  script throws there and never calls `UpdateCanvas`. The model stops at
  the end of the pixel loop. Because the first `Render()` (line 303) runs
  at the top level, the script stops there and never reaches line 311: as
  written, the page never installs the keyup listener, and
  `App.Raytracer.KeyUp` models a handler the page does not register.
- The commented-out Web Worker and `setInterval` code is dead and not
  modelled.
- The numeric behaviour of `Math.sqrt` and `Math.pow`, and IEEE-754
  rounding. Arithmetic is exact over `real`; the square root and power are
  host functions with only the properties of `ValidHost`.
- NaN is modelled only where the root finder produces it, for a zero
  direction. The other divisions by zero (the normal of a hit at the centre,
  a zero-length light or view vector in the shading terms) are shown not to
  happen: radii are positive (`ValidSpheres`), and the shading terms divide
  only after a positive dot product.
- Odd canvas sizes: JavaScript then produces half-integer coordinates. The
  `Canvas` class requires positive, even dimensions.
- The text of the recursion-limit field is not parsed. `UpdateRecursionLimit`
  takes the field's numeric value as a `Num`.
- The scene literals (the four spheres, three lights, camera, background,
  viewport size and projection distance) are parameters of the
  `Raytracer` constructor, not fixed constants. No property of that
  particular scene is proved.
- Lighting.ComputeLighting: the diffuse and specular terms are added
  through the functions `Diffuse` and `Specular`. These carry the source's
  guards and formulas but compute the normal's and the view's lengths where
  they are used; the source computes them once before the loop. Over exact
  reals this is the same value.
- VectorMath.Pow: nothing is assumed of `Math.pow` beyond a non-negative
  result for a positive base, so no quantitative specular property is proved.
- App.Raytracer.KeyUp: the sphere sequence is reassigned with a new first
  sphere, rather than the centre array being changed in place. Nothing else
  in the model holds a reference to that array.
- `Render` iterates x from `-width/2`. For even widths this is the integer
  the source's real division gives.
