# A verified model of a minimal ray tracer with hard shadows

The modelled program renders a scene of spheres and planes lit by point
lights into an 8-bit RGB image, with one hard-shadow ray per light, and then
counts the "shadow pixels" of the image: pixels whose brightness is below a
threshold. This project models its rendering and evaluation logic:

- the integer helpers `Clamp` and `ClampUint8`;
- the colour arithmetic: saturating addition, scaling by a factor
  (truncate, then clamp) and brightness (module `Colors`, `colors.dfy`);
- the image buffer, a class over a row-major array with an in-bounds-only
  pixel write (module `Raster`, `image.dfy`);
- the hit rules of the two primitives: the sphere's root choice and the
  plane's parallel guard, each with its self-intersection bias (module
  `Shapes`, `shapes.dfy`);
- the nearest-hit scan over spheres then planes and the shadow test
  (module `Scenes`, `scene.dfy`);
- the shading loop: ambient term, then one diffuse-plus-specular
  contribution per unshadowed light (module `Shading`, `shading.dfy`);
- the shadow-pixel evaluation of an image (module `Evaluation`,
  `evaluation.dfy`).

The floating-point geometry is not modelled. This covers dot products,
square roots, normalisation, `powf`, `Ray::pointAt` and the shadow-ray
construction. It enters as a `Scenes.Geometry` value: a record of functions
that every query takes as a parameter. What is modelled exactly is what the
program does with those numbers:

- which root or plane distance counts as a hit;
- which primitive wins the nearest-hit scan;
- when a light is skipped;
- how contributions combine into 8-bit channels;
- how pixels are counted.

The float literals of the source are kept as the exact real values of those
`float`s. These are `0.001f`, `1e-6f`, `1e-4f`, `0.30f` and
`numeric_limits<float>::max()`.

Methods mirror the source's loops:

- `Scenes.Intersect` and `Scenes.IsInShadow`;
- `Shading.TraceRay`;
- `Evaluation.EvaluateImage`;
- `Raster.Image.PutPixel`.

Each method is proved equal to a specification function: `Scenes.Scan` /
`Scenes.NearestHit`, `Scenes.InShadow`, `Shading.Shade`,
`Evaluation.ShadowCount`, and `Raster.WriteCell` for `PutPixel`. The lemmas
about that specification function state what the code promises.

## Model

| member | source | states |
|---|---|---|
| `Colors.Clamp` | rtcase2/rtcase2.cpp:15-18 | for `lo <= hi` the result lies in `[lo, hi]` and is `max(lo, min(v, hi))`; a value already inside the range comes back unchanged |
| `Colors.ClampIdempotent` | rtcase2/rtcase2.cpp:15-18 | clamping an already clamped value changes nothing |
| `Colors.ClampUint8` | rtcase2/rtcase2.cpp:19-21 | when the bounds lie within `0..255`, the `uint8_t` cast is lossless and gives exactly the clamped value |
| `Colors.Truncate` | rtcase2/rtcase2.cpp:29-31 | `static_cast<int>` truncates toward zero: floor for non-negative values, ceiling for negative ones |
| `Colors.ChannelOf` | rtcase2/rtcase2.cpp:29-31 | a scaled channel value is truncated and then clamped: a non-positive value gives 0, otherwise the channel is `min(floor(p), 255)` |
| `Colors.ChannelOfMonotone` | rtcase2/rtcase2.cpp:29-31 | truncate-then-clamp is monotone |
| `Colors.ChannelOfByte` | rtcase2/rtcase2.cpp:29-31 | a value that is already a channel value is returned unchanged |
| `Colors.Product` | rtcase2/rtcase2.cpp:29-31 | the product `channel * s` is non-positive for `s <= 0`, within `[0, channel]` for `s` in `[0, 1]`, and at least the channel for `s >= 1` |
| `Colors.ProductMonotone` | rtcase2/rtcase2.cpp:29-31 | a larger factor never gives a smaller product |
| `Colors.ScaleChannel` | rtcase2/rtcase2.cpp:29-31 | a non-positive factor zeroes the channel |
| `Colors.ScaleChannelBounds` | rtcase2/rtcase2.cpp:27-33 | a factor in `[0, 1]` never raises a channel; a factor of at least 1 never lowers it |
| `Colors.Scale` | rtcase2/rtcase2.cpp:27-33 | `Color * s` is black for `s <= 0`; channel-wise at most the colour for `s` in `[0, 1]`; at least the colour for `s >= 1`; the colour itself for `s == 1` |
| `Colors.ScaleChannelMonotone` | rtcase2/rtcase2.cpp:29-31 | for non-negative factors, a larger factor never gives a darker channel |
| `Colors.ScaleMonotone` | rtcase2/rtcase2.cpp:27-33 | for non-negative factors, a larger factor never gives a darker colour |
| `Colors.AddChannel` | rtcase2/rtcase2.cpp:36-38 | one channel of `+` is the integer sum saturated at 255 |
| `Colors.Add` | rtcase2/rtcase2.cpp:34-40 | `+` is channel-wise `min(a + b, 255)` and never wraps; the result is at least each operand in every channel |
| `Colors.AddCommutative` | rtcase2/rtcase2.cpp:34-40 | `a + b == b + a` |
| `Colors.AddAssociative` | rtcase2/rtcase2.cpp:34-40 | saturating addition is associative |
| `Colors.AddIdentity` | rtcase2/rtcase2.cpp:34-40 | black (`Color()`, line 25) is a two-sided identity of `+` |
| `Colors.AddMonotone` | rtcase2/rtcase2.cpp:34-40 | adding the same colour to a darker colour never gives a brighter result |
| `Colors.ChannelSum` | rtcase2/rtcase2.cpp:41 | the channel sum `r + g + b` lies in `0..765` |
| `Colors.Brightness` | rtcase2/rtcase2.cpp:41 | brightness lies in `[0, 1]`; it is 0 for black and 1 for white |
| `Raster.CellIndex` | rtcase2/rtcase2.cpp:75 | the cell `y * W + x` of an in-bounds pixel lies inside the `W * H` buffer |
| `Raster.CellIndexInjective` | rtcase2/rtcase2.cpp:75 | two different in-bounds pixels never share a cell |
| `Raster.CellIndexOnto` | rtcase2/rtcase2.cpp:72-75 | every cell of the `w * h` buffer is the cell of some in-bounds pixel |
| `Raster.WriteCell` | rtcase2/rtcase2.cpp:73-76 | the buffer after a write: only the written pixel's cell changes, to `c`; an out-of-bounds write leaves the buffer as it was |
| `Raster.Image.constructor` | rtcase2/rtcase2.cpp:72 | a new image has `W == w`, `H == h` and `w * h` cells, each the background colour |
| `Raster.Image.PutPixel` | rtcase2/rtcase2.cpp:73-76 | the buffer becomes `WriteCell` of the old one; afterwards the pixel reads back as `c` and every other pixel keeps its old colour |
| `Shapes.SphereHit` | rtcase2/rtcase2.cpp:107-113 | a hit happens iff the discriminant is non-negative and some root passes the `0.001f` bias; the reported distance is one of the roots and passes the bias; it is the far root only when the near one fails the bias |
| `Shapes.SphereHitIsNearestValidRoot` | rtcase2/rtcase2.cpp:107-113 | with ordered roots, there is a hit iff the far root passes the bias, and the reported distance is the nearest root beyond the bias |
| `Shapes.PlaneHit` | rtcase2/rtcase2.cpp:121-129 | a ray with `abs(denom) <= 1e-6f` never hits; otherwise there is a hit iff `numer / denom >= 0.001f`, and the distance is that quotient |
| `Shapes.PlaneHitInFront` | rtcase2/rtcase2.cpp:121-129 | for a reported plane hit, the two dot products have the same sign |
| `Shapes.BiasBoundaryDiffers` | rtcase2/rtcase2.cpp:102-129 | at a distance of exactly `0.001f` a plane reports a hit (`>=`) and a sphere does not (`>`) |
| `Scenes.FirstNearestUnique` | rtcase2/rtcase2.cpp:157 | at most one report is the first one attaining the minimum distance |
| `Scenes.ScanKeepsFirstNearest` | rtcase2/rtcase2.cpp:153-175 | starting from no hit at `FLT_MAX`, the strict-`<` scan ends with a hit iff some report is below `FLT_MAX`. Then the record is that of the first report attaining the minimum distance; otherwise the starting record is untouched |
| `Scenes.NearestHitIsFirstNearest` | rtcase2/rtcase2.cpp:152-176 | on a fresh record, the scene query finds a hit iff some sphere or plane reports one. The result is the first primitive, spheres before planes, at the minimum distance; on a miss the result is the fresh record |
| `Scenes.Intersect` | rtcase2/rtcase2.cpp:152-176 | the two loops compute the scan of the caller's record, with only its flag and distance reset, over spheres then planes; the return value is the record's flag |
| `Scenes.IsInShadow` | rtcase2/rtcase2.cpp:179-192 | the method computes `InShadow`: a new record, one `intersect` of the shadow ray, and a hit counts only when it is nearer than the light |
| `Scenes.InShadowIffOccluded` | rtcase2/rtcase2.cpp:179-192 | a point is in shadow iff some primitive reports a recordable hit on the biased shadow ray that is strictly nearer than the light |
| `Scenes.EmptySceneCastsNoShadow` | rtcase2/rtcase2.cpp:187-191 | without spheres and planes, no point is in shadow |
| `Shading.EachAppend` | rtcase2/rtcase2.cpp:203 | the outcomes of concatenated light lists are the concatenated outcomes |
| `Shading.TraceRay` | rtcase2/rtcase2.cpp:195-228 | the method returns `Shade`: the background on a miss; otherwise the ambient term, then each unshadowed light's contribution added with saturation, in order |
| `Shading.SaturateClosedForm` | rtcase2/rtcase2.cpp:201-223 | each channel of the result is `min(ambient + sum of the lit contributions, 255)`: saturation happens once, whatever order the additions come in |
| `Shading.AllSkippedIsStart` | rtcase2/rtcase2.cpp:203-206 | when every light is skipped, the result is the starting colour exactly |
| `Shading.StartIsFloor` | rtcase2/rtcase2.cpp:203-223 | lights only brighten: the result is never darker than the starting colour |
| `Shading.SkippedChangesNothing` | rtcase2/rtcase2.cpp:205-206 | a skipped outcome, wherever it stands, can be removed without changing the result |
| `Shading.SwapChangesNothing` | rtcase2/rtcase2.cpp:203-223 | swapping two neighbouring outcomes does not change the result |
| `Shading.NearestHitIgnoresLights` | rtcase2/rtcase2.cpp:152-176 | the nearest hit does not depend on the light list |
| `Shading.ShadeUnderLights` | rtcase2/rtcase2.cpp:195-228 | changing only the light list changes only the lights that are summed; the hit and every light's occlusion stay the same |
| `Shading.SkippedLightChangesNothing` | rtcase2/rtcase2.cpp:203-206 | for any per-light outcome, a light that is skipped can be dropped from the list |
| `Shading.SwappedLightsChangeNothing` | rtcase2/rtcase2.cpp:203-223 | for any per-light outcome, swapping two neighbouring lights changes nothing |
| `Shading.ShadowedLightChangesNothing` | rtcase2/rtcase2.cpp:205-206 | a light that is shadowed at the hit point can be removed from the scene without changing the traced colour |
| `Shading.LightOrderIrrelevant` | rtcase2/rtcase2.cpp:203-224 | swapping two neighbouring lights of the scene does not change the traced colour, so the light order is irrelevant |
| `Shading.ShadeCases` | rtcase2/rtcase2.cpp:195-228 | on a miss the result is the background. On a hit it is at least the ambient term in every channel, and exactly `color * ambient` when every light is shadowed |
| `Evaluation.ShadowAreaRatio` | rtcase2/rtcase2.cpp:243 | for a non-empty image, the ratio times the pixel count is the shadow count; it lies in `[0, 1]` whenever the count is at most the pixel count, is 0 when no pixel is a shadow pixel and 1 when every pixel is |
| `Evaluation.DefaultThresholdIsChannelSum` | rtcase2/rtcase2.cpp:238-241 | under the default threshold `0.30f`, a pixel is a shadow pixel exactly when `r + g + b <= 229` |
| `Evaluation.ShadowCount` | rtcase2/rtcase2.cpp:240-242 | the count over `n` cells lies in `0..n` |
| `Evaluation.EvaluateImage` | rtcase2/rtcase2.cpp:238-245 | the loop counts exactly `ShadowCount` of the whole buffer, which lies in `0..W*H`; the metrics' pixel count is `W * H` |
| `Evaluation.ShadowCountIsCardinality` | rtcase2/rtcase2.cpp:240-242 | the count is the number of buffer positions holding a pixel below the threshold |
| `Evaluation.AllCountedIffAllShadow` | rtcase2/rtcase2.cpp:240-242 | the count equals the number of pixels iff every pixel is below the threshold |
| `Evaluation.NoneCountedIffNoShadow` | rtcase2/rtcase2.cpp:240-242 | the count is zero iff no pixel is below the threshold |
| `Evaluation.CountMonotoneInThreshold` | rtcase2/rtcase2.cpp:238-242 | a higher threshold never counts fewer pixels |
| `Evaluation.UniformCount` | rtcase2/rtcase2.cpp:240-242 | a one-colour buffer counts every pixel or none |
| `Evaluation.BlackImageAllShadow` | rtcase2/rtcase2.cpp:238-242 | under the default threshold, an all-black buffer counts every pixel |
| `Evaluation.WhiteImageNoShadow` | rtcase2/rtcase2.cpp:238-242 | under the default threshold, an all-white buffer counts none |
| `Evaluation.DefaultBackgroundIsLit` | rtcase2/rtcase2.cpp:72 | the default background `Color(80,90,110)` is not a shadow pixel under the default threshold `0.30f` |
| `Evaluation.EvaluateFreshImage` | rtcase2/rtcase2.cpp:72 | a freshly constructed image evaluated under the default threshold counts all `w * h` pixels when `r + g + b <= 229` for its background, and none otherwise |

## Left out

- Floating-point geometry is taken as given through `Scenes.Geometry`.
  This covers `Vec3f` arithmetic, `dot`, `cross`, `normalize`, `sqrtf`,
  `powf`, `Ray::pointAt`, `Sphere::normalAt` and the shadow-ray origin
  offset. A model with exact reals would not be the program either.
- Rounding of the `float` products and quotients is not modelled:
  `r * s`, `diffuse * diff`, `specular * spec`, the plane distance
  `numer / denom` in `Shapes.PlaneHit` and the brightness quotient are exact
  reals. A plane distance within half an ulp of `0.001f` or of `FLT_MAX`
  may therefore be decided differently than the rounded float would be. For the default threshold `r + g + b <= 229` decides the same way
  under both readings; other thresholds near a boundary might not.
- `Colors.ScaleChannel`: its own contract states only the non-positive case.
  The bounds and monotonicity are the lemmas `Colors.ScaleChannelBounds` and
  `Colors.ScaleChannelMonotone`.
- `Colors.Truncate`: a float outside the `int` range, which is undefined
  behaviour in C++, is not modelled. A scaled channel needs a factor above
  about 8.4 million, or below about -8.4 million, to get there.
- `Raster.Image.constructor`: it requires a non-negative width and height,
  and `w * h` is an unbounded integer. `vector`'s length error for a
  negative size and `int` overflow of `w * h` are not modelled. Both sizes
  negative (say `Image(-2, -3)`, which builds six cells that no `PutPixel`
  can reach) is excluded by the same requires.
- Default arguments are not separate members. `Image`'s `bg`
  is the constant `Raster.DefaultBackground`. `EvaluateImage`'s threshold is
  the constant `Evaluation.DefaultThreshold`. `Light`'s intensity `1.0f` is
  not given a name: every `Shapes.Light` carries its intensity, and
  `Colors.Scale` is the identity at 1.
- The `Ray` constructor's and the `Plane` constructor's `normalize` are part
  of the geometry: a plane's `normal` is taken to be the stored unit normal.
- `Scenes.Intersect`: the `HitRecord&` out-parameter is modelled as an input
  record plus a returned record. A distance of exactly `FLT_MAX` never
  replaces the sentinel (`t < rec.t`), and the model keeps this.
- `Evaluation.ShadowAreaRatio`: `static_cast<float>(shadowPixels) / (W * H)`
  is kept as an exact fraction of the pair in `EvalMetrics`. Float rounding
  is not modelled. The ratio is undefined for an empty image, where the
  source computes `0.0f / 0` (NaN), so the function requires a positive
  pixel count.
- `EvalMetrics::renderTimeMs` and all wall-clock timing are left out: the
  clock is I/O.
- `Image::SavePPM` and all console output are left out as file I/O.
- The camera and the per-pixel render loop in `main`, including the
  primary-ray mapping and the shadow mask image, are left out, as is
  `setupCase1`. They are scene data and driver code, not logic with a
  property of its own.
