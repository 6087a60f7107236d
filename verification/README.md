# A verified model of the raytacer path tracer

This project models the deterministic core of `raytacer`, a small Rust path tracer, in Dafny. It
covers the following parts:

- **Vectors and colours.** The algebra of `Vec3` and `Colour`.
- **Shape hit test.** Sphere and background intersection (`Shape::hit_test`): a quadratic with a
  root-selection rule inside a half-open window.
- **Closest-hit scan.** `Scene::hit_test` keeps a shrinking window `[0.001, best_t)` as it moves
  through the geometry list.
- **Integrator.** `Scene::ray_colour` is a recursive integrator with a bounce budget.
  `Scene::render_pixel` averages its samples.
- **Camera.** The orthogonal camera turns pixel coordinates into rays.
- **Pixel bytes.** The conversion of colours to saturated 8-bit channels.
- **Image layout.** The row-major layout both binaries use for the image and its byte buffer.
- **Stock scene.** The generator of the random-spheres scene (`generate_random_spheres`).

`f64` is modelled as `real`. The hit distance is `Dist = Fin(real) | Inf`, so the background's
`f64::INFINITY` stays an explicit value. `sqrt` is a parameter `sqrt: real -> real`. Lemmas that need
its meaning carry `requires IsSqrt(sqrt)`, which says the result is the non-negative square root of a
non-negative argument.

Every random draw is an input:

- A `BounceDraw` for each bounce level: the hemisphere vector and the unit vector.
- A `SampleDraw` for each sample: the two pixel jitters and the bounce draws.
- A `CellDraw` for each cell of the stock-scene grid.

`unit()` of a zero vector divides zero by zero. The model keeps that one IEEE effect as the `NaN`
case of `Radiance`, because the sky gradient normalises the ray direction.
A NaN channel casts to byte 0.

Modules follow the source tree:

| module | file | source |
|---|---|---|
| `Numbers` | numbers.dfy | distances, ranges, `f64::min`, squares |
| `Vectors` | vec.dfy | `src/vec/mod.rs` |
| `Colours` | colour.dfy | `src/colour/mod.rs` |
| `Rays` | ray.dfy | the `ray` module |
| `Shapes` | shape.dfy | `src/geometry/shape.rs` |
| `Geometries` | geometry.dfy | `src/geometry/mod.rs`, `src/hit/mod.rs` |
| `Cameras` | camera.dfy | `src/camera/mod.rs`, `src/camera/len.rs` |
| `Scenes` | scene.dfy | `src/scene/mod.rs` |
| `Pixels` | pixel.dfy | `src/pixel/rgb.rs` |
| `ImageLayout` | layout.dfy | `src/main.rs`, `src/bin/raytracer.rs` |
| `StockScenes` | create_scene.dfy | `src/bin/create_scene.rs` |

The `ray` module is not among the source files. `Rays` defines `Ray { origin, direction }` with
`at(t) = origin + direction * t`, as the scene and shape code use it.

## Model

| member | source | states |
|---|---|---|
| Vectors.New | src/vec/mod.rs:5-19 | building a vector from a triple and reading `x`, `y`, `z` gives the three coordinates back |
| Vectors.DotCommutes | src/vec/mod.rs:21-23 | the dot product is commutative |
| Vectors.LengthSquaredIsSelfDot | src/vec/mod.rs:21-35 | `length_squared(v)` equals `v . v`, and it is never negative |
| Vectors.LengthSquaredZero | src/vec/mod.rs:33-35 | the squared length is non-negative, and zero exactly for the zero vector |
| Vectors.CrossIsOrthogonal | src/vec/mod.rs:25-31 | `a x b` is orthogonal to both `a` and `b` |
| Vectors.CrossAntiCommutes | src/vec/mod.rs:25-31 | `a x b + b x a` is zero, and `a x a` is zero |
| Vectors.AddCommutes | src/vec/mod.rs:46-56 | vector addition is commutative |
| Vectors.SubUndoesAdd | src/vec/mod.rs:46-68 | `(a + b) - b == a` |
| Vectors.DivUndoesScale | src/vec/mod.rs:82-96 | for `s != 0`, `(v * s) / s == v` |
| Vectors.Length | src/vec/mod.rs:37-39 | given the square-root contract, the length is non-negative and its square is the squared length |
| Vectors.LengthZero | src/vec/mod.rs:37-39 | given the square-root contract, the length is zero exactly for the zero vector |
| Vectors.LengthSquaredOfDiv | src/vec/mod.rs:90-96 | dividing by `s != 0` divides the squared length by `s^2` |
| Vectors.UnitHasLengthOne | src/vec/mod.rs:37-43 | for a non-zero vector, given the square-root contract, `unit(v)` has squared length 1 |
| Vectors.ReflectFlipsNormalComponent | src/scene/mod.rs:92-93 | reflecting about a unit normal negates the component along the normal |
| Vectors.UnitDotBounded | src/scene/mod.rs:111-113 | the dot product of two unit vectors lies in [-1, 1] |
| Colours.New | src/colour/mod.rs:7-21 | `Colour::new(r, g, b)` read back through `r()`, `g()`, `b()` gives `r`, `g`, `b` |
| Colours.Default | src/colour/mod.rs:24-28 | the default colour has all three channels 0 |
| Colours.BlackIsDefault | src/scene/mod.rs:17 | `Colour::black()`, which the integrator starts from, is the default colour (0, 0, 0) |
| Colours.AddIsChannelwise | src/colour/mod.rs:36-42 | colour addition adds channel by channel and is commutative |
| Colours.AddAssignIsAdd | src/colour/mod.rs:44-48 | `c += d` leaves `c` equal to the old `c + d` |
| Colours.ScaleByZero | src/colour/mod.rs:50-56 | `c * 0.0` is the default colour |
| Colours.DivUndoesScale | src/colour/mod.rs:50-64 | for `s != 0`, `(c * s) / s == c` |
| Colours.ScaleDistributesOverAdd | src/colour/mod.rs:36-56 | `(a + b) * s == a * s + b * s` |
| Colours.ScaleAddOne | src/colour/mod.rs:44-56 | adding `c` to `c * s` gives `c * (s + 1)`: one more sample of the same colour |
| Colours.TintByBlack | src/scene/mod.rs:79 | the channel-wise product with black is black, on either side |
| Numbers.Min | src/scene/mod.rs:113 | `f64::min` returns one of its arguments and is at most each of them |
| Shapes.HitTest | src/geometry/shape.rs:13-41 | The background hits every ray at `+inf` with the zero normal, whatever the window. For a sphere, a negative discriminant or a zero direction gives no hit. A sphere hit has a finite `t` inside the window and the normal `(at(t) - centre) / radius`. With a non-zero `a`, there is a hit iff either root lies in the window. The nearer root wins when it lies in the window, and the farther root is taken only when the nearer one does not. |
| Shapes.FirstInRange | src/geometry/shape.rs:27-35 | the chosen root exists iff one root is in range; it is the first root when that one is in range, and otherwise the second |
| Shapes.FirstInRangeNarrowing | src/geometry/shape.rs:27-35 | with ordered roots, lowering the window's end keeps the chosen root if it lies below the new end, and otherwise leaves none |
| Shapes.QuadraticMeasuresSphere | src/geometry/shape.rs:17-20 | the quadratic in `t` built from `a`, `half_b` and `c` equals the squared distance from `at(t)` to the centre minus `radius^2` |
| Shapes.CompletedSquare | src/geometry/shape.rs:17-22 | `a * q(t) == (a t + half_b)^2 - discriminant` |
| Shapes.RootsSolveQuadratic | src/geometry/shape.rs:27-30 | given the square-root contract, both candidate roots are zeros of the quadratic |
| Shapes.OnlyTwoRoots | src/geometry/shape.rs:22-30 | every zero of the quadratic is one of the two candidate roots, and its existence makes the discriminant non-negative |
| Shapes.NearRootFirst | src/geometry/shape.rs:28-30 | with `a > 0`, the root tried first is not beyond the second |
| Shapes.HitIsOnSphere | src/geometry/shape.rs:17-35 | given the square-root contract, a reported hit point lies on the sphere: its squared distance to the centre is `radius^2` |
| Shapes.NormalIsUnit | src/geometry/shape.rs:37 | the reported normal of a sphere hit has squared length 1 |
| Shapes.HitIsNearestInRange | src/geometry/shape.rs:27-35 | no point of the sphere inside the window lies before the reported `t` |
| Shapes.MissMeansNoIntersection | src/geometry/shape.rs:22-35 | when a moving ray gets no hit, no `t` in the window puts the ray on the sphere |
| Shapes.WindowNarrowing | src/geometry/shape.rs:13-41 | The test on `[start, end)` gives the `[start, inf)` hit when that hit lies before `end`, and otherwise nothing. The background ignores the window. |
| Cameras.OrthogonalCamera | src/camera/mod.rs:17-39 | `pixel_delta_u == (2/h, 0, 0)`, which equals `viewport_width / w`. `pixel_delta_v == (0, -2/h, 0)`. `pixel0.z == eye.origin.z - focal_length`. The eye is kept. |
| Cameras.ScreenToWorld | src/camera/mod.rs:41-60 | the ray starts at the eye and reaches the pixel centre `pixel0 + du x + dv y` at parameter 1 |
| Cameras.ScreenToWorldSampled | src/camera/mod.rs:62-82 | the sampled ray keeps the origin of the unsampled one |
| Cameras.NeighbouringPixels | src/camera/mod.rs:48-50 | one pixel right moves the direction by `pixel_delta_u`, and one pixel down moves it by `pixel_delta_v` |
| Cameras.CornerPixelsSymmetric | src/camera/mod.rs:17-30 | the centres of pixels (0, 0) and (w-1, h-1) lie symmetrically about `eye.origin - (0, 0, f)` |
| Cameras.SampleOffset | src/camera/mod.rs:71-79 | the sampled ray reaches the pixel centre plus `du (jx - 0.5) + dv (jy - 0.5)` at parameter 1 |
| Cameras.SampleWithinPixel | src/camera/mod.rs:71-79 | with jitters in [0, 1), the sampled point lies within half a pixel (`1/h`) of the centre in x and y, on the viewport plane |
| Scenes.Scan | src/scene/mod.rs:31-43 | The loop never loses a hit and never moves `best_t` up. A finite result lies at or beyond `0.001`. An infinite result is the hit it started with, or the material of a background still ahead. |
| Scenes.HitTest | src/scene/mod.rs:27-46 | a finite hit lies at or beyond `0.001` along a moving ray; a hit at infinity carries the material of a background in the list |
| Scenes.ScanStep | src/scene/mod.rs:31-43 | one geometry's step keeps the invariant "best is the closest so far, earliest among equals, background last" and does not change the final result |
| Scenes.ScanFindsClosest | src/scene/mod.rs:27-46 | the scan ends with nothing exactly when no geometry hits, and otherwise with a closest hit over the whole list |
| Scenes.HitTestFindsClosest | src/scene/mod.rs:27-46 | `hit_test` is `None` iff every geometry misses. Otherwise some geometry `k` attains it: no geometry hits nearer, no earlier one hits at the same finite distance, and a hit at infinity has no later hit at all. |
| Scenes.BackgroundGuaranteesHit | src/scene/mod.rs:27-46 | a list with a background never yields `None` |
| Scenes.BackgroundOnlyWithoutSphereHit | src/scene/mod.rs:31-43 | the hit is at infinity iff no sphere is hit and the list holds a background |
| Scenes.HitMaterialFromScene | src/scene/mod.rs:31-43 | in a well-formed scene a scattering material is hit at a finite distance, and a dielectric's index is non-zero |
| Scenes.HitTestMaterialIsListed | src/scene/mod.rs:31-43 | the scan reports only materials of listed geometries |
| Scenes.Attenuated | src/scene/mod.rs:77-79 | `colour * (reflected * albedo)` is NaN exactly when the reflected light is |
| Scenes.Tinted | src/scene/mod.rs:104-105 | `tint * reflected` is NaN exactly when the reflected light is |
| Scenes.Outgoing | src/scene/mod.rs:71-129 | Diffuse and Lambertian surfaces always send a ray on from the hit point. A metal does so iff the perturbed direction does not point into the surface. A dielectric does so iff the incoming direction has a length; the source sends a ray with a NaN direction in the other case, which no scene hit reaches. No other material sends a ray on. |
| Scenes.Filtered | src/scene/mod.rs:77-129 | the filtered light is NaN exactly when the incoming light is |
| Scenes.RayColour | src/scene/mod.rs:48-135 | A negative budget gives black. No hit gives magenta (1, 0, 1). The sky gradient gives the gradient of the ray direction, a solid colour gives its colour, and the normal gradient gives the mapped normal. Diffuse and Lambertian surfaces attenuate the colour of their bounce ray, with the budget reduced by one. A metal scattering into its surface gives black; otherwise it tints the colour of its perturbed mirror ray. A moving ray's dielectric passes on, unattenuated, the colour of its outgoing ray. |
| Scenes.DialectricHitMoves | src/scene/mod.rs:108-130 | A ray that hits a dielectric in a well-formed scene has a direction of non-zero length, so the dielectric always sends its ray on. |
| Scenes.UsesOnlyFirstDraws | src/scene/mod.rs:71-129 | two draw sequences that agree on levels `0..max_bounces` give the same colour: every recursion lowers the budget by one, so at most `max_bounces + 1` levels are reached |
| Scenes.LastBounceScatterIsBlack | src/scene/mod.rs:48-51 | with budget 0, any scattering surface is black, since its recursive call has a negative budget |
| Scenes.GradientBlendBounds | src/scene/mod.rs:58-59 | a blend weight in [0, 1] gives red in [0.5, 1], green in [0.7, 1] and blue 1 |
| Scenes.SkyGradientBetweenWhiteAndBlue | src/scene/mod.rs:57-60 | given the square-root contract, the sky is NaN exactly for a zero direction, and otherwise lies between white and sky blue |
| Scenes.SkyGradientNaNOnlyWhenStill | src/scene/mod.rs:57-60 | given the square-root contract, the sky colour is NaN exactly when the direction is zero |
| Scenes.SkyGradientOfMovingRay | src/scene/mod.rs:57-60 | a moving ray's sky colour lies between white and sky blue |
| Scenes.UnitHeightBounded | src/scene/mod.rs:58 | the height of `unit(v)` lies in [-1, 1] |
| Scenes.NormalColourInUnitCube | src/scene/mod.rs:62-68 | the colour of a unit normal has every channel in [0, 1] |
| Scenes.RefractionRatiosReciprocal | src/scene/mod.rs:109 | the front-face ratio `1/ior` and the back-face ratio `ior` multiply to 1 |
| Scenes.SineOfIncidenceBounded | src/scene/mod.rs:113-114 | for unit vectors, `sqrt(1 - cos^2)` with the cosine capped at 1 lies in [0, 1] |
| Scenes.EnteringDenserMediumRefracts | src/scene/mod.rs:109-116 | a unit ray entering through a front face with `ior >= 1` is never totally internally reflected |
| Scenes.Accumulate | src/scene/mod.rs:19-22 | the running sum is NaN exactly when it or the new sample is |
| Scenes.TotalOfConstant | src/scene/mod.rs:17-22 | `n` samples of colour `c` sum to `c * n` |
| Scenes.RenderPixelOfConstant | src/scene/mod.rs:16-25 | when every sample yields `c`, the pixel is `c` |
| Scenes.NaNSpoilsTotal | src/scene/mod.rs:19-22 | one NaN sample makes the running total NaN |
| Scenes.NaNSampleSpoilsPixel | src/scene/mod.rs:16-25 | one NaN sample makes the pixel NaN |
| Pixels.ChannelByte | src/pixel/rgb.rs:25-27 | channels at most 0 give byte 0, and channels at least 255/256 give byte 255 |
| Pixels.ChannelByteIsSaturatedTruncation | src/pixel/rgb.rs:25-27 | each byte is `channel * 256` truncated toward zero and then saturated to [0, 255] |
| Pixels.ChannelByteMonotone | src/pixel/rgb.rs:25-27 | a brighter channel never gives a smaller byte |
| Pixels.FromColour | src/pixel/rgb.rs:22-29 | red, green and blue become bytes 0, 1 and 2, each converted on its own |
| Pixels.BlackIsZeroBytes | src/pixel/rgb.rs:22-29 | the default colour becomes `[0, 0, 0]` |
| Pixels.Write | src/pixel/rgb.rs:9-11 | `write` needs a target of exactly 3 bytes and fills it with r, g, b in order |
| ImageLayout.PixelCoordInBounds | src/main.rs:94-95 | for `index < width * height`, `x = index % width < width` and `y = index / width < height` |
| ImageLayout.PixelCoordRoundTrip | src/main.rs:94-95 | `y * width + x == index` |
| ImageLayout.PixelIndexRoundTrip | src/main.rs:94-95 | a coordinate with `x < width` maps to a slot and back to itself |
| ImageLayout.PixelCoordInjective | src/main.rs:94-95 | distinct slots are distinct pixels |
| ImageLayout.NewPixelBuffer | src/main.rs:80-81 | the pixel buffer has `width * height` default colours |
| ImageLayout.RenderImage | src/main.rs:89-98 | the rendered image has `width * height` pixels |
| ImageLayout.EveryPixelRendered | src/main.rs:89-98 | slot `y * width + x` of the image holds `render_pixel((x, y))` with that slot's draws |
| ImageLayout.SliceInBounds | src/main.rs:112-118 | the byte slice of a pixel lies inside a buffer of `pixels.len() * 3` bytes |
| ImageLayout.SlicesDisjoint | src/main.rs:115-118 | the byte slices of distinct pixels do not overlap |
| ImageLayout.EncodePixels | src/main.rs:112-118 | the byte buffer has `pixels.len() * 3` bytes, and each pixel's slice holds that pixel's bytes |
| ImageLayout.MainGeometriesOk | src/main.rs:34-76 | the scene of `main` has non-zero radii and its background does not scatter |
| ImageLayout.MainSceneAlwaysHits | src/main.rs:72-78 | thanks to the sky, every ray of `main`'s scene hits something |
| ImageLayout.MainImage | src/main.rs:23-98 | `main` renders 400 x 225 = 90000 pixels |
| ImageLayout.RaytracerImage | src/bin/raytracer.rs:56-90 | The binary renders `width * height` pixels of the loaded geometries, at a positive sample count. Its index mapping and byte layout are the ones above. |
| ImageLayout.RaytracerDefaultImage | src/bin/raytracer.rs:30-53 | Without options the binary renders its default 400 x 255 = 102000 pixels at 500 samples each. |
| StockScenes.SmallSpheres | src/bin/create_scene.rs:63-101 | at most one sphere per cell visited; each of radius 0.2 with a scattering material, glass having index 1.5 |
| StockScenes.RandomSpheres | src/bin/create_scene.rs:47-141 | the list has between 5 and 489 geometries, starts with the ground sphere and ends with the sky |
| StockScenes.GenerateRandomSpheres | src/bin/create_scene.rs:47-141 | the nested loops over `a` and `b` build exactly the ground, the kept small spheres in cell order, and the four fixed geometries |
| StockScenes.SmallSpheresStep | src/bin/create_scene.rs:63-101 | each further cell appends its sphere, if kept, and nothing else |
| StockScenes.CellOfLoopIndex | src/bin/create_scene.rs:63-64 | iteration `(a, b)` is cell number `(a + 11) * 22 + (b + 11)`, below 484, and that number maps back to `(a, b)` |
| StockScenes.CellInGrid | src/bin/create_scene.rs:63-64 | every cell number below 484 names `a` and `b` in `-11..11` |
| StockScenes.SmallSphereKeptIff | src/bin/create_scene.rs:71-73 | given the square-root contract, a cell keeps its sphere iff its centre is more than 0.9 from `(4, 0.2, 0)`, stated as squared distance `> 0.81` |
| StockScenes.SmallSphereInCell | src/bin/create_scene.rs:65-97 | with offsets in [0, 1), a kept sphere has radius 0.2 and centre y = 0.2, x in `[a, a + 1)` and z in `[b, b + 1)` |
| StockScenes.SmallMaterialByVariate | src/bin/create_scene.rs:75-91 | A variate below 0.8 gives Lambertian with albedo 1 and the product of the two colour draws. Below 0.95 gives metal with the drawn tint and scatter in [0, 0.5). Otherwise it gives glass with index 1.5. |
| StockScenes.SmallSpheresFromCells | src/bin/create_scene.rs:63-101 | every small sphere is the sphere some visited cell keeps |
| StockScenes.CellsReachSmallSpheres | src/bin/create_scene.rs:63-101 | every visited cell that keeps its sphere contributes it |
| StockScenes.RandomSpheresOk | src/bin/create_scene.rs:50-138 | all geometries but the last are spheres of positive radius, and the list meets the integrator's requirements |
| StockScenes.RandomSpheresAlwaysHit | src/bin/create_scene.rs:134-138 | thanks to the sky, every ray of the stock scene hits something |

## Left out

- IEEE-754 arithmetic: `f64` is `real`, with no rounding, overflow or signed zero. Only two IEEE effects are modelled: the background's `+inf` and the NaN that `unit()` of a zero vector produces. Division by zero is excluded by preconditions instead.
- Shapes.HitTest: for `a = 0` the model returns `None` directly. In IEEE arithmetic `a = 0` means a zero direction, so both roots are `0/0 = NaN`, which no range contains. The result is the same.
- Shapes.HitTest: requires a non-zero radius, because the normal divides by it.
- Randomness: `rand::random`, `Vec3::random_on_hemisphere`, `Vec3::random_unit_vector` and `Colour::random` are not modelled. Their results are inputs, and nothing is claimed about their distribution.
- Draw order in the stock scene: every cell carries all of its draws, even a cell the clearance skips. The source draws the material numbers only for kept cells.
- Absent helpers: `reflect`, `Colour::black`, `Colour * Colour` and the `ray` module are not among the source files. The model defines them minimally as `v - 2 (v . n) n`, `(0, 0, 0)`, the channel-wise product and `origin + direction * t`.
- Refraction physics: `refract` is transcribed, but nothing about the physical correctness of its result is proved.
- `front_face`: the shown `Shape::hit_test` returns only `(t, normal)`. The model computes `front_face` as `dot(direction, normal) < 0`.
- Scenes.RayColour: requires that no background carries a scattering material. Its hit point `origin + direction * inf` has no real value.
- Scenes.RayColour: requires that every dielectric has a non-zero index, since a front face divides by it.
- Scenes.Outgoing: a dielectric struck by a direction of no length sends no ray on, and `Emitted` gives NaN. The source normalises that direction to NaN and recurses with a NaN-direction ray, which real vectors cannot represent. `Scenes.DialectricHitMoves` shows no hit of a well-formed scene reaches this case under the square-root contract.
- ImageLayout.RenderImage: requires at least one sample per pixel. `render_pixel` divides by the sample count, and `src/bin/raytracer.rs` does not check that count.
- Cameras.OrthogonalCamera: requires positive image dimensions, because the pixel steps divide by them.
- The stale files `src/camera/lens.rs` and `src/geometry/material.rs` are not modelled. Neither is the tuple-variant `Material` that `src/main.rs` builds. The model uses the struct variants that `src/scene/mod.rs` matches on, and writes `main`'s materials in that form.
- Concurrency and plumbing are not modelled: rayon's `par_iter_mut`, the progress bar, PNG encoding, file I/O, `serde_yaml` loading and saving, clap argument parsing and `Display`.
