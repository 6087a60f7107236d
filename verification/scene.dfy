/** The scene of src/scene/mod.rs: a camera and a list of geometries, the
    closest-hit scan over the list, the recursive colour integrator with its
    bounce budget, and the per-pixel sample average.

    The random draws of the source are inputs: for every bounce level one
    `BounceDraw` (a hemisphere direction and a unit vector), and for every
    sample one `SampleDraw` (the two pixel jitters and the bounce draws). */
module Scenes {
  import opened Numbers
  import opened Vectors
  import opened Rays
  import Colours
  import Shapes
  import opened Geometries
  import opened Cameras

  /** The near end of every hit window: hits closer than this to the ray
      origin are ignored. */
  const Epsilon: real := 0.001

  /** The bounce budget `render_pixel` gives every sample. */
  const SampleBounces: int := 10

  datatype Scene = Scene(camera: Camera, geometries: seq<Geometry>)

  /** Every sphere has a non-zero radius: the normal divides by it. */
  predicate ShapesOk(geos: seq<Geometry>)
  {
    forall i :: 0 <= i < |geos| ==> (geos[i].shape.Sphere? ==> geos[i].shape.radius != 0.0)
  }

  /** What the integrator needs of a scene: non-zero radii, no scattering
      material on a background (its hit point lies at infinity), and a
      non-zero index of refraction (a front face divides by it). */
  predicate GeometriesOk(geos: seq<Geometry>)
  {
    ShapesOk(geos) &&
    forall i :: 0 <= i < |geos| ==>
      (geos[i].shape.Background? ==> !geos[i].material.Scatters()) &&
      (geos[i].material.Dialectric? ==> geos[i].material.ior != 0.0)
  }

  predicate SceneOk(scene: Scene)
  {
    GeometriesOk(scene.geometries)
  }

  /** The outside of a surface is the side the ray comes from. */
  function FrontFace(ray: Ray, normal: Vec3): bool
  {
    Dot(ray.direction, normal) < 0.0
  }

  /** The hit record built from a geometry and its shape hit. */
  function MakeHit(geo: Geometry, ray: Ray, h: Shapes.ShapeHit): Hit
  {
    Hit(geo.material, h.t, h.normal, FrontFace(ray, h.normal))
  }

  /** The nearest hit of geometry `j` on its own, beyond `Epsilon`. */
  function NearestAt(geos: seq<Geometry>, ray: Ray, sqrt: real -> real, j: nat): Option<Shapes.ShapeHit>
    requires ShapesOk(geos) && j < |geos|
  {
    Shapes.HitTest(geos[j].shape, ray, Range(Epsilon, Inf), sqrt)
  }

  /** The loop of `Scene::hit_test` from geometry `i` on, with the best
      distance and hit found so far. Each geometry is tested in the window
      `[Epsilon, bestT)` and its hit kept when `t <= bestT`. */
  function Scan(geos: seq<Geometry>, ray: Ray, sqrt: real -> real, i: nat, bestT: Dist, best: Option<Hit>): (r: Option<Hit>)
    requires ShapesOk(geos) && i <= |geos|
    requires best.Some? ==> best.value.t == bestT
    requires best.Some? && best.value.t.Fin? ==> Epsilon <= best.value.t.value && ray.direction != Zero
    decreases |geos| - i
    ensures best.Some? ==> r.Some? && DistLe(r.value.t, bestT)
    ensures r.Some? && r.value.t.Fin? ==> Epsilon <= r.value.t.value && ray.direction != Zero
    ensures r.Some? && r.value.t.Inf? ==>
      (best.Some? && best.value == r.value) ||
      exists j :: i <= j < |geos| && geos[j].shape.Background? && geos[j].material == r.value.material
  {
    if i == |geos| then best
    else
      var geo := geos[i];
      match Shapes.HitTest(geo.shape, ray, Range(Epsilon, bestT), sqrt)
      case Some(h) =>
        if DistLe(h.t, bestT) then Scan(geos, ray, sqrt, i + 1, h.t, Some(MakeHit(geo, ray, h)))
        else Scan(geos, ray, sqrt, i + 1, bestT, best)
      case None => Scan(geos, ray, sqrt, i + 1, bestT, best)
  }

  /** `Scene::hit_test`: the scan from the first geometry with an infinite
      best distance and no hit. */
  function HitTest(geos: seq<Geometry>, ray: Ray, sqrt: real -> real): (r: Option<Hit>)
    requires ShapesOk(geos)
    ensures r.Some? && r.value.t.Fin? ==> Epsilon <= r.value.t.value && ray.direction != Zero
    ensures r.Some? && r.value.t.Inf? ==>
      exists j :: 0 <= j < |geos| && geos[j].shape.Background? && geos[j].material == r.value.material
  {
    Scan(geos, ray, sqrt, 0, Inf, None)
  }

  /** Geometry `k`'s own hit is `h` and is a closest one among the first `n`
      geometries: no other has a nearer hit, no earlier one has a hit at the
      same finite distance, and, when `h` is at infinity, no later one hits
      at all. */
  ghost predicate ClosestAmong(geos: seq<Geometry>, ray: Ray, sqrt: real -> real, n: nat, k: nat, h: Hit)
    requires ShapesOk(geos) && n <= |geos|
  {
    k < n &&
    NearestAt(geos, ray, sqrt, k).Some? &&
    h == MakeHit(geos[k], ray, NearestAt(geos, ray, sqrt, k).value) &&
    (forall j :: 0 <= j < n && NearestAt(geos, ray, sqrt, j).Some? ==> DistLe(h.t, NearestAt(geos, ray, sqrt, j).value.t)) &&
    (h.t.Fin? ==> forall j :: 0 <= j < k && NearestAt(geos, ray, sqrt, j).Some? ==> NearestAt(geos, ray, sqrt, j).value.t != h.t) &&
    (h.t.Inf? ==> forall j :: k < j < n ==> NearestAt(geos, ray, sqrt, j).None?)
  }

  /** The state the scan keeps before geometry `i`: either nothing has hit
      yet, or the best hit is the closest among the first `i`, won by `k`. */
  ghost predicate ScanState(geos: seq<Geometry>, ray: Ray, sqrt: real -> real, i: nat, bestT: Dist, best: Option<Hit>, k: nat)
    requires ShapesOk(geos) && i <= |geos|
  {
    (best.None? ==> bestT == Inf && forall j :: 0 <= j < i ==> NearestAt(geos, ray, sqrt, j).None?) &&
    (best.Some? ==> bestT == best.value.t && ClosestAmong(geos, ray, sqrt, i, k, best.value))
  }

  /** One step of the scan keeps its state. */
  lemma ScanStep(geos: seq<Geometry>, ray: Ray, sqrt: real -> real, i: nat, bestT: Dist, best: Option<Hit>, k: nat)
    returns (bestT': Dist, best': Option<Hit>, k': nat)
    requires IsSqrt(sqrt) && ShapesOk(geos) && i < |geos|
    requires ScanState(geos, ray, sqrt, i, bestT, best, k)
    ensures ScanState(geos, ray, sqrt, i + 1, bestT', best', k')
    ensures best'.Some? ==> best'.value.t == bestT'
    ensures Scan(geos, ray, sqrt, i, bestT, best) == Scan(geos, ray, sqrt, i + 1, bestT', best')
  {
    var geo := geos[i];
    var wide := NearestAt(geos, ray, sqrt, i);
    var narrow := Shapes.HitTest(geo.shape, ray, Range(Epsilon, bestT), sqrt);
    Shapes.WindowNarrowing(geo.shape, ray, Epsilon, bestT, sqrt);
    if narrow.Some? && DistLe(narrow.value.t, bestT) {
      assert narrow == wide;
      bestT', best', k' := narrow.value.t, Some(MakeHit(geo, ray, narrow.value)), i;
      forall j | 0 <= j < i && NearestAt(geos, ray, sqrt, j).Some?
        ensures DistLe(bestT', NearestAt(geos, ray, sqrt, j).value.t)
      {
        DistLeTotal(bestT', bestT);
      }
      if bestT'.Fin? && geo.shape.Sphere? {
        assert DistLt(bestT', bestT);
      }
      assert ClosestAmong(geos, ray, sqrt, i + 1, k', best'.value);
    } else {
      bestT', best', k' := bestT, best, k;
      if best.Some? {
        if wide.Some? {
          DistLeTotal(bestT, wide.value.t);
        }
        assert ClosestAmong(geos, ray, sqrt, i + 1, k', best'.value);
      }
    }
  }

  /** The scan from a consistent state ends with a closest hit over the
      whole list, or with nothing when no geometry hits. */
  lemma {:induction false} ScanFindsClosest(geos: seq<Geometry>, ray: Ray, sqrt: real -> real, i: nat, bestT: Dist, best: Option<Hit>, k: nat)
    returns (w: nat)
    requires IsSqrt(sqrt) && ShapesOk(geos) && i <= |geos|
    requires ScanState(geos, ray, sqrt, i, bestT, best, k)
    requires best.Some? ==> best.value.t == bestT
    decreases |geos| - i
    ensures var r := Scan(geos, ray, sqrt, i, bestT, best);
            (r.None? <==> forall j :: 0 <= j < |geos| ==> NearestAt(geos, ray, sqrt, j).None?) &&
            (r.Some? ==> ClosestAmong(geos, ray, sqrt, |geos|, w, r.value))
  {
    if i == |geos| {
      w := k;
    } else {
      var bestT', best', k' := ScanStep(geos, ray, sqrt, i, bestT, best, k);
      w := ScanFindsClosest(geos, ray, sqrt, i + 1, bestT', best', k');
    }
  }

  /** `Scene::hit_test` reports nothing exactly when no geometry is hit, and
      otherwise the hit of a geometry whose own hit is closest, the earliest
      such among finite hits and the last background when nothing finite
      is hit. */
  lemma HitTestFindsClosest(geos: seq<Geometry>, ray: Ray, sqrt: real -> real)
    requires IsSqrt(sqrt) && ShapesOk(geos)
    ensures HitTest(geos, ray, sqrt).None? <==> forall j :: 0 <= j < |geos| ==> NearestAt(geos, ray, sqrt, j).None?
    ensures HitTest(geos, ray, sqrt).Some? ==>
      exists k :: ClosestAmong(geos, ray, sqrt, |geos|, k, HitTest(geos, ray, sqrt).value)
  {
    var w := ScanFindsClosest(geos, ray, sqrt, 0, Inf, None, 0);
  }

  /** A list with a background always yields a hit. */
  lemma BackgroundGuaranteesHit(geos: seq<Geometry>, ray: Ray, sqrt: real -> real, b: nat)
    requires IsSqrt(sqrt) && ShapesOk(geos)
    requires b < |geos| && geos[b].shape.Background?
    ensures HitTest(geos, ray, sqrt).Some?
  {
    HitTestFindsClosest(geos, ray, sqrt);
    assert NearestAt(geos, ray, sqrt, b).Some?;
  }

  /** The hit is at infinity (a background's material is reported) exactly
      when no sphere is hit and the list holds a background. */
  lemma BackgroundOnlyWithoutSphereHit(geos: seq<Geometry>, ray: Ray, sqrt: real -> real)
    requires IsSqrt(sqrt) && ShapesOk(geos)
    ensures (HitTest(geos, ray, sqrt).Some? && HitTest(geos, ray, sqrt).value.t.Inf?) <==>
      (forall j :: 0 <= j < |geos| && geos[j].shape.Sphere? ==> NearestAt(geos, ray, sqrt, j).None?) &&
      (exists j :: 0 <= j < |geos| && geos[j].shape.Background?)
  {
    HitTestFindsClosest(geos, ray, sqrt);
    var r := HitTest(geos, ray, sqrt);
    if r.Some? && r.value.t.Inf? {
      var k: nat :| ClosestAmong(geos, ray, sqrt, |geos|, k, r.value);
      assert forall j :: 0 <= j < |geos| && geos[j].shape.Sphere? ==> NearestAt(geos, ray, sqrt, j).None?;
      assert geos[k].shape.Background?;
    }
    if (forall j :: 0 <= j < |geos| && geos[j].shape.Sphere? ==> NearestAt(geos, ray, sqrt, j).None?) &&
       (exists j :: 0 <= j < |geos| && geos[j].shape.Background?) {
      var b :| 0 <= b < |geos| && geos[b].shape.Background?;
      BackgroundGuaranteesHit(geos, ray, sqrt, b);
      var k: nat :| ClosestAmong(geos, ray, sqrt, |geos|, k, r.value);
      assert !geos[k].shape.Sphere?;
    }
  }

  /** The random draws one bounce level consumes: the result of
      `Vec3::random_on_hemisphere` and of `Vec3::random_unit_vector`. */
  datatype BounceDraw = BounceDraw(hemisphere: Vec3, unitVector: Vec3)

  /** The random draws one sample consumes: the two pixel jitters and the
      draws of each bounce level, indexed by the remaining budget. */
  datatype SampleDraw = SampleDraw(jitterU: real, jitterV: real, bounces: seq<BounceDraw>)

  /** A colour, or the NaN colour that normalising a zero-length direction
      spreads through every later operation. */
  datatype Radiance = Defined(colour: Colours.Colour) | NaN

  /** The colour of a ray that hits nothing. */
  const Magenta: Colours.Colour := Colours.New(1.0, 0.0, 1.0)

  /** The two ends of the sky gradient: looking straight down and straight up. */
  const White: Colours.Colour := Colours.New(1.0, 1.0, 1.0)
  const SkyBlue: Colours.Colour := Colours.New(0.5, 0.7, 1.0)

  /** `colour * (reflected * albedo)`. */
  function Attenuated(colour: Colours.Colour, albedo: real, reflected: Radiance): (r: Radiance)
    ensures r.NaN? <==> reflected.NaN?
  {
    match reflected
    case NaN => NaN
    case Defined(c) => Defined(Colours.Tint(colour, Colours.Scale(c, albedo)))
  }

  /** `tint * reflected`. */
  function Tinted(tint: Colours.Colour, reflected: Radiance): (r: Radiance)
    ensures r.NaN? <==> reflected.NaN?
  {
    match reflected
    case NaN => NaN
    case Defined(c) => Defined(Colours.Tint(tint, c))
  }

  /** The `ScreenSpaceGradient` sky: a blend from white to sky blue by the
      height of the unit direction. */
  function SkyGradient(direction: Vec3, sqrt: real -> real): Radiance
  {
    if Length(direction, sqrt) == 0.0 then NaN
    else
      Defined(GradientBlend((Unit(direction, sqrt).y + 1.0) * 0.5))
  }

  /** `white * (1 - a) + sky_blue * a`. */
  function GradientBlend(a: real): Colours.Colour
  {
    Colours.Add(Colours.Scale(White, 1.0 - a), Colours.Scale(SkyBlue, a))
  }

  /** The `NormalSpaceGradient` colour: the normal mapped from [-1, 1] to
      [0, 1] per channel. */
  function NormalColour(n: Vec3): Colours.Colour
  {
    Colours.Scale(Colours.New(n.x + 1.0, n.y + 1.0, n.z + 1.0), 0.5)
  }

  /** The ratio of refractive indices: entering the surface through its
      front face divides by `ior`, leaving it multiplies. */
  function RefractionRatio(frontFace: bool, ior: real): real
    requires frontFace ==> ior != 0.0
  {
    if frontFace then 1.0 / ior else ior
  }

  /** Total internal reflection: Snell's law has no solution when
      `ratio * sin(theta) > 1`. */
  function CannotRefract(ratio: real, unitDirection: Vec3, normal: Vec3, sqrt: real -> real): bool
  {
    ratio * SinTheta(unitDirection, normal, sqrt) > 1.0
  }

  /** The sine of the angle of incidence, from the cosine `-u . n` capped
      at 1. */
  function SinTheta(unitDirection: Vec3, normal: Vec3, sqrt: real -> real): real
  {
    var cosTheta := Min(-Dot(unitDirection, normal), 1.0);
    sqrt(1.0 - Sq(cosTheta))
  }

  /** `refract`: the refracted direction, split into the parts perpendicular
      and parallel to the normal. */
  function Refract(uv: Vec3, n: Vec3, ratio: real, sqrt: real -> real): Vec3
  {
    var cosTheta := Min(-Dot(uv, n), 1.0);
    var perp := Scale(Add(uv, Scale(n, cosTheta)), ratio);
    var s := 1.0 - LengthSquared(perp);
    var parallel := Scale(n, -sqrt(if s < 0.0 then -s else s));
    Add(perp, parallel)
  }

  /** The direction a dielectric sends the ray on: the mirror direction
      under total internal reflection, the refracted one otherwise. */
  function DialectricDirection(ray: Ray, hit: Hit, ior: real, sqrt: real -> real): Vec3
    requires Length(ray.direction, sqrt) != 0.0
    requires hit.frontFace ==> ior != 0.0
  {
    var ratio := RefractionRatio(hit.frontFace, ior);
    var u := Unit(ray.direction, sqrt);
    if CannotRefract(ratio, u, hit.normal, sqrt) then Reflect(ray.direction, hit.normal)
    else Refract(u, hit.normal, ratio, sqrt)
  }

  /** The direction a metal sends the ray on: the mirror direction perturbed
      by `scatter` times a random unit vector. */
  function MetalDirection(ray: Ray, normal: Vec3, draw: BounceDraw, scatter: real): Vec3
  {
    Add(Reflect(ray.direction, normal), Scale(draw.unitVector, scatter))
  }

  /** The ray the surface of `hit` sends on with the draws `draw`: a
      diffuse surface bounces towards the hemisphere draw, a Lambertian one
      towards that draw plus the unit-vector draw, a metal along its
      perturbed mirror direction unless that points into the surface, and a
      dielectric along its reflected or refracted direction unless the
      incoming direction has no length. The other materials send nothing on. */
  function Outgoing(ray: Ray, hit: Hit, draw: BounceDraw, sqrt: real -> real): (out: Option<Ray>)
    requires hit.material.Scatters() ==> hit.t.Fin?
    requires hit.material.Dialectric? ==> hit.material.ior != 0.0
    ensures out.Some? ==> hit.material.Scatters() && out.value.origin == Point(hit, ray)
    ensures hit.material.Diffuse? || hit.material.Lambertian? ==> out.Some?
    ensures hit.material.Metal? ==>
      (out.Some? <==> Dot(MetalDirection(ray, hit.normal, draw, hit.material.scatter), hit.normal) >= 0.0)
    ensures hit.material.Dialectric? ==> (out.Some? <==> Length(ray.direction, sqrt) != 0.0)
  {
    match hit.material
    case Diffuse(_, _) => Some(Ray(Point(hit, ray), draw.hemisphere))
    case Lambertian(_, _) => Some(Ray(Point(hit, ray), Add(draw.hemisphere, draw.unitVector)))
    case Metal(_, scatter) =>
      var direction := MetalDirection(ray, hit.normal, draw, scatter);
      if Dot(direction, hit.normal) < 0.0 then None else Some(Ray(Point(hit, ray), direction))
    case Dialectric(ior) =>
      if Length(ray.direction, sqrt) == 0.0 then None
      else Some(Ray(Point(hit, ray), DialectricDirection(ray, hit, ior, sqrt)))
    case _ => None
  }

  /** The colour a surface shows when it sends no ray on: the gradients and
      solid colours of the emitting materials and black for a metal
      scattering into its surface. A dielectric sends no ray on only when
      struck by a direction of no length, which no scene hit does (see
      `DialectricHitMoves`); the model gives NaN there. */
  function Emitted(ray: Ray, hit: Hit, sqrt: real -> real): Radiance
  {
    match hit.material
    case ScreenSpaceGradient => SkyGradient(ray.direction, sqrt)
    case NormalSpaceGradient => Defined(NormalColour(hit.normal))
    case SolidColour(colour) => Defined(colour)
    case Dialectric(_) => NaN
    case _ => Defined(Colours.Black())
  }

  /** How a scattering surface filters the light its outgoing ray brings
      back: diffuse and Lambertian surfaces attenuate by colour and albedo, a
      metal tints, a dielectric passes the light on unchanged. */
  function Filtered(material: Material, incoming: Radiance): (r: Radiance)
    ensures r.NaN? <==> incoming.NaN?
  {
    match material
    case Diffuse(colour, albedo) => Attenuated(colour, albedo, incoming)
    case Lambertian(colour, albedo) => Attenuated(colour, albedo, incoming)
    case Metal(tint, _) => Tinted(tint, incoming)
    case _ => incoming
  }

  /** `Scene::ray_colour` with the bounce budget `maxBounces`; the draws of
      the level with budget `b` are `draws[b]`. A negative budget gives
      black, a ray that hits nothing gives magenta, and each scattering
      material recurses once with the budget reduced by one. */
  function RayColour(scene: Scene, ray: Ray, maxBounces: int, draws: seq<BounceDraw>, sqrt: real -> real): (r: Radiance)
    requires SceneOk(scene)
    requires maxBounces < |draws|
    decreases maxBounces
    ensures maxBounces < 0 ==> r == Defined(Colours.Black())
    ensures maxBounces >= 0 && HitTest(scene.geometries, ray, sqrt).None? ==> r == Defined(Magenta)
    ensures maxBounces >= 0 && HitTest(scene.geometries, ray, sqrt).Some? ==>
      var hit := HitTest(scene.geometries, ray, sqrt).value;
      (hit.material.ScreenSpaceGradient? ==> r == SkyGradient(ray.direction, sqrt)) &&
      (hit.material.SolidColour? ==> r == Defined(hit.material.colour)) &&
      (hit.material.NormalSpaceGradient? ==> r == Defined(NormalColour(hit.normal))) &&
      (hit.material.Diffuse? ==>
         hit.t.Fin? &&
         r == Attenuated(hit.material.colour, hit.material.albedo,
                RayColour(scene, Ray(Point(hit, ray), draws[maxBounces].hemisphere), maxBounces - 1, draws, sqrt))) &&
      (hit.material.Lambertian? ==>
         hit.t.Fin? &&
         r == Attenuated(hit.material.colour, hit.material.albedo,
                RayColour(scene, Ray(Point(hit, ray), Add(draws[maxBounces].hemisphere, draws[maxBounces].unitVector)), maxBounces - 1, draws, sqrt))) &&
      (hit.material.Metal? ==>
         var direction := MetalDirection(ray, hit.normal, draws[maxBounces], hit.material.scatter);
         (Dot(direction, hit.normal) < 0.0 ==> r == Defined(Colours.Black())) &&
         (Dot(direction, hit.normal) >= 0.0 ==>
            hit.t.Fin? &&
            r == Tinted(hit.material.tint, RayColour(scene, Ray(Point(hit, ray), direction), maxBounces - 1, draws, sqrt)))) &&
      (hit.material.Dialectric? && Length(ray.direction, sqrt) != 0.0 ==>
         hit.t.Fin? && (hit.frontFace ==> hit.material.ior != 0.0) &&
         r == RayColour(scene, Ray(Point(hit, ray), DialectricDirection(ray, hit, hit.material.ior, sqrt)), maxBounces - 1, draws, sqrt))
  {
    if maxBounces < 0 then Defined(Colours.Black())
    else
      match HitTest(scene.geometries, ray, sqrt)
      case None => Defined(Magenta)
      case Some(hit) =>
        HitMaterialFromScene(scene, ray, sqrt);
        match Outgoing(ray, hit, draws[maxBounces], sqrt)
        case None => Emitted(ray, hit, sqrt)
        case Some(out) => Filtered(hit.material, RayColour(scene, out, maxBounces - 1, draws, sqrt))
  }

  /** The hit of a well-formed scene carries the material of one of its
      geometries; a scattering material is therefore hit at a finite
      distance, and a dielectric has a usable index. */
  lemma HitMaterialFromScene(scene: Scene, ray: Ray, sqrt: real -> real)
    requires SceneOk(scene)
    ensures var r := HitTest(scene.geometries, ray, sqrt);
            r.Some? ==>
              (r.value.material.Scatters() ==> r.value.t.Fin?) &&
              (r.value.material.Dialectric? ==> r.value.material.ior != 0.0)
  {
    var r := HitTest(scene.geometries, ray, sqrt);
    if r.Some? && r.value.material.Dialectric? {
      HitTestMaterialIsListed(scene.geometries, ray, sqrt, 0, Inf, None);
      var j :| 0 <= j < |scene.geometries| && scene.geometries[j].material == r.value.material;
    }
  }

  /** A dielectric is only ever hit by a moving ray: scattering materials
      sit on spheres, and a sphere is never hit by a ray without direction.
      So the dielectric recursion of `RayColour` is the one every reachable
      dielectric hit takes. */
  lemma DialectricHitMoves(scene: Scene, ray: Ray, sqrt: real -> real)
    requires SceneOk(scene) && IsSqrt(sqrt)
    ensures var r := HitTest(scene.geometries, ray, sqrt);
            r.Some? && r.value.material.Dialectric? ==> Length(ray.direction, sqrt) != 0.0
  {
    HitMaterialFromScene(scene, ray, sqrt);
    LengthZero(ray.direction, sqrt);
  }

  /** The scan only ever reports the material of a listed geometry. */
  lemma {:induction false} HitTestMaterialIsListed(geos: seq<Geometry>, ray: Ray, sqrt: real -> real, i: nat, bestT: Dist, best: Option<Hit>)
    requires ShapesOk(geos) && i <= |geos|
    requires best.Some? ==> best.value.t == bestT
    requires best.Some? && best.value.t.Fin? ==> Epsilon <= best.value.t.value && ray.direction != Zero
    requires best.Some? ==> exists j :: 0 <= j < |geos| && geos[j].material == best.value.material
    decreases |geos| - i
    ensures var r := Scan(geos, ray, sqrt, i, bestT, best);
            r.Some? ==> exists j :: 0 <= j < |geos| && geos[j].material == r.value.material
  {
    if i < |geos| {
      var geo := geos[i];
      match Shapes.HitTest(geo.shape, ray, Range(Epsilon, bestT), sqrt)
      case Some(h) =>
        if DistLe(h.t, bestT) {
          HitTestMaterialIsListed(geos, ray, sqrt, i + 1, h.t, Some(MakeHit(geo, ray, h)));
        } else {
          HitTestMaterialIsListed(geos, ray, sqrt, i + 1, bestT, best);
        }
      case None =>
        HitTestMaterialIsListed(geos, ray, sqrt, i + 1, bestT, best);
    }
  }

  /** Only the draws of the levels the budget reaches matter: a ray with
      budget `maxBounces` reads `draws[0..maxBounces]` and nothing beyond, so
      the recursion nests at most `maxBounces + 1` levels deep. */
  lemma {:induction false} UsesOnlyFirstDraws(scene: Scene, ray: Ray, maxBounces: int, draws: seq<BounceDraw>, draws': seq<BounceDraw>, sqrt: real -> real)
    requires SceneOk(scene)
    requires maxBounces < |draws| && maxBounces < |draws'|
    requires forall b :: 0 <= b <= maxBounces ==> draws[b] == draws'[b]
    decreases maxBounces
    ensures RayColour(scene, ray, maxBounces, draws, sqrt) == RayColour(scene, ray, maxBounces, draws', sqrt)
  {
    if maxBounces >= 0 {
      var h := HitTest(scene.geometries, ray, sqrt);
      if h.Some? {
        HitMaterialFromScene(scene, ray, sqrt);
        assert draws'[maxBounces] == draws[maxBounces];
        var out := Outgoing(ray, h.value, draws[maxBounces], sqrt);
        if out.Some? {
          UsesOnlyFirstDraws(scene, out.value, maxBounces - 1, draws, draws', sqrt);
        }
      }
    }
  }

  /** On the last level of the budget a scattering surface is black: the
      light it would pass on comes from a call with a negative budget. */
  lemma LastBounceScatterIsBlack(scene: Scene, ray: Ray, draws: seq<BounceDraw>, sqrt: real -> real)
    requires IsSqrt(sqrt)
    requires SceneOk(scene)
    requires 0 < |draws|
    requires HitTest(scene.geometries, ray, sqrt).Some?
    requires HitTest(scene.geometries, ray, sqrt).value.material.Scatters()
    ensures RayColour(scene, ray, 0, draws, sqrt) == Defined(Colours.Black())
  {
    var hit := HitTest(scene.geometries, ray, sqrt).value;
    HitMaterialFromScene(scene, ray, sqrt);
    match hit.material
    case Diffuse(colour, _) =>
      Colours.TintByBlack(colour);
    case Lambertian(colour, _) =>
      Colours.TintByBlack(colour);
    case Metal(tint, _) =>
      Colours.TintByBlack(tint);
    case Dialectric(_) =>
      LengthZero(ray.direction, sqrt);
  }

  /** The blend of white and sky blue by a weight in [0, 1]. */
  lemma GradientBlendBounds(a: real)
    requires 0.0 <= a <= 1.0
    ensures var c := GradientBlend(a);
            0.5 <= Colours.R(c) <= 1.0 && 0.7 <= Colours.G(c) <= 1.0 && Colours.B(c) == 1.0
  {
    var c := GradientBlend(a);
    assert Colours.R(c) == 1.0 - 0.5 * a;
    assert Colours.G(c) == 1.0 - 0.3 * a;
  }

  /** The sky gradient of a moving ray is a defined colour between white
      (looking down) and sky blue (looking up); a ray that does not move
      gives NaN. */
  lemma SkyGradientBetweenWhiteAndBlue(direction: Vec3, sqrt: real -> real)
    requires IsSqrt(sqrt)
    ensures SkyGradient(direction, sqrt).NaN? <==> direction == Zero
    ensures SkyGradient(direction, sqrt).Defined? ==>
      var c := SkyGradient(direction, sqrt).colour;
      0.5 <= Colours.R(c) <= 1.0 && 0.7 <= Colours.G(c) <= 1.0 && Colours.B(c) == 1.0
  {
    SkyGradientNaNOnlyWhenStill(direction, sqrt);
    if direction != Zero {
      SkyGradientOfMovingRay(direction, sqrt);
    }
  }

  lemma SkyGradientNaNOnlyWhenStill(direction: Vec3, sqrt: real -> real)
    requires IsSqrt(sqrt)
    ensures SkyGradient(direction, sqrt).NaN? <==> direction == Zero
  {
    LengthZero(direction, sqrt);
  }

  lemma SkyGradientOfMovingRay(direction: Vec3, sqrt: real -> real)
    requires IsSqrt(sqrt)
    requires direction != Zero
    ensures SkyGradient(direction, sqrt).Defined? &&
      var c := SkyGradient(direction, sqrt).colour;
      0.5 <= Colours.R(c) <= 1.0 && 0.7 <= Colours.G(c) <= 1.0 && Colours.B(c) == 1.0
  {
    UnitHeightBounded(direction, sqrt);
    GradientBlendBounds((Unit(direction, sqrt).y + 1.0) * 0.5);
  }

  /** The height of a normalised non-zero vector lies in [-1, 1]. */
  lemma UnitHeightBounded(v: Vec3, sqrt: real -> real)
    requires IsSqrt(sqrt)
    requires v != Zero
    ensures Length(v, sqrt) != 0.0
    ensures -1.0 <= Unit(v, sqrt).y <= 1.0
  {
    UnitHasLengthOne(v, sqrt);
    UnitComponentsBounded(Unit(v, sqrt));
  }

  /** A unit normal is mapped into the unit colour cube. */
  lemma NormalColourInUnitCube(n: Vec3)
    requires LengthSquared(n) == 1.0
    ensures var c := NormalColour(n);
            0.0 <= Colours.R(c) <= 1.0 && 0.0 <= Colours.G(c) <= 1.0 && 0.0 <= Colours.B(c) <= 1.0
  {
    UnitComponentsBounded(n);
  }

  /** Entering through the front face and leaving through the back face use
      reciprocal ratios. */
  lemma RefractionRatiosReciprocal(ior: real)
    requires ior != 0.0
    ensures RefractionRatio(true, ior) * RefractionRatio(false, ior) == 1.0
  {
  }

  /** Given the square-root contract, the sine of the angle between two
      unit vectors, as `CannotRefract` computes it, lies in [0, 1]. */
  lemma SineOfIncidenceBounded(u: Vec3, n: Vec3, sqrt: real -> real)
    requires IsSqrt(sqrt)
    requires LengthSquared(u) == 1.0 && LengthSquared(n) == 1.0
    ensures 0.0 <= SinTheta(u, n, sqrt) <= 1.0
  {
    UnitDotBounded(u, n);
    var cosTheta := Min(-Dot(u, n), 1.0);
    assert -1.0 <= cosTheta <= 1.0;
    var arg := 1.0 - Sq(cosTheta);
    SqNonNegative(cosTheta);
    if cosTheta >= 0.0 {
      SqMonotone(cosTheta, 1.0);
    } else {
      SqNegate(cosTheta);
      SqMonotone(-cosTheta, 1.0);
    }
    assert 0.0 <= arg <= 1.0;
    var sinTheta := sqrt(arg);
    assert Sq(sinTheta) == arg;
    SqMonotone(sinTheta, 1.0);
  }

  /** Given the square-root contract, a unit ray entering a medium at least
      as dense as air (`ior >= 1`) through the front face is never totally
      internally reflected. */
  lemma EnteringDenserMediumRefracts(ior: real, u: Vec3, n: Vec3, sqrt: real -> real)
    requires IsSqrt(sqrt)
    requires ior >= 1.0
    requires LengthSquared(u) == 1.0 && LengthSquared(n) == 1.0
    ensures !CannotRefract(RefractionRatio(true, ior), u, n, sqrt)
  {
    SineOfIncidenceBounded(u, n, sqrt);
    var sinTheta := SinTheta(u, n, sqrt);
    var ratio := 1.0 / ior;
    assert 0.0 < ratio <= 1.0;
    MulMonotone(ratio, 1.0, sinTheta);
    assert RefractionRatio(true, ior) == ratio;
  }

  /** The colour one sample of pixel `coord` contributes: the jittered ray's
      colour with the full bounce budget. */
  function SampleColour(scene: Scene, coord: (nat, nat), draw: SampleDraw, sqrt: real -> real): Radiance
    requires SceneOk(scene)
    requires SampleBounces < |draw.bounces|
  {
    RayColour(scene, ScreenToWorldSampled(scene.camera, coord, draw.jitterU, draw.jitterV), SampleBounces, draw.bounces, sqrt)
  }

  /** Every sample carries the draws of every bounce level. */
  predicate DrawsCoverBudget(draws: seq<SampleDraw>)
  {
    forall i :: 0 <= i < |draws| ==> SampleBounces < |draws[i].bounces|
  }

  /** `colour += sample`, with NaN absorbing. */
  function Accumulate(sum: Radiance, sample: Radiance): (r: Radiance)
    ensures r.NaN? <==> sum.NaN? || sample.NaN?
  {
    if sum.NaN? || sample.NaN? then NaN else Defined(Colours.AddAssign(sum.colour, sample.colour))
  }

  /** The running total of the `render_pixel` loop after the given sample
      colours, starting from black. */
  function Total(colours: seq<Radiance>): Radiance
  {
    if |colours| == 0 then Defined(Colours.Black())
    else Accumulate(Total(colours[..|colours| - 1]), colours[|colours| - 1])
  }

  /** The sample colours of pixel `coord`, one per sample's draws. */
  function SampleColours(scene: Scene, coord: (nat, nat), draws: seq<SampleDraw>, sqrt: real -> real): (colours: seq<Radiance>)
    requires SceneOk(scene) && DrawsCoverBudget(draws)
    ensures |colours| == |draws|
    ensures forall i :: 0 <= i < |draws| ==> colours[i] == SampleColour(scene, coord, draws[i], sqrt)
  {
    seq(|draws|, i requires 0 <= i < |draws| => SampleColour(scene, coord, draws[i], sqrt))
  }

  /** `Scene::render_pixel`: the mean of `samples` sample colours. The
      division needs at least one sample. */
  function RenderPixel(scene: Scene, coord: (nat, nat), samples: nat, draws: seq<SampleDraw>, sqrt: real -> real): (r: Radiance)
    requires SceneOk(scene)
    requires samples > 0 && |draws| == samples && DrawsCoverBudget(draws)
  {
    var sum := Total(SampleColours(scene, coord, draws, sqrt));
    if sum.NaN? then NaN else Defined(Colours.Div(sum.colour, samples as real))
  }

  /** When every sample yields colour `c`, the running total after `n`
      samples is `c * n`. */
  lemma {:induction false} TotalOfConstant(colours: seq<Radiance>, c: Colours.Colour)
    requires forall i :: 0 <= i < |colours| ==> colours[i] == Defined(c)
    ensures Total(colours) == Defined(Colours.Scale(c, |colours| as real))
  {
    if |colours| == 0 {
      Colours.ScaleByZero(c);
    } else {
      var n := |colours| - 1;
      TotalOfConstant(colours[..n], c);
      Colours.ScaleAddOne(c, n as real);
    }
  }

  /** When every sample yields colour `c`, the pixel is `c`. */
  lemma RenderPixelOfConstant(scene: Scene, coord: (nat, nat), samples: nat, draws: seq<SampleDraw>, sqrt: real -> real, c: Colours.Colour)
    requires SceneOk(scene)
    requires samples > 0 && |draws| == samples && DrawsCoverBudget(draws)
    requires forall i :: 0 <= i < |draws| ==> SampleColour(scene, coord, draws[i], sqrt) == Defined(c)
    ensures RenderPixel(scene, coord, samples, draws, sqrt) == Defined(c)
  {
    TotalOfConstant(SampleColours(scene, coord, draws, sqrt), c);
    Colours.DivUndoesScale(c, samples as real);
  }

  /** A single NaN sample makes the running total NaN from then on. */
  lemma {:induction false} NaNSpoilsTotal(colours: seq<Radiance>, k: nat)
    requires k < |colours| && colours[k].NaN?
    ensures Total(colours).NaN?
  {
    var n := |colours| - 1;
    if k < n {
      NaNSpoilsTotal(colours[..n], k);
    }
  }

  /** A single NaN sample makes the whole pixel NaN. */
  lemma NaNSampleSpoilsPixel(scene: Scene, coord: (nat, nat), draws: seq<SampleDraw>, sqrt: real -> real, k: nat)
    requires SceneOk(scene) && DrawsCoverBudget(draws)
    requires k < |draws| && SampleColour(scene, coord, draws[k], sqrt).NaN?
    ensures RenderPixel(scene, coord, |draws|, draws, sqrt).NaN?
  {
    NaNSpoilsTotal(SampleColours(scene, coord, draws, sqrt), k);
  }
}
