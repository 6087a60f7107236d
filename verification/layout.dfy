/** The image pipeline shared by the two binaries (src/main.rs and
    src/bin/raytracer.rs): pixel `index` of a row-major buffer is pixel
    `(index % width, index / width)`, every pixel is rendered into its slot,
    and the colours are packed into a byte buffer `Width` bytes per pixel. */
module ImageLayout {
  import opened Numbers
  import opened Vectors
  import opened Rays
  import Colours
  import opened Pixels
  import opened Shapes
  import opened Geometries
  import opened Cameras
  import opened Scenes

  /** The image size and sample count fixed in src/main.rs. */
  const MainWidth: nat := 400
  const MainHeight: nat := 225
  const MainSamples: nat := 500

  /** The command-line defaults of src/bin/raytracer.rs. */
  const RaytracerWidth: nat := 400
  const RaytracerHeight: nat := 255
  const RaytracerSamples: nat := 500

  /** The coordinate of buffer slot `index`: column `index % width`, row
      `index / width`. */
  function PixelCoord(index: nat, width: nat): (nat, nat)
    requires width > 0
  {
    (index % width, index / width)
  }

  /** The buffer slot of a coordinate, row after row. */
  function PixelIndex(coord: (nat, nat), width: nat): nat
  {
    coord.1 * width + coord.0
  }

  /** Every slot of a `width * height` buffer maps to a coordinate inside
      the image. */
  lemma PixelCoordInBounds(index: nat, width: nat, height: nat)
    requires index < width * height
    ensures width > 0
    ensures PixelCoord(index, width).0 < width && PixelCoord(index, width).1 < height
  {
    var y := index / width;
    if y >= height {
      MulMonotoneNat(height, y, width);
    }
  }

  /** Slot to coordinate and back is the identity. */
  lemma PixelCoordRoundTrip(index: nat, width: nat)
    requires width > 0
    ensures PixelIndex(PixelCoord(index, width), width) == index
  {
  }

  /** Coordinate to slot and back is the identity for columns inside the
      image. */
  lemma PixelIndexRoundTrip(coord: (nat, nat), width: nat)
    requires coord.0 < width
    ensures PixelCoord(PixelIndex(coord, width), width) == coord
  {
    var i := PixelIndex(coord, width);
    DivModUnique(i, width, coord.1, coord.0);
  }

  /** Distinct slots are distinct pixels: no pixel is rendered twice. */
  lemma PixelCoordInjective(i: nat, j: nat, width: nat)
    requires width > 0
    requires PixelCoord(i, width) == PixelCoord(j, width)
    ensures i == j
  {
    PixelCoordRoundTrip(i, width);
    PixelCoordRoundTrip(j, width);
  }

  /** The pixel buffer: `width * height` default colours. */
  function NewPixelBuffer(width: nat, height: nat): (pixels: seq<Colours.Colour>)
    ensures |pixels| == width * height
    ensures forall i :: 0 <= i < |pixels| ==> pixels[i] == Colours.Default()
  {
    seq(width * height, _ => Colours.Default())
  }

  /** Every sample of every pixel carries its draws. */
  predicate ImageDrawsOk(draws: seq<seq<SampleDraw>>, samples: nat)
  {
    forall i :: 0 <= i < |draws| ==> |draws[i]| == samples && DrawsCoverBudget(draws[i])
  }

  /** The rendering loop: slot `index` holds `render_pixel` of its
      coordinate. The sample count must be positive, since `render_pixel`
      divides by it. */
  function RenderImage(scene: Scene, width: nat, height: nat, samples: nat, draws: seq<seq<SampleDraw>>, sqrt: real -> real): (image: seq<Radiance>)
    requires SceneOk(scene)
    requires samples > 0 && |draws| == width * height && ImageDrawsOk(draws, samples)
    ensures |image| == width * height
  {
    seq(width * height, index requires 0 <= index < width * height =>
      PixelCoordInBounds(index, width, height);
      RenderPixel(scene, PixelCoord(index, width), samples, draws[index], sqrt))
  }

  /** Every coordinate of the image is rendered, into slot
      `y * width + x`, with that slot's draws. */
  lemma EveryPixelRendered(scene: Scene, width: nat, height: nat, samples: nat, draws: seq<seq<SampleDraw>>, sqrt: real -> real, x: nat, y: nat)
    requires SceneOk(scene)
    requires samples > 0 && |draws| == width * height && ImageDrawsOk(draws, samples)
    requires x < width && y < height
    ensures PixelIndex((x, y), width) < width * height
    ensures RenderImage(scene, width, height, samples, draws, sqrt)[PixelIndex((x, y), width)]
            == RenderPixel(scene, (x, y), samples, draws[PixelIndex((x, y), width)], sqrt)
  {
    MulMonotoneNat(y + 1, height, width);
    PixelIndexRoundTrip((x, y), width);
  }

  /** The byte pixel of a rendered colour; a NaN colour casts to zero bytes. */
  function PixelOf(r: Radiance): RGB
  {
    match r
    case NaN => RGB(0, 0, 0)
    case Defined(c) => FromColour(c)
  }

  /** Slot `index`'s bytes lie inside a buffer of `n` pixels. */
  lemma SliceInBounds(index: nat, n: nat)
    requires index < n
    ensures index * Width + Width <= n * Width
  {
  }

  /** The byte slices of distinct slots do not overlap. */
  lemma SlicesDisjoint(i: nat, j: nat)
    requires i != j
    ensures i * Width + Width <= j * Width || j * Width + Width <= i * Width
  {
  }

  /** The packing loop of `write_to_png`: a zeroed buffer of
      `|pixels| * Width` bytes, then each pixel written into its slice. */
  method EncodePixels(pixels: seq<Radiance>) returns (data: seq<byte>)
    ensures |data| == |pixels| * Width
    ensures forall i :: 0 <= i < |pixels| ==> data[i * Width .. i * Width + Width] == PixelOf(pixels[i]).Bytes()
  {
    data := seq(|pixels| * Width, _ => 0);
    var index := 0;
    while index < |pixels|
      invariant 0 <= index <= |pixels|
      invariant |data| == |pixels| * Width
      invariant forall i :: 0 <= i < index ==> data[i * Width .. i * Width + Width] == PixelOf(pixels[i]).Bytes()
    {
      var start := index * Width;
      var written := Write(PixelOf(pixels[index]), data[start .. start + Width]);
      ghost var before := data;
      data := data[..start] + written + data[start + Width..];
      forall i | 0 <= i < index
        ensures data[i * Width .. i * Width + Width] == PixelOf(pixels[i]).Bytes()
      {
        assert data[i * Width .. i * Width + Width] == before[i * Width .. i * Width + Width];
      }
      assert data[start .. start + Width] == written;
      index := index + 1;
    }
  }

  /** The scene of src/main.rs: ground, three spheres and a sky, seen by an
      orthogonal camera at the origin looking down -z. */
  function MainScene(): Scene
  {
    var eye := Ray(Vec3(0.0, 0.0, 0.0), Vec3(0.0, 0.0, -1.0));
    Scene(OrthogonalCamera(eye, 1.0, (MainWidth, MainHeight)), MainGeometries())
  }

  function MainGeometries(): seq<Geometry>
  {
    [ Geometry(Sphere(Vec3(0.0, -100.5, -1.0), 100.0), Lambertian(Colours.New(0.8, 0.8, 0.0), 0.5)),
      Geometry(Sphere(Vec3(0.0, 0.0, -1.0), 0.5), Lambertian(Colours.New(0.7, 0.3, 0.3), 0.5)),
      Geometry(Sphere(Vec3(-1.0, 0.0, -1.0), 0.5), Metal(Colours.New(0.8, 0.8, 0.8), 0.3)),
      Geometry(Sphere(Vec3(1.0, 0.0, -1.0), 0.5), Metal(Colours.New(0.8, 0.6, 0.2), 1.0)),
      Geometry(Background, ScreenSpaceGradient) ]
  }

  /** The main scene's geometries meet the integrator's requirements. */
  lemma MainGeometriesOk()
    ensures GeometriesOk(MainGeometries())
  {
    var geos := MainGeometries();
    forall i | 0 <= i < |geos|
      ensures geos[i].shape.Sphere? ==> geos[i].shape.radius != 0.0
      ensures geos[i].shape.Background? ==> !geos[i].material.Scatters()
      ensures geos[i].material.Dialectric? ==> geos[i].material.ior != 0.0
    {
      assert i < 4 ==> geos[i].shape.Sphere? && !geos[i].material.Dialectric?;
    }
  }

  /** Thanks to its sky, every ray of the main scene hits something. */
  lemma MainSceneAlwaysHits(ray: Ray, sqrt: real -> real)
    requires IsSqrt(sqrt)
    ensures Scenes.HitTest(MainGeometries(), ray, sqrt).Some?
  {
    MainGeometriesOk();
    BackgroundGuaranteesHit(MainGeometries(), ray, sqrt, 4);
  }

  /** The image of src/main.rs: 400 by 225 pixels, 500 samples each. */
  function MainImage(draws: seq<seq<SampleDraw>>, sqrt: real -> real): (image: seq<Radiance>)
    requires |draws| == MainWidth * MainHeight && ImageDrawsOk(draws, MainSamples)
    ensures |image| == 90000
  {
    MainGeometriesOk();
    RenderImage(MainScene(), MainWidth, MainHeight, MainSamples, draws, sqrt)
  }

  /** The image of src/bin/raytracer.rs: the loaded geometries seen by the
      orthogonal camera at the origin looking down -z, rendered at the
      requested size and sample count. */
  function RaytracerImage(geometries: seq<Geometry>, width: nat, height: nat, samples: nat, draws: seq<seq<SampleDraw>>, sqrt: real -> real): (image: seq<Radiance>)
    requires GeometriesOk(geometries)
    requires width > 0 && height > 0 && samples > 0
    requires |draws| == width * height && ImageDrawsOk(draws, samples)
    ensures |image| == width * height
  {
    RenderImage(RaytracerScene(geometries, width, height), width, height, samples, draws, sqrt)
  }

  /** The image of src/bin/raytracer.rs run without size or sample
      options: 400 by 255 pixels, 500 samples each. */
  function RaytracerDefaultImage(geometries: seq<Geometry>, draws: seq<seq<SampleDraw>>, sqrt: real -> real): (image: seq<Radiance>)
    requires GeometriesOk(geometries)
    requires |draws| == RaytracerWidth * RaytracerHeight && ImageDrawsOk(draws, RaytracerSamples)
    ensures |image| == 102000
  {
    RaytracerImage(geometries, RaytracerWidth, RaytracerHeight, RaytracerSamples, draws, sqrt)
  }

  /** The scene src/bin/raytracer.rs builds around the loaded geometries. */
  function RaytracerScene(geometries: seq<Geometry>, width: nat, height: nat): Scene
    requires width > 0 && height > 0
  {
    var eye := Ray(Vec3(0.0, 0.0, 0.0), Vec3(0.0, 0.0, -1.0));
    Scene(OrthogonalCamera(eye, 1.0, (width, height)), geometries)
  }
}
