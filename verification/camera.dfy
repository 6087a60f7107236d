/** The orthogonal camera of src/camera/mod.rs: it maps integer pixel
    coordinates to rays from the eye through a viewport of height 2 placed
    `focalLength` in front of the eye along -z. */
module Cameras {
  import opened Numbers
  import opened Vectors
  import opened Rays

  /** The lens of src/camera/len.rs: the centre of pixel (0, 0) and the
      steps between neighbouring pixel centres. */
  datatype CameraLens = Orthogonal(pixel0: Vec3, deltaU: Vec3, deltaV: Vec3)

  datatype Camera = Camera(eye: Ray, lens: CameraLens)

  const ViewportHeight: real := 2.0

  /** `Camera::orthogonal`. Both image dimensions must be positive, since
      the pixel steps divide by them. */
  function OrthogonalCamera(eye: Ray, focalLength: real, imageSize: (nat, nat)): (c: Camera)
    requires imageSize.0 > 0 && imageSize.1 > 0
    ensures c.eye == eye
    ensures c.lens.deltaU == Vec3(2.0 / imageSize.1 as real, 0.0, 0.0)
    ensures c.lens.deltaV == Vec3(0.0, -2.0 / imageSize.1 as real, 0.0)
    ensures c.lens.pixel0.z == eye.origin.z - focalLength
  {
    var w := imageSize.0 as real;
    var h := imageSize.1 as real;
    var viewportWidth := ViewportHeight * w / h;
    var viewportU := New((viewportWidth, 0.0, 0.0));
    var viewportV := New((0.0, -ViewportHeight, 0.0));
    var deltaU := Div(viewportU, w);
    var deltaV := Div(viewportV, h);
    var upperLeft := Sub(Sub(Sub(eye.origin, New((0.0, 0.0, focalLength))), Div(viewportU, 2.0)), Div(viewportV, 2.0));
    var pixel0 := Add(upperLeft, Scale(Add(deltaU, deltaV), 0.5));
    Camera(eye, Orthogonal(pixel0, deltaU, deltaV))
  }

  /** The world position of the centre of pixel `coord`. */
  function PixelCentre(lens: CameraLens, coord: (nat, nat)): Vec3
  {
    Add(Add(lens.pixel0, Scale(lens.deltaU, coord.0 as real)), Scale(lens.deltaV, coord.1 as real))
  }

  /** `screen_to_world`: the ray from the eye that reaches the centre of the
      pixel at parameter 1. */
  function ScreenToWorld(camera: Camera, coord: (nat, nat)): (r: Ray)
    ensures r.origin == camera.eye.origin
    ensures At(r, 1.0) == PixelCentre(camera.lens, coord)
  {
    Ray(camera.eye.origin, Sub(PixelCentre(camera.lens, coord), camera.eye.origin))
  }

  /** `screen_to_world_sampled`, with the two uniform draws of
      `rand::random::<f64>()` passed in as `drawU` and `drawV`: the direction
      is moved by `deltaU * (drawU - 0.5) + deltaV * (drawV - 0.5)`. */
  function ScreenToWorldSampled(camera: Camera, coord: (nat, nat), drawU: real, drawV: real): (r: Ray)
    ensures r.origin == ScreenToWorld(camera, coord).origin
  {
    var ray := ScreenToWorld(camera, coord);
    var px := -0.5 + drawU;
    var py := -0.5 + drawV;
    var sample := Add(Scale(camera.lens.deltaU, px), Scale(camera.lens.deltaV, py));
    Ray(ray.origin, Add(ray.direction, sample))
  }

  /** Moving one pixel right moves the direction by `deltaU`; moving one pixel
      down moves it by `deltaV`. */
  lemma NeighbouringPixels(camera: Camera, x: nat, y: nat)
    ensures ScreenToWorld(camera, (x + 1, y)).direction == Add(ScreenToWorld(camera, (x, y)).direction, camera.lens.deltaU)
    ensures ScreenToWorld(camera, (x, y + 1)).direction == Add(ScreenToWorld(camera, (x, y)).direction, camera.lens.deltaV)
  {
    var lens := camera.lens;
    assert Scale(lens.deltaU, (x + 1) as real) == Add(Scale(lens.deltaU, x as real), lens.deltaU);
    assert Scale(lens.deltaV, (y + 1) as real) == Add(Scale(lens.deltaV, y as real), lens.deltaV);
  }

  /** The centres of the first pixel (0, 0) and the last pixel (w-1, h-1)
      lie symmetrically about the viewport centre `eye.origin - (0, 0, f)`. */
  lemma CornerPixelsSymmetric(eye: Ray, focalLength: real, w: nat, h: nat)
    requires w > 0 && h > 0
    ensures var lens := OrthogonalCamera(eye, focalLength, (w, h)).lens;
            Add(PixelCentre(lens, (0, 0)), PixelCentre(lens, (w - 1, h - 1)))
            == Scale(Sub(eye.origin, Vec3(0.0, 0.0, focalLength)), 2.0)
  {
    var lens := OrthogonalCamera(eye, focalLength, (w, h)).lens;
    var wr := w as real;
    var hr := h as real;
    var vw := ViewportHeight * wr / hr;
    assert lens.deltaU.x * wr == vw;
    assert lens.deltaV.y * hr == -ViewportHeight;
  }

  /** At parameter 1 the sampled ray reaches the pixel centre moved by
      `deltaU * (drawU - 0.5) + deltaV * (drawV - 0.5)`. */
  lemma SampleOffset(camera: Camera, coord: (nat, nat), drawU: real, drawV: real)
    ensures At(ScreenToWorldSampled(camera, coord, drawU, drawV), 1.0)
            == Add(PixelCentre(camera.lens, coord),
                   Add(Scale(camera.lens.deltaU, -0.5 + drawU), Scale(camera.lens.deltaV, -0.5 + drawV)))
  {
  }

  /** With draws in [0, 1), the sampled ray of a camera built by
      `OrthogonalCamera` reaches, at parameter 1, a point within half a pixel
      (`1/h` world units) of the pixel centre in x and y, in the viewport
      plane. */
  lemma SampleWithinPixel(eye: Ray, focalLength: real, w: nat, h: nat, coord: (nat, nat), drawU: real, drawV: real)
    requires w > 0 && h > 0
    requires 0.0 <= drawU < 1.0 && 0.0 <= drawV < 1.0
    ensures var camera := OrthogonalCamera(eye, focalLength, (w, h));
            var p := At(ScreenToWorldSampled(camera, coord, drawU, drawV), 1.0);
            var c := PixelCentre(camera.lens, coord);
            c.x - 1.0 / h as real <= p.x < c.x + 1.0 / h as real &&
            c.y - 1.0 / h as real < p.y <= c.y + 1.0 / h as real &&
            p.z == c.z
  {
    var camera := OrthogonalCamera(eye, focalLength, (w, h));
    var step := 2.0 / h as real;
    var half := 1.0 / h as real;
    assert 0.0 < step && 0.5 * step == half;
    var px := -0.5 + drawU;
    var py := -0.5 + drawV;
    SampleOffset(camera, coord, drawU, drawV);
    var offset := Add(Scale(camera.lens.deltaU, px), Scale(camera.lens.deltaV, py));
    assert offset == Vec3(px * step, py * -step, 0.0);
    MulMonotone(-0.5, px, step);
    MulStrictlyMonotone(px, 0.5, step);
    MulMonotone(-0.5, py, step);
    MulStrictlyMonotone(py, 0.5, step);
    assert py * -step == -(py * step);
  }
}
