/** The stock scene generator of src/bin/create_scene.rs: a ground sphere,
    a grid of up to 22 x 22 small spheres with random offsets and materials,
    three large spheres and a sky. The random numbers of each grid cell are
    passed in as a `CellDraw`, in row-major cell order. */
module StockScenes {
  import opened Numbers
  import opened Vectors
  import opened Rays
  import Colours
  import opened Shapes
  import opened Geometries
  import Scenes

  /** The grid runs over `a, b` in `-11..11`: 22 cells a side. */
  const GridMin: int := -11
  const GridSide: nat := 22
  const CellCount: nat := 484

  const SmallRadius: real := 0.2

  /** Small spheres within `Clearance` of `ClearanceCentre` are skipped, to
      keep the metal sphere free. */
  const ClearanceCentre: Vec3 := Vec3(4.0, 0.2, 0.0)
  const Clearance: real := 0.9

  /** The draws of one grid cell: the two centre offsets, the material
      variate, the two colours a Lambertian sphere multiplies, and the tint
      and scatter draw of a metal sphere. A cell that is skipped leaves its
      material draws unused. */
  datatype CellDraw = CellDraw(offsetX: real, offsetZ: real, variate: real,
                               colourA: Colours.Colour, colourB: Colours.Colour,
                               tint: Colours.Colour, scatter: real)

  const Ground: Geometry := Geometry(Sphere(Vec3(0.0, -1000.0, 0.0), 1000.0), Lambertian(Colours.New(0.5, 0.5, 0.5), 0.3))
  const GlassSphere: Geometry := Geometry(Sphere(Vec3(0.0, 1.0, 0.0), 1.0), Dialectric(1.5))
  const MatteSphere: Geometry := Geometry(Sphere(Vec3(-4.0, 1.0, 0.0), 1.0), Lambertian(Colours.New(0.4, 0.2, 0.1), 1.0))
  const MetalSphere: Geometry := Geometry(Sphere(Vec3(4.0, 1.0, 0.0), 1.0), Metal(Colours.New(0.7, 0.6, 0.5), 0.0))
  const Sky: Geometry := Geometry(Background, ScreenSpaceGradient)

  /** The material of a small sphere, chosen by the variate: diffuse below
      0.8, metal below 0.95, glass otherwise. */
  function SmallMaterial(draw: CellDraw): Material
  {
    if draw.variate < 0.8 then Lambertian(Colours.Tint(draw.colourA, draw.colourB), 1.0)
    else if draw.variate < 0.95 then Metal(draw.tint, draw.scatter * 0.5)
    else Dialectric(1.5)
  }

  /** The centre of the small sphere of cell `(a, b)`. */
  function SmallCentre(a: int, b: int, draw: CellDraw): Vec3
  {
    Vec3(a as real + draw.offsetX, 0.2, b as real + draw.offsetZ)
  }

  /** The small sphere of cell `(a, b)`, or nothing when its centre lies
      within the clearance. */
  function SmallSphere(a: int, b: int, draw: CellDraw, sqrt: real -> real): Option<Geometry>
  {
    var centre := SmallCentre(a, b, draw);
    if Length(Sub(centre, ClearanceCentre), sqrt) <= Clearance then None
    else Some(Geometry(Sphere(centre, SmallRadius), SmallMaterial(draw)))
  }

  /** The grid cell visited `k`-th by the two nested loops. */
  function Cell(k: nat): (int, int)
  {
    (GridMin + k / GridSide, GridMin + k % GridSide)
  }

  /** The small spheres of the first `n` cells, in loop order. */
  function SmallSpheres(draws: seq<CellDraw>, sqrt: real -> real, n: nat): (spheres: seq<Geometry>)
    requires n <= |draws|
    ensures |spheres| <= n
    ensures forall i :: 0 <= i < |spheres| ==>
      spheres[i].shape.Sphere? && spheres[i].shape.radius == SmallRadius && spheres[i].material.Scatters() &&
      (spheres[i].material.Dialectric? ==> spheres[i].material.ior == 1.5)
  {
    if n == 0 then []
    else
      var cell := Cell(n - 1);
      var previous := SmallSpheres(draws, sqrt, n - 1);
      match SmallSphere(cell.0, cell.1, draws[n - 1], sqrt)
      case None => previous
      case Some(g) => previous + [g]
  }

  /** `generate_random_spheres`: the ground, the small spheres of all 484
      cells, the glass, matte and metal spheres and the sky, in that order. */
  function RandomSpheres(draws: seq<CellDraw>, sqrt: real -> real): (geos: seq<Geometry>)
    requires |draws| == CellCount
    ensures 5 <= |geos| <= 5 + CellCount
    ensures geos[0] == Ground && geos[|geos| - 1] == Sky
  {
    [Ground] + SmallSpheres(draws, sqrt, CellCount) + [GlassSphere, MatteSphere, MetalSphere, Sky]
  }

  /** The generator as the nested loops of the source: row `a`, column `b`,
      skipping the cells inside the clearance. */
  method GenerateRandomSpheres(draws: seq<CellDraw>, sqrt: real -> real) returns (geos: seq<Geometry>)
    requires |draws| == CellCount
    ensures geos == RandomSpheres(draws, sqrt)
  {
    geos := [Ground];
    var k := 0;
    var a := GridMin;
    while a < GridMin + GridSide
      invariant GridMin <= a <= GridMin + GridSide
      invariant k == (a - GridMin) * GridSide
      invariant geos == [Ground] + SmallSpheres(draws, sqrt, k)
    {
      var b := GridMin;
      while b < GridMin + GridSide
        invariant GridMin <= b <= GridMin + GridSide
        invariant k == (a - GridMin) * GridSide + (b - GridMin)
        invariant geos == [Ground] + SmallSpheres(draws, sqrt, k)
      {
        CellOfLoopIndex(a, b);
        var centre := Vec3(a as real + draws[k].offsetX, 0.2, b as real + draws[k].offsetZ);
        if Length(Sub(centre, ClearanceCentre), sqrt) > Clearance {
          geos := geos + [Geometry(Sphere(centre, SmallRadius), SmallMaterial(draws[k]))];
        }
        SmallSpheresStep(draws, sqrt, k);
        k := k + 1;
        b := b + 1;
      }
      a := a + 1;
    }
    geos := geos + [GlassSphere, MatteSphere, MetalSphere, Sky];
  }

  /** One more cell appends that cell's sphere, if it keeps one. */
  lemma SmallSpheresStep(draws: seq<CellDraw>, sqrt: real -> real, k: nat)
    requires k < |draws|
    ensures SmallSpheres(draws, sqrt, k + 1) ==
      match SmallSphere(Cell(k).0, Cell(k).1, draws[k], sqrt)
      case None => SmallSpheres(draws, sqrt, k)
      case Some(g) => SmallSpheres(draws, sqrt, k) + [g]
  {
  }

  /** Loop iteration `(a, b)` visits cell number `(a + 11) * 22 + (b + 11)`,
      and that number maps back to `(a, b)`. */
  lemma CellOfLoopIndex(a: int, b: int)
    requires GridMin <= a < GridMin + GridSide && GridMin <= b < GridMin + GridSide
    ensures (a - GridMin) * GridSide + (b - GridMin) < CellCount
    ensures Cell((a - GridMin) * GridSide + (b - GridMin)) == (a, b)
  {
    DivModUnique((a - GridMin) * GridSide + (b - GridMin), GridSide, a - GridMin, b - GridMin);
  }

  /** Every cell number below 484 names a cell of the grid. */
  lemma CellInGrid(k: nat)
    requires k < CellCount
    ensures GridMin <= Cell(k).0 < GridMin + GridSide && GridMin <= Cell(k).1 < GridMin + GridSide
  {
  }

  /** Given the square-root contract, a cell keeps its sphere exactly when
      the centre's squared distance to the clearance centre exceeds 0.81. */
  lemma SmallSphereKeptIff(a: int, b: int, draw: CellDraw, sqrt: real -> real)
    requires IsSqrt(sqrt)
    ensures SmallSphere(a, b, draw, sqrt).Some? <==>
            LengthSquared(Sub(SmallCentre(a, b, draw), ClearanceCentre)) > Sq(Clearance)
  {
    var d := Sub(SmallCentre(a, b, draw), ClearanceCentre);
    var len := Length(d, sqrt);
    assert 0.0 <= len && Sq(len) == LengthSquared(d);
    if len <= Clearance {
      SqMonotone(len, Clearance);
    } else {
      SqStrictlyIncreasing(Clearance, len);
    }
  }

  /** With offsets drawn from [0, 1), a kept sphere has radius 0.2 and its
      centre lies at height 0.2 inside its cell: `x` in `[a, a + 1)` and `z`
      in `[b, b + 1)`. */
  lemma SmallSphereInCell(a: int, b: int, draw: CellDraw, sqrt: real -> real)
    requires 0.0 <= draw.offsetX < 1.0 && 0.0 <= draw.offsetZ < 1.0
    requires SmallSphere(a, b, draw, sqrt).Some?
    ensures var s := SmallSphere(a, b, draw, sqrt).value.shape;
            s.Sphere? && s.radius == SmallRadius && s.centre.y == 0.2 &&
            a as real <= s.centre.x < a as real + 1.0 &&
            b as real <= s.centre.z < b as real + 1.0
  {
  }

  /** The variate picks the material: Lambertian with albedo 1 below 0.8,
      metal with the drawn tint and a scatter in [0, 0.5) below 0.95, glass
      with index 1.5 otherwise. */
  lemma SmallMaterialByVariate(draw: CellDraw)
    requires 0.0 <= draw.scatter < 1.0
    ensures var m := SmallMaterial(draw);
            (m.Lambertian? <==> draw.variate < 0.8) &&
            (m.Lambertian? ==> m.albedo == 1.0 && m.colour == Colours.Tint(draw.colourA, draw.colourB)) &&
            (m.Metal? <==> 0.8 <= draw.variate < 0.95) &&
            (m.Metal? ==> m.tint == draw.tint && 0.0 <= m.scatter < 0.5) &&
            (m.Dialectric? <==> 0.95 <= draw.variate) &&
            (m.Dialectric? ==> m.ior == 1.5)
  {
  }

  /** The sphere `g` is the one some cell below `n` keeps. */
  ghost predicate KeptByCell(draws: seq<CellDraw>, sqrt: real -> real, n: nat, g: Geometry)
    requires n <= |draws|
  {
    exists k :: 0 <= k < n && SmallSphere(Cell(k).0, Cell(k).1, draws[k], sqrt) == Some(g)
  }

  /** Every small sphere comes from one of the cells visited. */
  lemma {:induction false} SmallSpheresFromCells(draws: seq<CellDraw>, sqrt: real -> real, n: nat)
    requires n <= |draws|
    ensures forall g :: g in SmallSpheres(draws, sqrt, n) ==> KeptByCell(draws, sqrt, n, g)
  {
    if n > 0 {
      SmallSpheresFromCells(draws, sqrt, n - 1);
      var previous := SmallSpheres(draws, sqrt, n - 1);
      forall g | g in SmallSpheres(draws, sqrt, n)
        ensures KeptByCell(draws, sqrt, n, g)
      {
        SmallSpheresStep(draws, sqrt, n - 1);
        if g in previous {
          var k :| 0 <= k < n - 1 && SmallSphere(Cell(k).0, Cell(k).1, draws[k], sqrt) == Some(g);
        } else {
          var k := n - 1;
          assert SmallSphere(Cell(k).0, Cell(k).1, draws[k], sqrt) == Some(g);
        }
      }
    }
  }

  /** Every cell that keeps its sphere contributes it. */
  lemma {:induction false} CellsReachSmallSpheres(draws: seq<CellDraw>, sqrt: real -> real, n: nat)
    requires n <= |draws|
    ensures forall k :: 0 <= k < n && SmallSphere(Cell(k).0, Cell(k).1, draws[k], sqrt).Some? ==>
      SmallSphere(Cell(k).0, Cell(k).1, draws[k], sqrt).value in SmallSpheres(draws, sqrt, n)
  {
    if n > 0 {
      CellsReachSmallSpheres(draws, sqrt, n - 1);
      SmallSpheresStep(draws, sqrt, n - 1);
    }
  }

  /** The generated list meets the integrator's requirements: every sphere
      has a positive radius, only the last geometry is the background, and
      the glass has a non-zero index. */
  lemma RandomSpheresOk(draws: seq<CellDraw>, sqrt: real -> real)
    requires |draws| == CellCount
    ensures var geos := RandomSpheres(draws, sqrt);
            Scenes.GeometriesOk(geos) &&
            (forall i :: 0 <= i < |geos| - 1 ==> geos[i].shape.Sphere? && geos[i].shape.radius > 0.0)
  {
    var geos := RandomSpheres(draws, sqrt);
    var small := SmallSpheres(draws, sqrt, CellCount);
    forall i | 0 <= i < |geos|
      ensures i < |geos| - 1 ==> geos[i].shape.Sphere? && geos[i].shape.radius > 0.0
      ensures geos[i].shape.Background? ==> !geos[i].material.Scatters()
      ensures geos[i].material.Dialectric? ==> geos[i].material.ior != 0.0
    {
      if 0 < i <= |small| {
        assert geos[i] == small[i - 1];
      }
    }
  }

  /** The sky at the end of the list means every ray of the stock scene hits
      something: the integrator never shows magenta there. */
  lemma RandomSpheresAlwaysHit(draws: seq<CellDraw>, sqrt: real -> real, ray: Ray)
    requires IsSqrt(sqrt) && |draws| == CellCount
    ensures Scenes.HitTest(RandomSpheres(draws, sqrt), ray, sqrt).Some?
  {
    var geos := RandomSpheres(draws, sqrt);
    RandomSpheresOk(draws, sqrt);
    Scenes.BackgroundGuaranteesHit(geos, ray, sqrt, |geos| - 1);
  }
}
