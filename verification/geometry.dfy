/** The scene's building blocks: surface materials, geometries (a shape with
    a material, src/geometry/mod.rs) and the record of a ray hit
    (src/hit/mod.rs). */
module Geometries {
  import opened Numbers
  import opened Vectors
  import opened Rays
  import Colours
  import opened Shapes

  /** The materials the integrator dispatches on. */
  datatype Material =
    | ScreenSpaceGradient
    | NormalSpaceGradient
    | SolidColour(colour: Colours.Colour)
    | Diffuse(colour: Colours.Colour, albedo: real)
    | Lambertian(colour: Colours.Colour, albedo: real)
    | Metal(tint: Colours.Colour, scatter: real)
    | Dialectric(ior: real)
  {
    /** Materials that send a further ray into the scene. */
    predicate Scatters()
    {
      Diffuse? || Lambertian? || Metal? || Dialectric?
    }
  }

  datatype Geometry = Geometry(shape: Shape, material: Material)

  /** The closest hit of a ray: the material struck, the distance `t` along
      the ray (infinite for the background), the surface normal and whether
      the ray struck the outside of the surface. The hit point is
      `ray.at(t)`, defined for finite `t`. */
  datatype Hit = Hit(material: Material, t: Dist, normal: Vec3, frontFace: bool)

  /** `hit.point`. */
  function Point(hit: Hit, ray: Ray): Vec3
    requires hit.t.Fin?
  {
    At(ray, hit.t.value)
  }
}
