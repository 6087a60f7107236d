/** Rays: an origin and a direction, not necessarily of unit length. */
module Rays {
  import opened Vectors

  datatype Ray = Ray(origin: Vec3, direction: Vec3)

  /** `ray.at(t)`: the point `origin + direction * t`. */
  function At(ray: Ray, t: real): Vec3
  {
    Add(ray.origin, Scale(ray.direction, t))
  }
}
