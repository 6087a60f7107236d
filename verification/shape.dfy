/** Shapes and their intersection test (src/geometry/shape.rs): the
    background, hit at infinity by every ray, and spheres, hit where the ray
    meets the surface. */
module Shapes {
  import opened Numbers
  import opened Vectors
  import opened Rays

  datatype Shape = Background | Sphere(centre: Vec3, radius: real)

  /** What `Shape::hit_test` reports: the distance along the ray and the
      surface normal there. */
  datatype ShapeHit = ShapeHit(t: Dist, normal: Vec3)

  /** The quadratic `a t^2 + 2 halfB t + c` whose zeros are the distances at
      which a ray meets a sphere. */
  datatype Quadratic = Quadratic(a: real, halfB: real, c: real)
  {
    function Eval(t: real): real
    {
      a * Sq(t) + 2.0 * halfB * t + c
    }

    function Discriminant(): real
    {
      Sq(halfB) - a * c
    }
  }

  /** The coefficients the sphere test computes from the ray and the sphere. */
  function Coefficients(centre: Vec3, radius: real, ray: Ray): Quadratic
  {
    var oc := Sub(ray.origin, centre);
    Quadratic(LengthSquared(ray.direction), Dot(oc, ray.direction), LengthSquared(oc) - Sq(radius))
  }

  /** The nearer root `(-halfB - sqrt d) / a`, tried first. */
  function NearRoot(q: Quadratic, sqrt: real -> real): real
    requires q.a != 0.0
  {
    (-q.halfB - sqrt(q.Discriminant())) / q.a
  }

  /** The farther root `(-halfB + sqrt d) / a`, tried second. */
  function FarRoot(q: Quadratic, sqrt: real -> real): real
    requires q.a != 0.0
  {
    (-q.halfB + sqrt(q.Discriminant())) / q.a
  }

  /** The normal at distance `t`: `(ray.at(t) - centre) / radius`. */
  function SphereNormal(centre: Vec3, radius: real, ray: Ray, t: real): Vec3
    requires radius != 0.0
  {
    Div(Sub(At(ray, t), centre), radius)
  }

  /** `Shape::hit_test`. The background reports infinity and the zero normal
      whatever the ray and range. A sphere reports nothing when the
      discriminant is negative; otherwise it reports the nearer root if the
      range contains it, else the farther root if the range contains that,
      else nothing. A ray with a zero direction (`a == 0`) divides zero by
      zero in floating point, which no range contains: it reports nothing. */
  function HitTest(shape: Shape, ray: Ray, tRange: Range, sqrt: real -> real): (r: Option<ShapeHit>)
    requires shape.Sphere? ==> shape.radius != 0.0
    ensures shape.Background? ==> r == Some(ShapeHit(Inf, Zero))
    ensures shape.Sphere? && r.Some? ==>
      r.value.t.Fin? && tRange.Contains(r.value.t.value) && ray.direction != Zero &&
      r.value.normal == SphereNormal(shape.centre, shape.radius, ray, r.value.t.value)
    ensures shape.Sphere? && Coefficients(shape.centre, shape.radius, ray).Discriminant() < 0.0 ==> r.None?
    ensures shape.Sphere? && ray.direction == Zero ==> r.None?
    ensures shape.Sphere? ==>
      var q := Coefficients(shape.centre, shape.radius, ray);
      q.a != 0.0 && q.Discriminant() >= 0.0 ==>
        (r.Some? <==> tRange.Contains(NearRoot(q, sqrt)) || tRange.Contains(FarRoot(q, sqrt))) &&
        (tRange.Contains(NearRoot(q, sqrt)) ==> r.value.t == Fin(NearRoot(q, sqrt))) &&
        (!tRange.Contains(NearRoot(q, sqrt)) && tRange.Contains(FarRoot(q, sqrt)) ==> r.value.t == Fin(FarRoot(q, sqrt)))
  {
    match shape
    case Background => Some(ShapeHit(Inf, Zero))
    case Sphere(centre, radius) =>
      var q := Coefficients(centre, radius, ray);
      LengthSquaredZero(ray.direction);
      if q.Discriminant() < 0.0 then None
      else if q.a == 0.0 then None
      else
        match FirstInRange(NearRoot(q, sqrt), FarRoot(q, sqrt), tRange)
        case None => None
        case Some(t) => Some(ShapeHit(Fin(t), SphereNormal(centre, radius, ray, t)))
  }

  /** The first of the two roots `t1`, `t2` that lies in the range. */
  function FirstInRange(t1: real, t2: real, tRange: Range): (r: Option<real>)
    ensures r.Some? <==> tRange.Contains(t1) || tRange.Contains(t2)
    ensures tRange.Contains(t1) ==> r == Some(t1)
    ensures !tRange.Contains(t1) && tRange.Contains(t2) ==> r == Some(t2)
  {
    if tRange.Contains(t1) then Some(t1)
    else if tRange.Contains(t2) then Some(t2)
    else None
  }

  /** With ordered roots, lowering the far end of the range keeps the first
      root in range when it still lies below the new end, and otherwise
      leaves no root in range. */
  lemma FirstInRangeNarrowing(t1: real, t2: real, start: real, end: Dist)
    requires t1 <= t2
    ensures var wide := FirstInRange(t1, t2, Range(start, Inf));
            var narrow := FirstInRange(t1, t2, Range(start, end));
            if wide.Some? && DistLt(Fin(wide.value), end) then narrow == wide else narrow.None?
  {
  }

  /** The quadratic measures how far `ray.at(u)` is from the sphere surface:
      its value is the squared distance to the centre minus the squared radius. */
  lemma QuadraticMeasuresSphere(centre: Vec3, radius: real, ray: Ray, u: real)
    ensures LengthSquared(Sub(At(ray, u), centre)) - Sq(radius) == Coefficients(centre, radius, ray).Eval(u)
  {
    var oc := Sub(ray.origin, centre);
    var d := ray.direction;
    assert Sub(At(ray, u), centre) == Vec3(oc.x + d.x * u, oc.y + d.y * u, oc.z + d.z * u);
    SqOfSum(oc.x, d.x * u);
    SqOfSum(oc.y, d.y * u);
    SqOfSum(oc.z, d.z * u);
    SqOfProduct(d.x, u);
    SqOfProduct(d.y, u);
    SqOfProduct(d.z, u);
  }

  /** `a` times the quadratic is a shifted square: completing the square. */
  lemma CompletedSquare(q: Quadratic, u: real)
    ensures q.a * q.Eval(u) == Sq(q.a * u + q.halfB) - q.Discriminant()
  {
    var w := q.a * u;
    SqOfSum(w, q.halfB);
    SqOfProduct(q.a, u);
    assert q.a * q.Eval(u) == Sq(q.a) * Sq(u) + 2.0 * q.halfB * w + q.a * q.c;
  }

  /** Given the square-root contract, both roots solve the quadratic. */
  lemma RootsSolveQuadratic(q: Quadratic, sqrt: real -> real)
    requires IsSqrt(sqrt)
    requires q.a != 0.0 && q.Discriminant() >= 0.0
    ensures q.Eval(NearRoot(q, sqrt)) == 0.0
    ensures q.Eval(FarRoot(q, sqrt)) == 0.0
  {
    var s := sqrt(q.Discriminant());
    var t1 := NearRoot(q, sqrt);
    var t2 := FarRoot(q, sqrt);
    assert q.a * t1 + q.halfB == -s;
    assert q.a * t2 + q.halfB == s;
    CompletedSquare(q, t1);
    CompletedSquare(q, t2);
    SqNegate(s);
  }

  /** Given the square-root contract, the two roots are the only solutions,
      and there are none when the discriminant is negative. */
  lemma OnlyTwoRoots(q: Quadratic, sqrt: real -> real, u: real)
    requires IsSqrt(sqrt)
    requires q.a != 0.0 && q.Eval(u) == 0.0
    ensures q.Discriminant() >= 0.0
    ensures u == NearRoot(q, sqrt) || u == FarRoot(q, sqrt)
  {
    CompletedSquare(q, u);
    var w := q.a * u + q.halfB;
    assert Sq(w) == q.Discriminant();
    SqNonNegative(w);
    var s := sqrt(q.Discriminant());
    if w >= 0.0 {
      SqInjective(w, s);
      assert q.a * u == -q.halfB + s;
    } else {
      SqNegate(w);
      SqInjective(-w, s);
      assert q.a * u == -q.halfB - s;
    }
  }

  /** With `a > 0` the nearer root is indeed not beyond the farther one. */
  lemma NearRootFirst(q: Quadratic, sqrt: real -> real)
    requires IsSqrt(sqrt)
    requires q.a > 0.0 && q.Discriminant() >= 0.0
    ensures NearRoot(q, sqrt) <= FarRoot(q, sqrt)
  {
    var s := sqrt(q.Discriminant());
    var t1 := NearRoot(q, sqrt);
    var t2 := FarRoot(q, sqrt);
    assert (t2 - t1) * q.a == 2.0 * s;
    if t2 < t1 {
      MulStrictlyMonotone(t2 - t1, 0.0, q.a);
    }
  }

  /** A reported sphere hit lies on the sphere: the point `ray.at(t)` is at
      distance `radius` from the centre. */
  lemma HitIsOnSphere(shape: Shape, ray: Ray, tRange: Range, sqrt: real -> real)
    requires IsSqrt(sqrt)
    requires shape.Sphere? && shape.radius != 0.0
    requires HitTest(shape, ray, tRange, sqrt).Some?
    ensures LengthSquared(Sub(At(ray, HitTest(shape, ray, tRange, sqrt).value.t.value), shape.centre)) == Sq(shape.radius)
  {
    var q := Coefficients(shape.centre, shape.radius, ray);
    var t := HitTest(shape, ray, tRange, sqrt).value.t.value;
    LengthSquaredZero(ray.direction);
    RootsSolveQuadratic(q, sqrt);
    QuadraticMeasuresSphere(shape.centre, shape.radius, ray, t);
  }

  /** The reported normal has length one. */
  lemma NormalIsUnit(shape: Shape, ray: Ray, tRange: Range, sqrt: real -> real)
    requires IsSqrt(sqrt)
    requires shape.Sphere? && shape.radius != 0.0
    requires HitTest(shape, ray, tRange, sqrt).Some?
    ensures LengthSquared(HitTest(shape, ray, tRange, sqrt).value.normal) == 1.0
  {
    var t := HitTest(shape, ray, tRange, sqrt).value.t.value;
    HitIsOnSphere(shape, ray, tRange, sqrt);
    LengthSquaredOfDiv(Sub(At(ray, t), shape.centre), shape.radius);
  }

  /** A reported sphere hit is the nearest point of the range at which the
      ray meets the sphere. */
  lemma HitIsNearestInRange(shape: Shape, ray: Ray, tRange: Range, sqrt: real -> real, u: real)
    requires IsSqrt(sqrt)
    requires shape.Sphere? && shape.radius != 0.0
    requires HitTest(shape, ray, tRange, sqrt).Some?
    requires tRange.Contains(u) && LengthSquared(Sub(At(ray, u), shape.centre)) == Sq(shape.radius)
    ensures HitTest(shape, ray, tRange, sqrt).value.t.value <= u
  {
    var q := Coefficients(shape.centre, shape.radius, ray);
    LengthSquaredZero(ray.direction);
    QuadraticMeasuresSphere(shape.centre, shape.radius, ray, u);
    OnlyTwoRoots(q, sqrt, u);
    NearRootFirst(q, sqrt);
  }

  /** When a sphere reports nothing, no point of the range lies on it
      (for a ray that moves at all). */
  lemma MissMeansNoIntersection(shape: Shape, ray: Ray, tRange: Range, sqrt: real -> real, u: real)
    requires IsSqrt(sqrt)
    requires shape.Sphere? && shape.radius != 0.0
    requires ray.direction != Zero
    requires HitTest(shape, ray, tRange, sqrt).None?
    requires tRange.Contains(u)
    ensures LengthSquared(Sub(At(ray, u), shape.centre)) != Sq(shape.radius)
  {
    var q := Coefficients(shape.centre, shape.radius, ray);
    LengthSquaredZero(ray.direction);
    QuadraticMeasuresSphere(shape.centre, shape.radius, ray, u);
    if q.Eval(u) == 0.0 {
      OnlyTwoRoots(q, sqrt, u);
    }
  }

  /** Narrowing the far end of the range keeps a hit that lies inside the
      narrower range and drops one that does not; the background ignores the
      range. This is what makes the closest-hit scan's shrinking window sound. */
  lemma WindowNarrowing(shape: Shape, ray: Ray, start: real, end: Dist, sqrt: real -> real)
    requires IsSqrt(sqrt)
    requires shape.Sphere? ==> shape.radius != 0.0
    ensures var wide := HitTest(shape, ray, Range(start, Inf), sqrt);
            var narrow := HitTest(shape, ray, Range(start, end), sqrt);
            if shape.Background? then narrow == wide
            else if wide.Some? && DistLt(wide.value.t, end) then narrow == wide
            else narrow.None?
  {
    if shape.Sphere? {
      var q := Coefficients(shape.centre, shape.radius, ray);
      var wide := HitTest(shape, ray, Range(start, Inf), sqrt);
      var narrow := HitTest(shape, ray, Range(start, end), sqrt);
      LengthSquaredZero(ray.direction);
      if q.Discriminant() >= 0.0 && q.a != 0.0 {
        var t1 := NearRoot(q, sqrt);
        var t2 := FarRoot(q, sqrt);
        NearRootFirst(q, sqrt);
        FirstInRangeNarrowing(t1, t2, start, end);
        var w := FirstInRange(t1, t2, Range(start, Inf));
        var n := FirstInRange(t1, t2, Range(start, end));
        assert wide == if w.Some? then Some(ShapeHit(Fin(w.value), SphereNormal(shape.centre, shape.radius, ray, w.value))) else None;
        assert narrow == if n.Some? then Some(ShapeHit(Fin(n.value), SphereNormal(shape.centre, shape.radius, ray, n.value))) else None;
      } else {
        assert wide.None? && narrow.None?;
      }
    }
  }
}