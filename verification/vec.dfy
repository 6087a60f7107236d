/** Three-component vectors over the reals: the `Vec3` of src/vec/mod.rs with
    each `f64` component read as a real number. */
module Vectors {
  import opened Numbers

  datatype Vec3 = Vec3(x: real, y: real, z: real)

  const Zero: Vec3 := Vec3(0.0, 0.0, 0.0)

  /** `Vec3::new`: the accessors `x()`, `y()`, `z()` give the triple back. */
  function New(coords: (real, real, real)): (v: Vec3)
    ensures v.x == coords.0 && v.y == coords.1 && v.z == coords.2
  {
    Vec3(coords.0, coords.1, coords.2)
  }

  function Dot(a: Vec3, b: Vec3): real
  {
    a.x * b.x + a.y * b.y + a.z * b.z
  }

  function Cross(a: Vec3, b: Vec3): Vec3
  {
    Vec3(a.y * b.z - a.z * b.y,
         a.z * b.x - a.x * b.z,
         a.x * b.y - a.y * b.x)
  }

  /** The squared length; zero exactly for the zero vector. */
  function LengthSquared(v: Vec3): real
  {
    Sq(v.x) + Sq(v.y) + Sq(v.z)
  }

  lemma LengthSquaredZero(v: Vec3)
    ensures 0.0 <= LengthSquared(v)
    ensures LengthSquared(v) == 0.0 <==> v == Zero
  {
    SqNonNegative(v.x);
    SqNonNegative(v.y);
    SqNonNegative(v.z);
    if v.x != 0.0 { SqPositive(v.x); }
    if v.y != 0.0 { SqPositive(v.y); }
    if v.z != 0.0 { SqPositive(v.z); }
  }

  /** `length()`, the square root of the squared length. */
  function Length(v: Vec3, sqrt: real -> real): (r: real)
    ensures IsSqrt(sqrt) ==> 0.0 <= r && Sq(r) == LengthSquared(v)
  {
    LengthSquaredZero(v);
    sqrt(LengthSquared(v))
  }

  /** Given the square-root contract, only the zero vector has length zero. */
  lemma LengthZero(v: Vec3, sqrt: real -> real)
    requires IsSqrt(sqrt)
    ensures Length(v, sqrt) == 0.0 <==> v == Zero
  {
    LengthSquaredZero(v);
    var l := Length(v, sqrt);
    if l != 0.0 {
      SqPositive(l);
    }
  }

  /** `unit()`: the vector divided by its length. The source divides by zero
      for the zero vector (a NaN result); here the caller must rule that out. */
  function Unit(v: Vec3, sqrt: real -> real): Vec3
    requires Length(v, sqrt) != 0.0
  {
    Div(v, Length(v, sqrt))
  }

  function Add(a: Vec3, b: Vec3): Vec3
  {
    Vec3(a.x + b.x, a.y + b.y, a.z + b.z)
  }

  function Sub(a: Vec3, b: Vec3): Vec3
  {
    Vec3(a.x - b.x, a.y - b.y, a.z - b.z)
  }

  /** `Mul<Vec3>`: the component-wise product. */
  function Mul(a: Vec3, b: Vec3): Vec3
  {
    Vec3(a.x * b.x, a.y * b.y, a.z * b.z)
  }

  /** `Mul<f64>`: scaling by a scalar. */
  function Scale(v: Vec3, s: real): Vec3
  {
    Vec3(v.x * s, v.y * s, v.z * s)
  }

  /** `Div<f64>`; a zero divisor is ruled out instead of producing infinities. */
  function Div(v: Vec3, s: real): Vec3
    requires s != 0.0
  {
    Vec3(v.x / s, v.y / s, v.z / s)
  }

  /** Mirror reflection of `v` about the plane with normal `n`:
      `v - n * 2 dot(v, n)`. */
  function Reflect(v: Vec3, n: Vec3): Vec3
  {
    Sub(v, Scale(n, 2.0 * Dot(v, n)))
  }

  lemma DotCommutes(a: Vec3, b: Vec3)
    ensures Dot(a, b) == Dot(b, a)
  {
  }

  lemma LengthSquaredIsSelfDot(v: Vec3)
    ensures LengthSquared(v) == Dot(v, v)
    ensures 0.0 <= Dot(v, v)
  {
    LengthSquaredZero(v);
  }

  /** The cross product is orthogonal to both of its operands. */
  lemma CrossIsOrthogonal(a: Vec3, b: Vec3)
    ensures Dot(a, Cross(a, b)) == 0.0
    ensures Dot(b, Cross(a, b)) == 0.0
  {
  }

  /** The cross product is anti-commutative, hence zero on equal operands. */
  lemma CrossAntiCommutes(a: Vec3, b: Vec3)
    ensures Add(Cross(a, b), Cross(b, a)) == Zero
    ensures Cross(a, a) == Zero
  {
  }

  lemma AddCommutes(a: Vec3, b: Vec3)
    ensures Add(a, b) == Add(b, a)
  {
  }

  /** Subtraction undoes addition. */
  lemma SubUndoesAdd(a: Vec3, b: Vec3)
    ensures Sub(Add(a, b), b) == a
  {
  }

  /** Division by a non-zero scalar undoes scaling by it. */
  lemma DivUndoesScale(v: Vec3, s: real)
    requires s != 0.0
    ensures Div(Scale(v, s), s) == v
  {
  }

  /** Dividing by `s` divides the squared length by `s * s`. */
  lemma LengthSquaredOfDiv(v: Vec3, s: real)
    requires s != 0.0
    ensures Sq(s) > 0.0 && LengthSquared(Div(v, s)) == LengthSquared(v) / Sq(s)
  {
    SqPositive(s);
    SqOfQuotient(v.x, s);
    SqOfQuotient(v.y, s);
    SqOfQuotient(v.z, s);
  }

  /** Given the square-root contract, a non-zero vector normalises to squared
      length one. */
  lemma UnitHasLengthOne(v: Vec3, sqrt: real -> real)
    requires IsSqrt(sqrt)
    requires v != Zero
    ensures Length(v, sqrt) != 0.0
    ensures LengthSquared(Unit(v, sqrt)) == 1.0
  {
    LengthZero(v, sqrt);
    var l := Length(v, sqrt);
    LengthSquaredOfDiv(v, l);
    SqPositive(l);
  }

  /** For a unit normal, reflection flips the normal component:
      the angle of incidence equals the angle of reflection. */
  lemma ReflectFlipsNormalComponent(v: Vec3, n: Vec3)
    requires LengthSquared(n) == 1.0
    ensures Dot(Reflect(v, n), n) == -Dot(v, n)
  {
    var k := 2.0 * Dot(v, n);
    assert Dot(n, n) == LengthSquared(n);
    calc {
      Dot(Reflect(v, n), n);
      Dot(v, n) - k * Dot(n, n);
      Dot(v, n) - k;
    }
  }

  /** Two unit vectors have a dot product in [-1, 1]. */
  lemma UnitDotBounded(u: Vec3, n: Vec3)
    requires LengthSquared(u) == 1.0 && LengthSquared(n) == 1.0
    ensures -1.0 <= Dot(u, n) <= 1.0
  {
    LengthSquaredZero(Sub(u, n));
    LengthSquaredZero(Add(u, n));
    assert LengthSquared(Sub(u, n)) == 2.0 - 2.0 * Dot(u, n);
    assert LengthSquared(Add(u, n)) == 2.0 + 2.0 * Dot(u, n);
  }

  /** Every component of a unit vector lies in [-1, 1]. */
  lemma UnitComponentsBounded(v: Vec3)
    requires LengthSquared(v) == 1.0
    ensures -1.0 <= v.x <= 1.0 && -1.0 <= v.y <= 1.0 && -1.0 <= v.z <= 1.0
  {
    SqNonNegative(v.x);
    SqNonNegative(v.y);
    SqNonNegative(v.z);
    SqAtMostOne(v.x);
    SqAtMostOne(v.y);
    SqAtMostOne(v.z);
  }
}
