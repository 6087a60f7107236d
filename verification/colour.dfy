/** Linear RGB colours: the `Colour` of src/colour/mod.rs, a thin wrapper
    around a `Vec3` whose components are read as red, green and blue. */
module Colours {
  import Vectors

  datatype Colour = Colour(v: Vectors.Vec3)

  /** `Colour::new`: the accessors `r()`, `g()`, `b()` give the channels back. */
  function New(r: real, g: real, b: real): (c: Colour)
    ensures R(c) == r && G(c) == g && B(c) == b
  {
    Colour(Vectors.New((r, g, b)))
  }

  function R(c: Colour): real
  {
    c.v.x
  }

  function G(c: Colour): real
  {
    c.v.y
  }

  function B(c: Colour): real
  {
    c.v.z
  }

  /** `Colour::default()`: every channel is zero. */
  function Default(): (c: Colour)
    ensures R(c) == 0.0 && G(c) == 0.0 && B(c) == 0.0
  {
    Colour(Vectors.New((0.0, 0.0, 0.0)))
  }

  /** `Colour::black()`, used by the integrator for absorbed rays. Its source
      is not part of this model; it is taken to be the zero colour. */
  function Black(): Colour
  {
    New(0.0, 0.0, 0.0)
  }

  function Add(c: Colour, d: Colour): Colour
  {
    Colour(Vectors.Add(c.v, d.v))
  }

  /** `c += d`: the new value of `c`. */
  function AddAssign(c: Colour, d: Colour): Colour
  {
    Colour(Vectors.Add(c.v, d.v))
  }

  /** `Mul<f64>`: every channel scaled by `s`. */
  function Scale(c: Colour, s: real): Colour
  {
    Colour(Vectors.Scale(c.v, s))
  }

  /** `Div<f64>`; a zero divisor is ruled out. */
  function Div(c: Colour, s: real): Colour
    requires s != 0.0
  {
    Colour(Vectors.Div(c.v, s))
  }

  /** `Colour * Colour`, the channel-wise tint. Its source is not part of this
      model; it is taken to be the channel-wise product. */
  function Tint(c: Colour, d: Colour): Colour
  {
    Colour(Vectors.Mul(c.v, d.v))
  }

  lemma BlackIsDefault()
    ensures Black() == Default()
  {
  }

  /** Addition works channel by channel and does not depend on operand order. */
  lemma AddIsChannelwise(c: Colour, d: Colour)
    ensures R(Add(c, d)) == R(c) + R(d)
    ensures G(Add(c, d)) == G(c) + G(d)
    ensures B(Add(c, d)) == B(c) + B(d)
    ensures Add(c, d) == Add(d, c)
  {
  }

  /** `c += d` leaves `c` equal to the old `c + d`. */
  lemma AddAssignIsAdd(c: Colour, d: Colour)
    ensures AddAssign(c, d) == Add(c, d)
  {
  }

  /** Scaling by zero gives the default (black) colour. */
  lemma ScaleByZero(c: Colour)
    ensures Scale(c, 0.0) == Default()
  {
  }

  /** Division by a non-zero scalar undoes scaling by it. */
  lemma DivUndoesScale(c: Colour, s: real)
    requires s != 0.0
    ensures Div(Scale(c, s), s) == c
  {
  }

  /** Scaling distributes over addition. */
  lemma ScaleDistributesOverAdd(c: Colour, d: Colour, s: real)
    ensures Scale(Add(c, d), s) == Add(Scale(c, s), Scale(d, s))
  {
  }

  /** Tinting by black, in either position, gives black. */
  lemma TintByBlack(c: Colour)
    ensures Tint(c, Black()) == Black()
    ensures Tint(Black(), c) == Black()
  {
  }

  /** Adding one more `c` to `c * s` gives `c * (s + 1)`. */
  lemma ScaleAddOne(c: Colour, s: real)
    ensures AddAssign(Scale(c, s), c) == Scale(c, s + 1.0)
  {
  }
}
