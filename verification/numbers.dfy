/** Numeric building blocks shared by the whole model: an optional value, the
    extended-real hit distance, the half-open `Range<f64>` and the contract of
    the square root that the renderer takes from the floating-point library. */
module Numbers {

  datatype Option<+T> = None | Some(value: T)

  /** A hit distance: a real number, or the `f64::INFINITY` that the
      background reports. */
  datatype Dist = Fin(value: real) | Inf

  /** `a <= b` on distances, with `Inf` above every real and equal to itself. */
  predicate DistLe(a: Dist, b: Dist)
  {
    b.Inf? || (a.Fin? && a.value <= b.value)
  }

  /** `a < b` on distances. */
  predicate DistLt(a: Dist, b: Dist)
  {
    a.Fin? && (b.Inf? || a.value < b.value)
  }

  /** `DistLe` is a total order: the closest-hit scan relies on this. */
  lemma DistLeTotal(a: Dist, b: Dist)
    ensures DistLe(a, b) || DistLe(b, a)
    ensures DistLe(a, b) && DistLe(b, a) ==> a == b
    ensures DistLt(a, b) <==> DistLe(a, b) && a != b
  {
  }

  /** A half-open interval `start..end` of candidate distances, as the
      `Range<f64>` passed to the shape intersection test. */
  datatype Range = Range(start: real, end: Dist)
  {
    /** `Range::contains`: `start <= t < end`. */
    predicate Contains(t: real)
    {
      start <= t && DistLt(Fin(t), end)
    }
  }

  /** `f64::min` on non-NaN arguments. */
  function Min(a: real, b: real): (m: real)
    ensures m <= a && m <= b && (m == a || m == b)
  {
    if a <= b then a else b
  }

  /** The square of a real number. Squares are written through this function
      throughout the model so that facts about them stay attached to one term. */
  function Sq(x: real): real
  {
    x * x
  }

  lemma MulStrictlyMonotone(a: real, b: real, c: real)
    requires 0.0 < c && a < b
    ensures a * c < b * c
  {
  }

  lemma MulMonotone(a: real, b: real, c: real)
    requires 0.0 <= c && a <= b
    ensures a * c <= b * c
  {
  }

  lemma MulPositive(a: real, b: real)
    requires 0.0 < a && 0.0 < b
    ensures 0.0 < a * b
  {
    MulStrictlyMonotone(0.0, a, b);
  }

  /** Squaring is strictly increasing on the non-negative reals. */
  lemma SqStrictlyIncreasing(r: real, s: real)
    requires 0.0 <= r < s
    ensures Sq(r) < Sq(s)
  {
    var d := s - r;
    var e := s + r;
    MulPositive(d, e);
    assert Sq(s) - Sq(r) == d * e;
  }

  lemma SqNegate(x: real)
    ensures Sq(-x) == Sq(x)
  {
  }

  lemma SqPositive(x: real)
    requires x != 0.0
    ensures Sq(x) > 0.0
  {
    if x > 0.0 {
      SqStrictlyIncreasing(0.0, x);
    } else {
      SqStrictlyIncreasing(0.0, -x);
      SqNegate(x);
    }
  }

  lemma SqNonNegative(x: real)
    ensures Sq(x) >= 0.0
  {
    if x != 0.0 {
      SqPositive(x);
    }
  }

  /** `(p + q)^2 == p^2 + 2pq + q^2`. */
  lemma SqOfSum(p: real, q: real)
    ensures Sq(p + q) == Sq(p) + 2.0 * p * q + Sq(q)
  {
  }

  lemma SqOfProduct(p: real, q: real)
    ensures Sq(p * q) == Sq(p) * Sq(q)
  {
  }

  /** `(x / s)^2 == x^2 / s^2`. */
  lemma SqOfQuotient(x: real, s: real)
    requires s != 0.0
    ensures Sq(s) > 0.0 && Sq(x / s) == Sq(x) / Sq(s)
  {
    SqPositive(s);
    var q := x / s;
    assert q * s == x;
    assert Sq(q) * Sq(s) == Sq(x);
  }

  /** Of two non-negative reals, the one with the smaller square is smaller. */
  lemma SqMonotone(r: real, s: real)
    requires 0.0 <= r && 0.0 <= s
    ensures r < s <==> Sq(r) < Sq(s)
  {
    if r < s {
      SqStrictlyIncreasing(r, s);
    } else if s < r {
      SqStrictlyIncreasing(s, r);
    }
  }

  /** A real whose square is at most one lies in [-1, 1]. */
  lemma SqAtMostOne(x: real)
    requires Sq(x) <= 1.0
    ensures -1.0 <= x <= 1.0
  {
    if x > 1.0 {
      SqStrictlyIncreasing(1.0, x);
    } else if x < -1.0 {
      SqStrictlyIncreasing(1.0, -x);
      SqNegate(x);
    }
  }

  /** The contract of `f64::sqrt` read over the reals: every non-negative
      argument is mapped to its non-negative square root. */
  ghost predicate IsSqrt(sqrt: real -> real)
  {
    forall x: real {:trigger sqrt(x)} :: 0.0 <= x ==> 0.0 <= sqrt(x) && Sq(sqrt(x)) == x
  }

  /** A non-negative square root is determined by its square. */
  lemma SqInjective(r: real, s: real)
    requires 0.0 <= r && 0.0 <= s && Sq(r) == Sq(s)
    ensures r == s
  {
    SqMonotone(r, s);
    SqMonotone(s, r);
  }

  /** Euclidean division is unique: `q * d + r` with `0 <= r < d` has
      quotient `q` and remainder `r`. */
  lemma DivModUnique(n: nat, d: nat, q: nat, r: nat)
    requires r < d && n == q * d + r
    ensures n / d == q && n % d == r
  {
    var q' := n / d;
    if q' < q {
      MulMonotoneNat(q' + 1, q, d);
    } else if q' > q {
      MulMonotoneNat(q + 1, q', d);
    }
  }

  /** Multiplying by a natural number keeps the order of naturals. */
  lemma {:induction false} MulMonotoneNat(a: nat, b: nat, c: nat)
    requires a <= b
    ensures a * c <= b * c
  {
    if c > 0 {
      MulMonotoneNat(a, b, c - 1);
      assert a * c == a * (c - 1) + a;
      assert b * c == b * (c - 1) + b;
    }
  }
}
