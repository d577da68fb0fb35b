/** JavaScript number arithmetic the components rely on, over exact reals:
    `Math.floor`, and the `%` operator, whose remainder takes the sign of the
    dividend because the quotient is truncated toward zero. */
module JsMath {

  /** `Math.trunc(x)`: `x` rounded toward zero. */
  function Trunc(x: real): (r: int)
    ensures x >= 0.0 ==> r == x.Floor
    ensures x < 0.0 ==> r == -((-x).Floor)
  {
    if x >= 0.0 then x.Floor else -((-x).Floor)
  }

  /** `x % m` for a positive modulus `m`. */
  function Remainder(x: real, m: real): real
    requires m > 0.0
  {
    x - m * Trunc(x / m) as real
  }

  /** `Math.floor(t / d)` of a non-negative `t` only depends on the whole part of `t`. */
  lemma FloorDiv(t: real, d: nat)
    requires t >= 0.0 && d > 0
    ensures (t / d as real).Floor == t.Floor / d
  {
    var n, q := t.Floor, t.Floor / d;
    assert n == d * q + n % d;
    assert (d * q) as real == d as real * q as real;
    assert (d * q + d) as real == d as real * (q + 1) as real;
    assert d as real * q as real <= t < d as real * (q + 1) as real;
    var x, dr := t / d as real, d as real;
    assert t == dr * x;
    assert dr * (x - q as real) >= 0.0;
    assert dr * ((q + 1) as real - x) > 0.0;
    SignOfFactor(dr, x - q as real);
    SignOfFactor(dr, (q + 1) as real - x);
  }

  /** A product with a positive factor has the sign of the other factor. */
  lemma SignOfFactor(a: real, b: real)
    requires a > 0.0
    ensures a * b >= 0.0 ==> b >= 0.0
    ensures a * b > 0.0 ==> b > 0.0
  {
    if b < 0.0 {
      assert a * b < 0.0;
    }
  }

  /** `t % d` of a non-negative `t` is the integer remainder of its whole part
      plus its fractional part, so `Math.floor(t % d)` is that integer remainder. */
  lemma FloorRemainder(t: real, d: nat)
    requires t >= 0.0 && d > 0
    ensures Remainder(t, d as real) >= 0.0
    ensures Remainder(t, d as real).Floor == t.Floor % d
  {
    FloorDiv(t, d);
    var n, q := t.Floor, t.Floor / d;
    assert t / d as real >= 0.0;
    assert n == d * q + n % d;
    assert (d * q) as real == d as real * q as real;
    assert Remainder(t, d as real) == t - (d * q) as real;
    assert Remainder(t, d as real) == (n % d) as real + (t - n as real);
  }
}
