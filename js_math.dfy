/**
 * The parts of JavaScript's `Math` object the calculator uses, on exact
 * reals and unbounded integers.
 */
module JsMath {

  /** `Math.max(a, b)` on integers. */
  function Max(a: int, b: int): (r: int)
    ensures r >= a && r >= b
    ensures r == a || r == b
  {
    if a >= b then a else b
  }

  /**
   * `Math.round(x)`: the nearest integer, a tie going up (toward +infinity),
   * which is `floor(x + 1/2)`.
   */
  function Round(x: real): (r: int)
    ensures r as real - 0.5 <= x < r as real + 0.5
  {
    (x + 0.5).Floor
  }

  /** The contract of Round fixes its result: there is one such integer. */
  lemma RoundUnique(x: real, n: int)
    requires n as real - 0.5 <= x < n as real + 0.5
    ensures Round(x) == n
  {
  }

  /** Rounding a quotient of integers is integer arithmetic: `round(a / b) == floor((2a + b) / 2b)`. */
  lemma RoundQuotient(a: int, b: int)
    requires b > 0
    ensures Round(a as real / b as real) == (2 * a + b) / (2 * b)
  {
    HalfShift(a, b);
    FloorQuotient(2 * a + b, 2 * b);
  }

  /** `a / b + 1/2 == (2a + b) / 2b` on reals. */
  lemma HalfShift(a: int, b: int)
    requires b > 0
    ensures a as real / b as real + 0.5 == (2 * a + b) as real / (2 * b) as real
  {
    var c := (2 * b) as real;
    var x := a as real / b as real;
    assert x * b as real == a as real;
    assert (x + 0.5) * c == 2.0 * (x * b as real) + b as real;
    assert ((2 * a + b) as real / c) * c == (2 * a + b) as real;
    ScaleCancels(x + 0.5, (2 * a + b) as real / c, c);
  }

  /** The floor of a real quotient of integers is Euclidean division. */
  lemma FloorQuotient(n: int, d: int)
    requires d > 0
    ensures (n as real / d as real).Floor == n / d
  {
    var q := n / d;
    var y := n as real / d as real;
    var c := d as real;
    assert y * c == n as real;
    assert (d * q) as real == q as real * c;
    assert (d * q + d) as real == (q as real + 1.0) * c;
    ScaleCancels(q as real, y, c);
    ScaleCancels(y, q as real + 1.0, c);
  }

  /** Multiplying by a positive factor keeps the order of two reals. */
  lemma ScaleCancels(u: real, v: real, c: real)
    requires c > 0.0
    ensures u * c == v * c <==> u == v
    ensures u * c < v * c <==> u < v
    ensures u * c <= v * c <==> u <= v
  {
    assert u * c - v * c == (u - v) * c;
    if u < v {
      assert (v - u) * c > 0.0;
    } else if u > v {
      assert (u - v) * c > 0.0;
    }
  }

  /** `Math.pow(x, n)` for a natural exponent. */
  function Pow(x: real, n: nat): real {
    if n == 0 then 1.0 else x * Pow(x, n - 1)
  }

  /** Powers of a base in [0, 1) stay in [0, 1] and never grow as the exponent grows. */
  lemma {:induction false} PowInUnit(x: real, n: nat)
    requires 0.0 <= x < 1.0
    ensures 0.0 <= Pow(x, n) <= 1.0
    ensures n > 0 ==> Pow(x, n) < 1.0
    ensures Pow(x, n + 1) <= Pow(x, n)
  {
    var p := Pow(x, n);
    if n > 0 {
      var q := Pow(x, n - 1);
      PowInUnit(x, n - 1);
      assert p == x * q;
      ScaleDown(x, q);
    }
    assert Pow(x, n + 1) == x * p;
    ScaleDown(x, p);
  }

  /** Scaling a real in [0, 1] by a factor in [0, 1) gives at most either of them. */
  lemma ScaleDown(f: real, p: real)
    requires 0.0 <= f < 1.0 && 0.0 <= p <= 1.0
    ensures 0.0 <= f * p <= p && f * p <= f
  {
    assert p - f * p == (1.0 - f) * p;
    assert f - f * p == f * (1.0 - p);
  }
}
