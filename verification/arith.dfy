/**
 * JavaScript number rounding, stated exactly on integers.
 *
 * The source rounds quotients with `Math.round`, which returns the nearest
 * integer and breaks ties toward positive infinity. `RoundDiv(p, q)` is
 * `Math.round(p / q)` computed without floating point; `JsRound` is the
 * same rule over exact reals and serves as its reference definition.
 */
module Arith {

  /** Math.round over exact reals: floor(x + 1/2). */
  function JsRound(x: real): int {
    (x + 0.5).Floor
  }

  /** The numerator of p / q once the divisor is made positive. */
  function Num(p: int, q: int): int { if q > 0 then p else -p }

  /** The divisor of p / q made positive. */
  function Den(q: int): int { if q > 0 then q else -q }

  /** Math.round(p / q) for a non-zero integer divisor. */
  function RoundDiv(p: int, q: int): (r: int)
    requires q != 0
    ensures 2 * Den(q) * r <= 2 * Num(p, q) + Den(q) < 2 * Den(q) * r + 2 * Den(q)
  {
    var n := 2 * Num(p, q) + Den(q);
    var d := 2 * Den(q);
    assert n == d * (n / d) + n % d;
    n / d
  }

  /** Math.round((part / whole) * 100): a rounded percentage. */
  function Percent(part: int, whole: int): (r: int)
    requires whole != 0
  {
    RoundDiv(part * 100, whole)
  }

  lemma MulMono(c: int, x: int, y: int)
    requires c >= 0 && x <= y
    ensures c * x <= c * y
  {
    assert c * y - c * x == c * (y - x);
  }

  lemma RealCancel(u: real, v: real, c: real)
    requires c > 0.0 && u * c <= v * c
    ensures u <= v
  {
  }

  lemma RealCancelStrict(u: real, v: real, c: real)
    requires c > 0.0 && u * c < v * c
    ensures u < v
  {
  }

  /** The integer rounding agrees with Math.round applied to the exact quotient. */
  lemma RoundDivIsJsRound(p: int, q: int)
    requires q != 0
    ensures RoundDiv(p, q) == JsRound(p as real / q as real)
  {
    var a, b := Num(p, q), Den(q);
    var x := a as real / b as real;
    assert p as real / q as real == x;
    var r := RoundDiv(p, q);
    var c := (2 * b) as real;
    assert x * b as real == a as real;
    assert (r as real - 0.5) * c == (2 * b * r - b) as real;
    assert (x) * c == (2 * a) as real;
    RealCancel(r as real - 0.5, x, c);
    assert (x + 0.5) * c == (2 * a + b) as real;
    assert (r + 1) as real * c == (2 * b * r + 2 * b) as real;
    RealCancelStrict(x + 0.5, (r + 1) as real, c);
  }

  /** Rounding is monotone in the numerator. */
  lemma RoundDivMonotone(p1: int, p2: int, q: int)
    requires q > 0 && p1 <= p2
    ensures RoundDiv(p1, q) <= RoundDiv(p2, q)
  {
    var r1, r2 := RoundDiv(p1, q), RoundDiv(p2, q);
    if r2 + 1 <= r1 {
      MulMono(2 * q, r2 + 1, r1);
      assert false;
    }
  }

  /** A share between nothing and the whole rounds to a percentage in 0..100. */
  lemma PercentBounds(part: int, whole: int)
    requires whole > 0 && 0 <= part <= whole
    ensures 0 <= Percent(part, whole) <= 100
  {
    var r := Percent(part, whole);
    if r >= 101 {
      MulMono(2 * whole, 101, r);
      MulMono(200, part, whole);
      assert false;
    }
    if r + 1 <= 0 {
      MulMono(2 * whole, r + 1, 0);
      assert false;
    }
  }
}
