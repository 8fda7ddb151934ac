/** Decimal arithmetic as exact rationals (`real`), with the rounding rules the
    platform uses written out: `int()` truncation, the default half-to-even rule of
    an argument-less `quantize`, `ROUND_DOWN` and `ROUND_HALF_UP`. */
module Decimals {

  /** Python's `int(x)`: truncation toward zero. */
  function Trunc(x: real): (n: int)
    ensures x >= 0.0 ==> n >= 0 && n as real <= x < n as real + 1.0
    ensures x <= 0.0 ==> n <= 0 && n as real - 1.0 < x <= n as real
  {
    if x >= 0.0 then x.Floor else -((-x).Floor)
  }

  /** roundTiesToEven, section 4.3.1 of IEEE 754-2008. */
  function RoundHalfEven(x: real): (n: int)
    ensures -0.5 <= x - n as real <= 0.5
    ensures x - n as real == 0.5 || x - n as real == -0.5 ==> n % 2 == 0
  {
    var f := x.Floor;
    var d := x - f as real;
    if d < 0.5 || (d == 0.5 && f % 2 == 0) then f else f + 1
  }

  /** `ROUND_HALF_UP`: nearest integer, ties away from zero. */
  function RoundHalfUp(x: real): (n: int)
    ensures -0.5 <= x - n as real <= 0.5
    ensures x >= 0.0 ==> x - n as real != 0.5
    ensures x <= 0.0 ==> x - n as real != -0.5
  {
    if x >= 0.0 then (x + 0.5).Floor else -((0.5 - x).Floor)
  }

  /** The contract of RoundHalfEven has exactly one solution. */
  lemma RoundHalfEvenUnique(x: real, n: int)
    requires -0.5 <= x - n as real <= 0.5
    requires x - n as real == 0.5 || x - n as real == -0.5 ==> n % 2 == 0
    ensures n == RoundHalfEven(x)
  {
    var m := RoundHalfEven(x);
    assert -1.0 <= (n - m) as real <= 1.0;
    assert n == m || n == m + 1 || n == m - 1;
  }

  lemma RoundHalfEvenMonotone(x: real, y: real)
    requires x <= y
    ensures RoundHalfEven(x) <= RoundHalfEven(y)
  {
  }

  lemma RoundHalfUpMonotone(x: real, y: real)
    requires x <= y
    ensures RoundHalfUp(x) <= RoundHalfUp(y)
  {
  }

  lemma RoundFixesIntegers(n: int)
    ensures RoundHalfEven(n as real) == n
    ensures RoundHalfUp(n as real) == n
    ensures Trunc(n as real) == n
  {
    assert (n as real).Floor == n;
    assert (n as real + 0.5).Floor == n;
    if n < 0 {
      assert -(n as real) == (-n) as real;
      assert 0.5 - n as real == (-n) as real + 0.5;
      assert ((-n) as real).Floor == -n;
      assert ((-n) as real + 0.5).Floor == -n;
    }
  }

  // ---- The cent grid ----

  /** `x.quantize(Decimal("0.01"))`. */
  function ToCents(x: real): real {
    RoundHalfEven(x * 100.0) as real / 100.0
  }

  /** `x.quantize(Decimal("0.01"), rounding=ROUND_DOWN)`. */
  function DownCents(x: real): real {
    Trunc(x * 100.0) as real / 100.0
  }

  /** x has at most two decimals. */
  predicate OnCentGrid(x: real) {
    (x * 100.0).Floor as real == x * 100.0
  }

  lemma ToCentsProperties(x: real)
    ensures OnCentGrid(ToCents(x))
    ensures -0.005 <= x - ToCents(x) <= 0.005
    ensures OnCentGrid(x) ==> ToCents(x) == x
    ensures x >= 0.0 ==> ToCents(x) >= 0.0
  {
    var n := RoundHalfEven(x * 100.0);
    assert ToCents(x) * 100.0 == n as real;
    assert (n as real).Floor == n;
    if OnCentGrid(x) {
      RoundFixesIntegers((x * 100.0).Floor);
    }
  }

  lemma ToCentsMonotone(x: real, y: real)
    requires x <= y
    ensures ToCents(x) <= ToCents(y)
  {
    RoundHalfEvenMonotone(x * 100.0, y * 100.0);
  }

  lemma DownCentsOnGrid(x: real)
    ensures OnCentGrid(DownCents(x))
  {
    var n := Trunc(x * 100.0);
    assert DownCents(x) * 100.0 == n as real;
    assert (n as real).Floor == n;
  }

  lemma DownCentsProperties(x: real)
    requires x >= 0.0
    ensures OnCentGrid(DownCents(x))
    ensures 0.0 <= DownCents(x) <= x < DownCents(x) + 0.01
  {
    DownCentsOnGrid(x);
  }

  /** Truncation never drops below a grid value that bounds its input. */
  lemma DownCentsAbove(x: real, lo: real)
    requires 0.0 <= lo <= x && OnCentGrid(lo)
    ensures lo <= DownCents(x)
  {
    var n := (lo * 100.0).Floor;
    assert n as real <= x * 100.0;
  }

  // ---- Products, kept apart from the arithmetic that uses them ----

  lemma MulMonotone(a: real, b: real, c: real)
    requires a <= b && 0.0 <= c
    ensures a * c <= b * c && c * a <= c * b
  {
    assert (b - a) * c >= 0.0;
  }

  lemma CancelFactor(a: real, b: real, t: real)
    requires t > 0.0 && a * t <= b * t
    ensures a <= b
  {
  }

  lemma DivideMultiple(n: real, t: real)
    requires t > 0.0
    ensures n * t / t == n
  {
    var q := n * t / t;
    assert q * t == n * t;
    CancelFactor(q, n, t);
    CancelFactor(n, q, t);
  }

  lemma MultiplyQuotient(x: real, t: real)
    requires t > 0.0
    ensures x / t * t == x
  {
  }

  lemma QuotientMonotone(x: real, y: real, t: real)
    requires x <= y && t > 0.0
    ensures x / t <= y / t
  {
    MultiplyQuotient(x, t);
    MultiplyQuotient(y, t);
    CancelFactor(x / t, y / t, t);
  }

  lemma MulNonNegative(a: real, b: real)
    requires 0.0 <= a && 0.0 <= b
    ensures 0.0 <= a * b
  {
  }

  lemma MulPositive(a: real, b: real)
    requires 0.0 < a && 0.0 < b
    ensures 0.0 < a * b
  {
  }

  lemma MulStrict(a: real, b: real, c: real)
    requires a < b && 0.0 < c
    ensures a * c < b * c
  {
    MulPositive(b - a, c);
    assert (b - a) * c == b * c - a * c;
  }

  lemma LessFactor(x: real, q: real, n: real, t: real)
    requires t > 0.0 && x == q * t && x < n * t
    ensures q < n
  {
    if n <= q {
      MulMonotone(n, q, t);
    }
  }

  lemma AtMostFactor(x: real, q: real, n: real, t: real)
    requires t > 0.0 && x == q * t && n * t <= x
    ensures n <= q
  {
    if q < n {
      MulStrict(q, n, t);
    }
  }
}
