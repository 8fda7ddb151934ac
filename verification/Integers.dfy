/** Multiples and quotients of integers by a positive divisor. */
module Integers {

  lemma ProductSign(k: int, d: int)
    requires d > 0
    ensures k >= 1 ==> k * d >= d
    ensures k <= 0 ==> k * d <= 0
    ensures k <= -1 ==> k * d <= -d
  {
  }

  lemma ProductMonotone(a: int, b: int, c: int)
    requires a <= b && c >= 0
    ensures a * c <= b * c
  {
    assert (b - a) * c >= 0;
  }

  lemma QuotientUnique(x: int, d: int, j: int)
    requires d > 0 && j * d <= x < j * d + d
    ensures j == x / d && x % d == x - j * d
  {
    var k := j - x / d;
    assert x == (x / d) * d + x % d;
    assert k * d == x % d - (x - j * d);
    ProductSign(k, d);
  }

  lemma RemainderOfMultiple(q: int, d: int)
    requires d > 0
    ensures (q * d) % d == 0
  {
    QuotientUnique(q * d, d, q);
  }

  /** Rounding down to a multiple gives a multiple, and keeps every smaller multiple. */
  lemma RoundDownToMultiple(a: int, d: int)
    requires d > 0
    ensures (a - a % d) % d == 0
    ensures forall m :: m % d == 0 && m <= a ==> m <= a - a % d
  {
    assert a - a % d == (a / d) * d;
    RemainderOfMultiple(a / d, d);
    forall m | m % d == 0 && m <= a
      ensures m <= a - a % d
    {
      MultipleBelow(a, m, d);
    }
  }

  lemma MultipleBelow(a: int, m: int, d: int)
    requires d > 0 && m % d == 0 && m <= a
    ensures m <= a - a % d
  {
    var k := m / d - a / d;
    assert k * d == m - (a - a % d);
    ProductSign(k, d);
  }
}
