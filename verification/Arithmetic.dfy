/** The few facts about products and quotients that the solver does not find by itself. */
module Arithmetic {

  lemma MulOrder(a: int, b: int, c: int)
    requires c > 0
    ensures a <= b <==> a * c <= b * c
  {
    if a <= b {
      assert a * c <= b * c;
    } else {
      assert a * c >= (b + 1) * c;
    }
  }

  lemma QuotientUnique(x: int, d: int, q: int)
    requires d > 0 && q * d <= x < q * d + d
    ensures x / d == q && x % d == x - q * d
  {
    var p := x / d;
    assert x == d * p + x % d;
    MulOrder(p + 1, q, d);
    MulOrder(q + 1, p, d);
  }

  lemma RemainderZero(x: int, d: int, q: int)
    requires d > 0 && x == d * q
    ensures x % d == 0
  {
    QuotientUnique(x, d, q);
  }

  lemma DivideDifference(x: int, y: int, d: int)
    requires d > 0 && x % d == 0 && y % d == 0
    ensures (x - y) % d == 0 && (x + y) % d == 0
  {
    var a, b := x / d, y / d;
    assert x == d * a && y == d * b;
    RemainderZero(x - y, d, a - b);
    RemainderZero(x + y, d, a + b);
  }

  lemma MultipleGap(x: int, y: int, d: int)
    requires d > 0 && x % d == 0 && y % d == 0
    ensures x < y ==> x + d <= y
  {
    var a, b := x / d, y / d;
    assert x == d * a && y == d * b;
    MulOrder(b, a, d);
    MulOrder(a + 1, b, d);
  }

  lemma RemainderPastOne(d: int, x: int)
    requires d > 0
    ensures (d + x) % d == x % d
  {
    var q := x / d;
    assert x == d * q + x % d;
    assert (q + 1) * d == q * d + d;
    QuotientUnique(d + x, d, q + 1);
  }
}
