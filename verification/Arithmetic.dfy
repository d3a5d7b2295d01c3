/** Products and quotients of reals, one fact at a time. */
module Arithmetic {

  lemma Times(a: real, b: real)
    requires a >= 0.0 && b >= 0.0
    ensures a * b >= 0.0
  {
  }

  lemma PositiveTimes(a: real, b: real)
    requires a > 0.0 && b > 0.0
    ensures a * b > 0.0
  {
  }

  lemma Distribute(a: real, b: real, x: real)
    ensures (a - b) * x == a * x - b * x
    ensures (a + b) * x == a * x + b * x
    ensures x * (a - b) == x * a - x * b
    ensures x * (a + b) == x * a + x * b
  {
  }

  lemma Reassociate(a: real, b: real, c: real)
    ensures a * (b * c) == (a * b) * c
  {
  }

  /** Multiplying both sides by something positive. */
  lemma MultiplyBoth(a: real, b: real, x: real)
    requires x > 0.0
    ensures a <= b <==> a * x <= b * x
  {
    Distribute(b, a, x);
    if a <= b {
      Times(b - a, x);
    } else {
      PositiveTimes(a - b, x);
      Distribute(a, b, x);
    }
  }

  lemma Product(a: real, a': real, b: real, b': real)
    requires 0.0 <= a <= a' && 0.0 <= b <= b'
    ensures a * b <= a' * b'
  {
    Times(a' - a, b);
    Times(a', b' - b);
    Distribute(a', a, b);
    Distribute(b', b, a');
  }

  lemma DivideThenMultiply(x: real, y: real)
    requires y != 0.0
    ensures x / y * y == x
  {
  }

  lemma MultiplyThenDivide(x: real, y: real)
    requires y != 0.0
    ensures x * y / y == x
  {
  }

  /** The only number whose product is that. */
  lemma QuotientIs(x: real, y: real, q: real)
    requires y != 0.0 && q * y == x
    ensures x / y == q
  {
  }
}
