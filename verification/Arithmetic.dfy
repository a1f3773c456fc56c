/** Division and remainders of products, as the shifting of digits needs them. */
module Arithmetic {

  lemma Associate(a: int, b: int, c: int)
    ensures (a * b) * c == a * (b * c)
  {
  }

  lemma Distribute(a: int, b: int, d: int)
    ensures (a - b) * d == a * d - b * d
    ensures (a + b) * d == a * d + b * d
  {
  }

  /** A number and its tail, both extended by one bit. */
  lemma Append(n: nat, n2: nat, x: nat, d: nat, d2: nat, y: nat, y2: nat, bit: nat)
    requires n == x * d + y && d2 == 2 * d && y2 == 2 * y + bit && n2 == 2 * n + bit
    ensures n2 == x * d2 + y2
  {
    Associate(x, d, 2);
  }

  lemma {:induction false} AtLeast(x: int, d: nat)
    requires x >= 1
    ensures x * d >= d
  {
    if x > 1 {
      AtLeast(x - 1, d);
      Distribute(x, 1, d);
    }
  }

  lemma Euclid(n: nat, d: nat)
    requires d > 0
    ensures 0 <= n / d && n == n / d * d + n % d && 0 <= n % d < d
  {
  }

  lemma SameQuotient(q: nat, q2: nat, r: nat, r2: nat, d: nat)
    requires q * d + r == q2 * d + r2 && r < d && r2 < d
    ensures q == q2 && r == r2
  {
    Distribute(q, q2, d);
    Distribute(q2, q, d);
    if q > q2 {
      AtLeast(q - q2, d);
    } else if q2 > q {
      AtLeast(q2 - q, d);
    }
  }

  lemma Quotient(n: nat, q: nat, d: nat, r: nat)
    requires r < d && n == q * d + r
    ensures n / d == q && n % d == r
  {
    Euclid(n, d);
    SameQuotient(q, n / d, r, n % d, d);
  }

  lemma AddLow(v: nat, d: nat, low: nat, b: nat)
    requires 0 < d && v % d == low && low + b < d
    ensures (v + b) % d == low + b
  {
    Euclid(v, d);
    Quotient(v + b, v / d, d, low + b);
  }

  /** The two digits of the remainder by a product. */
  lemma TwoDigits(v: nat, c: nat, d: nat, head: nat, rest: nat)
    requires 0 < c && rest < d && head < c && 0 < c * d && v % (c * d) == head * d + rest
    ensures v / d % c == head && v % d == rest
  {
    var q := v / (c * d);
    Euclid(v, c * d);
    Associate(q, c, d);
    Distribute(q * c, head, d);
    Quotient(v, q * c + head, d, rest);
    Quotient(q * c + head, q, c, head);
  }

  /** A remainder scaled. */
  lemma ScaledRemainder(v: nat, d: nat, c: nat)
    requires 0 < d && 0 < c
    ensures 0 < d * c && v * c % (d * c) == v % d * c
  {
    var q, r := v / d, v % d;
    Euclid(v, d);
    Distribute(q * d, r, c);
    Associate(q, d, c);
    Distribute(d, r, c);
    AtLeast(d - r, c);
    AtLeast(d, c);
    Quotient(v * c, q, d * c, r * c);
  }

  lemma DivideDown(v: nat, d: nat)
    requires d > 0
    ensures 0 <= v / d <= v
  {
    Euclid(v, d);
    AtLeast(d, v / d);
  }

  lemma Halve(n: nat, d: nat)
    requires d > 0
    ensures n / d == n / d / 2 * 2 + n / d % 2
  {
  }

  lemma SameDigits(m: nat, n: nat, x: nat, y: nat)
    requires 2 * m + x == 2 * n + y && x <= 1 && y <= 1
    ensures m == n && x == y
  {
  }
}
