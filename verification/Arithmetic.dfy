/** Numbers that several modules compute with. */
module Arithmetic {
  function Min(a: int, b: int): int {
    if a < b then a else b
  }

  function Max(a: int, b: int): int {
    if a < b then b else a
  }

  function Sum(s: seq<int>): int {
    if s == [] then 0 else Sum(s[..|s| - 1]) + s[|s| - 1]
  }

  // ----- Fractions

  lemma Quotient(x: real, d: real)
    requires d > 0.0
    ensures x / d * d == x
  {
  }

  lemma SameFactor(x: real, y: real, d: real)
    requires d > 0.0 && x * d <= y * d
    ensures x <= y
    ensures x * d == y * d ==> x == y
  {
    Scales(x, y, d);
    Scales(y, x, d);
  }

  lemma Scales(x: real, y: real, d: real)
    requires d > 0.0
    ensures x > y ==> x * d > y * d
  {
    if x > y {
      assert (x - y) * d > 0.0;
    }
  }

  lemma SameDivisor(x: real, y: real, d: real)
    requires d > 0.0 && x <= y
    ensures x / d <= y / d
  {
    Quotient(x, d);
    Quotient(y, d);
    SameFactor(x / d, y / d, d);
  }

  /** Adding the same to both parts of a proper fraction makes it no smaller. */
  lemma Widened(n: real, d: real, k: real)
    requires 0.0 <= n <= d && d > 0.0 && k >= 0.0
    ensures n / d <= (n + k) / (d + k)
  {
    var x := n / d;
    Quotient(n, d);
    AtMostOne(n, d);
    Quotient(n + k, d + k);
    assert x * (d + k) <= n + k by {
      assert x * (d + k) == x * d + x * k;
      NoLarger(x, 1.0, k);
    }
    SameFactor(x, (n + k) / (d + k), d + k);
  }

  lemma AtMostOne(n: real, d: real)
    requires 0.0 <= n <= d && d > 0.0
    ensures 0.0 <= n / d <= 1.0
  {
    SameDivisor(n, d, d);
    SameDivisor(0.0, n, d);
  }

  lemma NoLarger(x: real, y: real, k: real)
    requires x <= y && k >= 0.0
    ensures x * k <= y * k
  {
  }

  lemma Narrowed(n: real, d: real, e: real)
    requires 0.0 <= n && 0.0 < d <= e
    ensures n / e <= n / d
  {
    Quotient(n, d);
    Quotient(n, e);
    SameDivisor(0.0, n, e);
    assert n / e * d <= n / e * e by {
      assert n / e * (e - d) >= 0.0;
    }
    SameFactor(n / e, n / d, d);
  }

  lemma AddsUp(n: real, m: real, k: real, d: real)
    requires n <= m + k && d > 0.0
    ensures n / d <= m / d + k / d
  {
    Quotient(n, d);
    Quotient(m, d);
    Quotient(k, d);
    assert (m / d + k / d) * d == m / d * d + k / d * d;
    SameFactor(n / d, m / d + k / d, d);
  }
}
