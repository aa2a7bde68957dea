/** Powers of two, and facts about products, quotients and remainders. */
module Arithmetic {
  function Pow2(n: nat): (r: nat)
    ensures r > 0
  {
    if n == 0 then 1 else 2 * Pow2(n - 1)
  }

  function Max(a: int, b: int): int {
    if a < b then b else a
  }

  function Min(a: int, b: int): int {
    if a < b then a else b
  }

  lemma MulLess(a: int, b: int, m: nat)
    requires a < b
    ensures a * m + m <= b * m
  {
    assert (b - a - 1) * m >= 0;
  }

  /** There is one way to divide with remainder. */
  lemma Unique(q: int, r: nat, p: int, t: nat, m: nat)
    requires q * m + r == p * m + t && r < m && t < m
    ensures q == p && r == t
  {
    if q < p {
      MulLess(q, p, m);
    } else if p < q {
      MulLess(p, q, m);
    }
  }

  lemma Quotient(x: int, m: nat, q: int, r: nat)
    requires x == q * m + r && r < m
    ensures x / m == q && x % m == r
  {
    Unique(q, r, x / m, x % m, m);
  }

  /** `x` and `y` leave the same remainder. */
  lemma SameMod(x: int, y: int, m: nat, k: int)
    requires m > 0 && x == y + k * m
    ensures x % m == y % m
  {
    assert y == (y / m) * m + y % m;
    assert (y / m + k) * m == (y / m) * m + k * m;
    Quotient(x, m, y / m + k, y % m);
  }

  lemma Divided(x: int, m: nat)
    requires m > 0
    ensures x == (x / m) * m + x % m && 0 <= x % m < m
  {
  }

  lemma QuotientNonNegative(x: nat, m: nat)
    requires m > 0
    ensures x / m >= 0
  {
  }

  lemma QuotientBelow(n: nat, d: nat)
    requires d > 0
    ensures 0 <= n / d <= n && n == d * (n / d) + n % d
    ensures d >= 2 && n > 0 ==> n / d < n
  {
    QuotientNonNegative(n, d);
    Divided(n, d);
    TimesAtLeast(n / d, d);
  }

  lemma TimesAtLeast(q: nat, d: nat)
    requires d > 0
    ensures q <= d * q == q * d
    ensures d >= 2 ==> 2 * q <= d * q
  {
    assert d * q == q + (d - 1) * q;
    if d >= 2 {
      assert d * q == 2 * q + (d - 2) * q;
    }
  }

  lemma MulIsZeroMod(x: nat, m: nat)
    requires m > 0
    ensures (x * m) % m == 0
  {
    Quotient(x * m, m, x, 0);
  }

  lemma DivideTwice(v: nat, k: nat, d: nat)
    requires k > 0 && d > 0
    ensures k * d > 0 && (v / k) / d == v / (k * d)
  {
    Divided(v, k);
    Divided(v / k, d);
    var q, r, p, t := v / k, v % k, v / k / d, v / k % d;
    assert k * d > 0;
    assert v == (p * d + t) * k + r == p * (k * d) + (t * k + r);
    MulLess(t, d, k);
    Quotient(v, k * d, p, t * k + r);
  }

  lemma MulMod(x: nat, y: nat, m: nat)
    requires m > 0
    ensures (x * (y % m)) % m == (x * y) % m
  {
    Divided(y, m);
    assert x * y == x * ((y / m) * m + y % m) == x * (y % m) + (x * (y / m)) * m;
    SameMod(x * y, x * (y % m), m, x * (y / m));
  }

  lemma ModScale(x: nat, m: nat, k: nat)
    requires m > 0 && k > 0
    ensures m * k > 0 && (x % m) * k == (x * k) % (m * k)
  {
    Divided(x, m);
    var q, r := x / m, x % m;
    assert m * k > 0;
    assert x * k == (q * m + r) * k == q * (m * k) + r * k;
    MulLess(r, m, k);
    Quotient(x * k, m * k, q, r * k);
  }

  lemma Distribute(x: nat, p: nat, m: nat)
    ensures (x + p) * m == x * m + m * p
  {
  }
}
