/**
 * Numbers written in a base: least significant digit first, without leading zeros.
 */
module Digits {
  import opened Arithmetic

  function Pow(b: nat, n: nat): nat {
    if n == 0 then 1 else b * Pow(b, n - 1)
  }

  function Value(b: nat, ds: seq<nat>): nat {
    if ds == [] then 0 else ds[0] + b * Value(b, ds[1..])
  }

  /** The digits of `n`. */
  function DigitsOf(b: nat, n: nat): seq<nat>
    requires b >= 2
    decreases n
  {
    if n == 0 then []
    else
      QuotientBelow(n, b);
      [n % b] + DigitsOf(b, n / b)
  }

  predicate AreDigits(b: nat, ds: seq<nat>) {
    forall i | 0 <= i < |ds| :: ds[i] < b
  }

  /** Written without leading zeros. */
  predicate Normal(b: nat, ds: seq<nat>) {
    AreDigits(b, ds) && (ds != [] ==> ds[|ds| - 1] != 0)
  }

  lemma {:induction false} DigitsNormal(b: nat, n: nat)
    requires b >= 2
    ensures Normal(b, DigitsOf(b, n)) && Value(b, DigitsOf(b, n)) == n
    decreases n
  {
    if n > 0 {
      QuotientBelow(n, b);
      var ds, rest := DigitsOf(b, n), DigitsOf(b, n / b);
      DigitsNormal(b, n / b);
      assert ds[1..] == rest;
      assert forall i | 0 < i < |ds| :: ds[i] == rest[i - 1];
      if rest == [] {
        assert n / b == 0;
      }
    }
  }

  lemma {:induction false} NormalPositive(b: nat, ds: seq<nat>)
    requires b >= 1 && Normal(b, ds) && ds != []
    ensures Value(b, ds) > 0
  {
    if |ds| > 1 {
      NormalPositive(b, ds[1..]);
      assert b * Value(b, ds[1..]) > 0;
    }
  }

  lemma UniqueDigit(b: nat, d: nat, q: nat)
    requires d < b
    ensures (d + b * q) % b == d && (d + b * q) / b == q
  {
    Quotient(d + b * q, b, q, d);
  }

  /** A number is written in one way. */
  lemma {:induction false} DigitsOfValue(b: nat, ds: seq<nat>)
    requires b >= 2 && Normal(b, ds)
    ensures DigitsOf(b, Value(b, ds)) == ds
    decreases |ds|
  {
    if ds != [] {
      NormalPositive(b, ds);
      UniqueDigit(b, ds[0], Value(b, ds[1..]));
      DigitsOfValue(b, ds[1..]);
    }
  }

  lemma {:induction false} DigitsFit(b: nat, n: nat, m: nat)
    requires b >= 2 && n < Pow(b, m)
    ensures |DigitsOf(b, n)| <= m
    decreases m
  {
    if n > 0 {
      QuotientBelow(n, b);
      PowPositive(b, m - 1);
      QuotientFits(b, n, Pow(b, m - 1));
      DigitsFit(b, n / b, m - 1);
    }
  }

  lemma QuotientFits(b: nat, n: nat, p: nat)
    requires b >= 1 && p >= 1 && n < b * p
    ensures n / b < p
  {
    Divided(n, b);
    if n / b >= p {
      MulLess(p - 1, n / b, b);
    }
  }

  // ---------------------------------------------------------------------------------------------
  // Powers

  lemma {:induction false} PowSum(b: nat, m: nat, n: nat)
    ensures Pow(b, m + n) == Pow(b, m) * Pow(b, n)
  {
    if m > 0 {
      PowSum(b, m - 1, n);
      assert b * (Pow(b, m - 1) * Pow(b, n)) == (b * Pow(b, m - 1)) * Pow(b, n);
    }
  }

  lemma {:induction false} PowPow(b: nat, m: nat, n: nat)
    ensures Pow(Pow(b, m), n) == Pow(b, m * n)
  {
    if n > 0 {
      PowPow(b, m, n - 1);
      PowSum(b, m, m * (n - 1));
      assert m * n == m + m * (n - 1);
    }
  }

  lemma {:induction false} PowPositive(b: nat, n: nat)
    requires b >= 1
    ensures Pow(b, n) >= 1
  {
    if n > 0 {
      PowPositive(b, n - 1);
      assert b * Pow(b, n - 1) >= 1;
    }
  }

  lemma MulMonotone(a: nat, b: nat, x: nat, y: nat)
    requires a <= b && x <= y
    ensures a * x <= b * y
  {
    assert a * x <= b * x by {
      assert (b - a) * x >= 0;
    }
    assert b * x <= b * y by {
      assert b * (y - x) >= 0;
    }
  }

  lemma {:induction false} PowMonotone(a: nat, b: nat, n: nat)
    requires a <= b
    ensures Pow(a, n) <= Pow(b, n)
  {
    if n > 0 {
      PowMonotone(a, b, n - 1);
      MulMonotone(a, b, Pow(a, n - 1), Pow(b, n - 1));
    }
  }

  lemma {:induction false} PowLess(b: nat, m: nat, n: nat)
    requires b >= 2 && m < n
    ensures Pow(b, m) < Pow(b, n)
  {
    PowPositive(b, n - 1);
    MulMonotone(2, b, Pow(b, n - 1), Pow(b, n - 1));
    if m < n - 1 {
      PowLess(b, m, n - 1);
    }
  }

  /** Powers compare as their bases do. */
  lemma PowRoot(a: nat, b: nat, n: nat)
    requires Pow(a, n) < Pow(b, n)
    ensures a < b
  {
    if b <= a {
      PowMonotone(b, a, n);
    }
  }

  lemma PowSwap(b: nat, m: nat, n: nat)
    ensures Pow(Pow(b, m), n) == Pow(Pow(b, n), m)
  {
    hide Pow;
    PowPow(b, m, n);
    PowPow(b, n, m);
    assert m * n == n * m;
  }

  lemma PowPowLess(a: nat, j: nat, n: nat, m: nat, k: nat)
    requires a >= 2 && j * n < m * k
    ensures Pow(Pow(a, j), n) < Pow(Pow(a, m), k)
  {
    hide Pow;
    var x: nat, y: nat := j * n, m * k;
    PowPow(a, j, n);
    PowPow(a, m, k);
    PowLess(a, x, y);
  }

  /** If `b^k <= a^j`, a number of `n` digits in base `b` takes at most `m` digits in base `a` as soon
      as `j * n < m * k`. */
  lemma BaseChange(a: nat, b: nat, j: nat, k: nat, n: nat, m: nat)
    requires a >= 2 && Pow(b, k) <= Pow(a, j) && j * n < m * k
    ensures Pow(b, n) < Pow(a, m)
  {
    hide Pow;
    PowSwap(b, n, k);
    PowMonotone(Pow(b, k), Pow(a, j), n);
    PowPowLess(a, j, n, m, k);
    PowRoot(Pow(b, n), Pow(a, m), k);
  }
}
