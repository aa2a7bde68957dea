/**
 * Numbers written in 32-bit limbs, least significant first, and the digit-by-digit algorithms on them
 * as functions, each with the number it computes.
 */
module Limbs {
  import opened Arithmetic

  const BASE: nat := 0x1_0000_0000

  type Limb = x: nat | x < 0x1_0000_0000

  function Value(s: seq<Limb>): nat {
    if s == [] then 0 else s[0] + BASE * Value(s[1..])
  }

  /** BASE to the power `n`. */
  function Size(n: nat): (r: nat)
    ensures r > 0
  {
    if n == 0 then 1 else BASE * Size(n - 1)
  }

  // ---------------------------------------------------------------------------------------------
  // Values of parts

  /** A digit more on both sides of a remainder. */
  lemma ModStep(r: nat, x: int, m: nat)
    requires r < BASE && m > 0
    ensures (r + BASE * x) % (BASE * m) == r + BASE * (x % m)
  {
    Divided(x, m);
    var q := x / m;
    assert BASE * (q * m) == q * (BASE * m);
    Quotient(r + BASE * x, BASE * m, q, r + BASE * (x % m));
  }

  lemma {:induction false} ValueBound(s: seq<Limb>)
    ensures Value(s) < Size(|s|)
  {
    if s != [] {
      ValueBound(s[1..]);
    }
  }

  lemma {:induction false} ValueConcat(a: seq<Limb>, b: seq<Limb>)
    ensures Value(a + b) == Value(b) * Size(|a|) + Value(a)
  {
    if a == [] {
      assert a + b == b;
    } else {
      assert (a + b)[1..] == a[1..] + b;
      ValueConcat(a[1..], b);
      assert BASE * (Value(b) * Size(|a| - 1)) == Value(b) * (BASE * Size(|a| - 1));
    }
  }

  /** Dropping the high limbs is taking a remainder. */
  lemma ValuePrefix(s: seq<Limb>, n: nat)
    requires n <= |s|
    ensures Value(s[..n]) == Value(s) % Size(n) && Value(s[n..]) == Value(s) / Size(n)
  {
    hide Value, Size;
    assert s == s[..n] + s[n..];
    ValueConcat(s[..n], s[n..]);
    ValueBound(s[..n]);
    Quotient(Value(s), Size(n), Value(s[n..]), Value(s[..n]));
  }

  // ---------------------------------------------------------------------------------------------
  // Sums and products, digit by digit

  function AddDigits(a: seq<Limb>, b: seq<Limb>, carry: nat): (r: seq<Limb>)
    requires |a| == |b|
    ensures |r| == |a|
  {
    if a == [] then []
    else
      var n := carry + a[0] + b[0];
      [n % BASE] + AddDigits(a[1..], b[1..], n / BASE)
  }

  lemma {:induction false} AddDigitsValue(a: seq<Limb>, b: seq<Limb>, carry: nat)
    requires |a| == |b|
    ensures Value(AddDigits(a, b, carry)) == (Value(a) + Value(b) + carry) % Size(|a|)
  {
    if a != [] {
      var n := carry + a[0] + b[0];
      AddDigitsValue(a[1..], b[1..], n / BASE);
      ModStep(n % BASE, Value(a[1..]) + Value(b[1..]) + n / BASE, Size(|a| - 1));
      assert AddDigits(a, b, carry)[1..] == AddDigits(a[1..], b[1..], n / BASE);
    }
  }

  /** `acc` plus `m` times `b`: one row of a long multiplication. */
  function MulAddDigits(acc: seq<Limb>, b: seq<Limb>, m: Limb, carry: nat): (r: seq<Limb>)
    requires |acc| == |b|
    ensures |r| == |acc|
  {
    if acc == [] then []
    else
      var n := carry + acc[0] + m * b[0];
      [n % BASE] + MulAddDigits(acc[1..], b[1..], m, n / BASE)
  }

  lemma {:induction false} MulAddDigitsValue(acc: seq<Limb>, b: seq<Limb>, m: Limb, carry: nat)
    requires |acc| == |b|
    ensures Value(MulAddDigits(acc, b, m, carry)) == (Value(acc) + m * Value(b) + carry) % Size(|acc|)
  {
    if acc != [] {
      var n := carry + acc[0] + m * b[0];
      var r, rest := MulAddDigits(acc, b, m, carry), MulAddDigits(acc[1..], b[1..], m, n / BASE);
      assert r[1..] == rest && r[0] == n % BASE;
      ValueStep(r);
      ValueStep(acc);
      ValueStep(b);
      SizeStep(|acc|);
      hide Value, Size, MulAddDigits;
      MulAddDigitsValue(acc[1..], b[1..], m, n / BASE);
      RowStep(carry, acc[0], m, b[0], Value(acc[1..]), Value(b[1..]), Value(acc), Value(b), Size(|acc| - 1));
    }
  }

  lemma RowStep(carry: nat, a: nat, m: nat, b: nat, more: nat, high: nat, va: nat, vb: nat, size: nat)
    requires size > 0 && va == a + BASE * more && vb == b + BASE * high
    ensures var n := carry + a + m * b;
            n % BASE + BASE * ((more + m * high + n / BASE) % size) == (va + m * vb + carry) % (BASE * size)
  {
    var n := carry + a + m * b;
    assert m * vb == m * (b + BASE * high) == m * b + BASE * (m * high);
    var x := more + m * high + n / BASE;
    assert va + m * vb + carry == n % BASE + BASE * x;
    ModStep(n % BASE, x, size);
  }

  /** All rows of a long multiplication, cut to the width of `acc`. */
  function MulRows(acc: seq<Limb>, a: seq<Limb>, b: seq<Limb>): (r: seq<Limb>)
    requires |acc| == |a| == |b|
    ensures |r| == |acc|
    decreases |acc|
  {
    if acc == [] then []
    else
      var row := MulAddDigits(acc, b, a[0], 0);
      [row[0]] + MulRows(row[1..], a[1..], b[..|b| - 1])
  }

  lemma {:induction false} MulRowsValue(acc: seq<Limb>, a: seq<Limb>, b: seq<Limb>)
    requires |acc| == |a| == |b|
    ensures Value(MulRows(acc, a, b)) == (Value(acc) + Value(a) * Value(b)) % Size(|acc|)
    decreases |acc|
  {
    if acc != [] {
      var n := |acc|;
      var row, r := MulAddDigits(acc, b, a[0], 0), MulRows(acc, a, b);
      assert r[0] == row[0] && r[1..] == MulRows(row[1..], a[1..], b[..n - 1]);
      ValueStep(r);
      ValueStep(a);
      ValueStep(row);
      SizeStep(n);
      hide Value, Size, MulAddDigits, MulRows;
      MulAddDigitsValue(acc, b, a[0], 0);
      MulRowsValue(row[1..], a[1..], b[..n - 1]);
      ValuePrefix(b, n - 1);
      MulRowsStep(Value(acc), a[0], Value(a[1..]), Value(a), Value(b), row[0], Value(row[1..]), Size(n - 1));
    }
  }

  lemma ValueStep(s: seq<Limb>)
    requires s != []
    ensures Value(s) == s[0] + BASE * Value(s[1..])
  {
  }

  lemma SizeStep(n: nat)
    requires n > 0
    ensures Size(n) == BASE * Size(n - 1)
  {
  }

  /** The arithmetic of one row: `row + BASE * rest` is the row's number, `va` that of `a`. */
  lemma MulRowsStep(acc: nat, a: Limb, more: nat, va: nat, b: nat, row: Limb, rest: nat, m: nat)
    requires m > 0 && va == a + BASE * more && row + BASE * rest == (acc + a * b) % (BASE * m)
    ensures row + BASE * ((rest + more * (b % m)) % m) == (acc + va * b) % (BASE * m)
  {
    var x := rest + more * (b % m);
    ModStep(row, x, m);
    Divided(acc + a * b, BASE * m);
    Divided(b, m);
    var k1, k2 := (acc + a * b) / (BASE * m), b / m;
    assert (a + BASE * more) * b == a * b + BASE * (more * b);
    assert more * b == more * (k2 * m + b % m) == more * k2 * m + more * (b % m);
    assert BASE * (more * k2 * m) == (more * k2) * (BASE * m);
    assert (k1 + more * k2) * (BASE * m) == k1 * (BASE * m) + (more * k2) * (BASE * m);
    SameMod(acc + va * b, row + BASE * x, BASE * m, k1 + more * k2);
  }

  // ---------------------------------------------------------------------------------------------
  // Complement, increment, order

  function Complement(s: seq<Limb>): (r: seq<Limb>)
    ensures |r| == |s|
  {
    if s == [] then [] else [BASE - 1 - s[0]] + Complement(s[1..])
  }

  lemma {:induction false} ComplementValue(s: seq<Limb>)
    ensures Value(Complement(s)) == Size(|s|) - 1 - Value(s)
  {
    if s != [] {
      ComplementValue(s[1..]);
      assert Complement(s)[1..] == Complement(s[1..]);
    }
  }

  function Incremented(s: seq<Limb>): (r: seq<Limb>)
    ensures |r| == |s|
  {
    if s == [] then []
    else if s[0] + 1 < BASE then [s[0] + 1] + s[1..]
    else [0] + Incremented(s[1..])
  }

  lemma {:induction false} IncrementedValue(s: seq<Limb>)
    ensures Value(Incremented(s)) == (Value(s) + 1) % Size(|s|)
  {
    if s != [] {
      ValueBound(s);
      ValueStep(Incremented(s));
      if s[0] + 1 < BASE {
        assert Incremented(s)[1..] == s[1..];
        ModStep(s[0] + 1, Value(s[1..]), Size(|s| - 1));
        ValueBound(s[1..]);
        Quotient(Value(s[1..]), Size(|s| - 1), 0, Value(s[1..]));
      } else {
        IncrementedValue(s[1..]);
        assert Incremented(s)[1..] == Incremented(s[1..]);
        ModStep(0, Value(s[1..]) + 1, Size(|s| - 1));
      }
    }
  }

  /** Two numbers with equal limbs above `i` compare as their limbs at `i`. */
  lemma {:induction false} ComparedAt(a: seq<Limb>, b: seq<Limb>, i: nat)
    requires |a| == |b| && i < |a| && a[i] < b[i] && a[i + 1..] == b[i + 1..]
    ensures Value(a) < Value(b)
  {
    if i > 0 {
      assert a[1..][i..] == a[i + 1..] && b[1..][i..] == b[i + 1..];
      ComparedAt(a[1..], b[1..], i - 1);
    } else {
      assert a[1..] == b[1..];
    }
  }

  // ---------------------------------------------------------------------------------------------
  // Shifts

  lemma {:induction false} Pow2Sum(m: nat, n: nat)
    ensures Pow2(m + n) == Pow2(m) * Pow2(n)
  {
    if m > 0 {
      Pow2Sum(m - 1, n);
      assert 2 * (Pow2(m - 1) * Pow2(n)) == (2 * Pow2(m - 1)) * Pow2(n);
    }
  }

  lemma Pow2Limb()
    ensures Pow2(32) == BASE
  {
    assert Pow2(8) == 256;
    Pow2Sum(8, 8);
    Pow2Sum(16, 16);
  }

  lemma {:induction false} SizeIsPow2(n: nat)
    ensures Size(n) == Pow2(32 * n)
  {
    if n > 0 {
      SizeIsPow2(n - 1);
      Pow2Limb();
      Pow2Sum(32, 32 * (n - 1));
    }
  }

  function Zeros(n: nat): (r: seq<Limb>)
    ensures |r| == n && forall i | 0 <= i < n :: r[i] == 0
  {
    seq(n, _ => 0)
  }

  lemma {:induction false} ZerosValue(n: nat)
    ensures Value(Zeros(n)) == 0
  {
    if n > 0 {
      ZerosValue(n - 1);
      assert Zeros(n)[1..] == Zeros(n - 1);
    }
  }

  /** A left shift: whole limbs, then a multiplication by a power of two. */
  function ShiftedLeft(a: seq<Limb>, shift: nat): (r: seq<Limb>)
    ensures |r| == |a|
  {
    var k := shift / 32;
    if k >= |a| then Zeros(|a|)
    else
      Pow2Bound(shift % 32);
      Zeros(k) + MulAddDigits(Zeros(|a| - k), a[..|a| - k], Pow2(shift % 32), 0)
  }

  lemma Pow2Bound(s: nat)
    requires s < 32
    ensures 2 * Pow2(s) <= BASE
  {
    Pow2Limb();
    Pow2Monotone(s + 1, 32);
  }

  lemma {:induction false} Pow2Monotone(m: nat, n: nat)
    requires m <= n
    ensures Pow2(m) <= Pow2(n)
  {
    if m < n {
      Pow2Monotone(m, n - 1);
    }
  }

  lemma {:induction false} SizeSum(m: nat, n: nat)
    ensures Size(m + n) == Size(m) * Size(n)
  {
    if m > 0 {
      SizeSum(m - 1, n);
      assert BASE * (Size(m - 1) * Size(n)) == (BASE * Size(m - 1)) * Size(n);
    }
  }

  lemma Pow2Split(shift: nat)
    ensures Pow2(shift) == Pow2(shift % 32) * Size(shift / 32)
  {
    SizeIsPow2(shift / 32);
    Pow2Sum(shift % 32, 32 * (shift / 32));
  }

  lemma ShiftedLeftValue(a: seq<Limb>, shift: nat)
    ensures Value(ShiftedLeft(a, shift)) == (Value(a) * Pow2(shift)) % Size(|a|)
  {
    hide *;
    var n, k := |a|, shift / 32;
    Pow2Split(shift);
    if k >= n {
      LeftLost(a, shift);
      SizeSum(n, k - n);
      ShiftedOut(Value(a), Pow2(shift % 32), Size(n), Size(k - n), Size(k), Pow2(shift));
    } else {
      LeftKept(a, shift);
      SizeSum(n - k, k);
      ShiftArithmetic(Value(a), Pow2(shift % 32), Size(n - k), Size(k), Size(n), Pow2(shift));
    }
  }

  lemma LeftLost(a: seq<Limb>, shift: nat)
    requires shift / 32 >= |a|
    ensures Value(ShiftedLeft(a, shift)) == 0
  {
    hide Value;
    ZerosValue(|a|);
  }

  lemma LeftKept(a: seq<Limb>, shift: nat)
    requires shift / 32 < |a|
    ensures var k := shift / 32;
            var m := Size(|a| - k);
            Value(ShiftedLeft(a, shift)) == ((Pow2(shift % 32) * (Value(a) % m)) % m) * Size(k)
  {
    hide Value, Size, Pow2, MulAddDigits;
    var n, k, s := |a|, shift / 32, Pow2(shift % 32);
    Pow2Bound(shift % 32);
    var low := a[..n - k];
    var m := MulAddDigits(Zeros(n - k), low, s, 0);
    MulAddDigitsValue(Zeros(n - k), low, s, 0);
    ZerosValue(n - k);
    ZerosValue(k);
    ValueConcat(Zeros(k), m);
    ValuePrefix(a, n - k);
  }

  lemma ShiftedOut(v: nat, s: nat, n: nat, more: nat, k: nat, p: nat)
    requires n > 0 && k == n * more && p == s * k
    ensures (v * p) % n == 0
  {
    assert v * p == v * (s * (n * more)) == (v * s * more) * n;
    MulIsZeroMod(v * s * more, n);
  }

  lemma ShiftArithmetic(v: nat, s: nat, m: nat, k: nat, n: nat, p: nat)
    requires m > 0 && k > 0 && n == m * k && p == s * k
    ensures ((s * (v % m)) % m) * k == (v * p) % n
  {
    MulMod(s, v, m);
    ModScale(s * v, m, k);
    assert s * v * k == v * (s * k);
  }

  /** One limb of a right shift by `s` bits: its own high bits and the low bits of the next one. */
  function ShiftRightLimb(low: Limb, high: Limb, s: nat): (r: Limb)
    requires s < 32
  {
    ShiftRightBound(low, high, s);
    low / Pow2(s) + (high % Pow2(s)) * Pow2(32 - s)
  }

  lemma Pow2Whole(s: nat)
    requires s <= 32
    ensures Pow2(s) * Pow2(32 - s) == BASE
  {
    Pow2Sum(s, 32 - s);
    Pow2Limb();
  }

  lemma ShiftRightBound(low: Limb, high: Limb, s: nat)
    requires s < 32
    ensures 0 <= low / Pow2(s) + (high % Pow2(s)) * Pow2(32 - s) < BASE
  {
    hide Pow2;
    Pow2Whole(s);
    RightBound(low, high, Pow2(s), Pow2(32 - s));
  }

  lemma RightBound(low: nat, high: nat, d: nat, e: nat)
    requires d > 0 && e > 0 && low < d * e
    ensures low / d < e && 0 <= (high % d) * e <= d * e - e
  {
    var q, m := low / d, high % d;
    Divided(low, d);
    Divided(high, d);
    if q >= e {
      MulLess(e - 1, q, d);
    }
    MulLess(m, d, e);
  }

  function ShiftRightBits(a: seq<Limb>, s: nat): (r: seq<Limb>)
    requires s < 32
    ensures |r| == |a|
  {
    if a == [] then []
    else [ShiftRightLimb(a[0], if |a| > 1 then a[1] else 0, s)] + ShiftRightBits(a[1..], s)
  }

  lemma LowBits(a: seq<Limb>, s: nat)
    requires s < 32 && a != []
    ensures Value(a) % Pow2(s) == a[0] % Pow2(s)
  {
    Pow2Whole(s);
    LowArithmetic(a[0], Value(a[1..]), Pow2(s), Pow2(32 - s));
  }

  lemma LowArithmetic(low: nat, v: nat, d: nat, e: nat)
    requires d > 0 && d * e == BASE
    ensures (low + BASE * v) % d == low % d
  {
    assert BASE * v == (d * e) * v == (e * v) * d;
    SameMod(low + BASE * v, low, d, e * v);
  }

  lemma {:induction false} ShiftRightBitsValue(a: seq<Limb>, s: nat)
    requires s < 32
    ensures Value(ShiftRightBits(a, s)) == Value(a) / Pow2(s)
  {
    if a == [] {
      Quotient(0, Pow2(s), 0, 0);
    } else {
      ShiftRightBitsValue(a[1..], s);
      var high := if |a| > 1 then a[1] else 0;
      if |a| > 1 {
        LowBits(a[1..], s);
      }
      var r := ShiftRightBits(a, s);
      assert r[1..] == ShiftRightBits(a[1..], s);
      Pow2Whole(s);
      RightArithmetic(a[0], Value(a[1..]), high, Pow2(s), Pow2(32 - s));
    }
  }

  lemma RightArithmetic(low: nat, v: nat, high: nat, d: nat, e: nat)
    requires d > 0 && d * e == BASE && v % d == high % d
    ensures low / d + (high % d) * e + BASE * (v / d) == (low + BASE * v) / d
  {
    Divided(low, d);
    Divided(v, d);
    var q, m, w := v / d, v % d, low / d;
    assert BASE * v == (d * e) * (q * d + m) == (BASE * q + m * e) * d;
    assert low + BASE * v == (w + m * e + BASE * q) * d + low % d;
    Quotient(low + BASE * v, d, w + m * e + BASE * q, low % d);
  }

  function ShiftedRight(a: seq<Limb>, shift: nat): (r: seq<Limb>)
    ensures |r| == |a|
  {
    var k := shift / 32;
    if k >= |a| then Zeros(|a|) else ShiftRightBits(a[k..], shift % 32) + Zeros(k)
  }

  lemma {:induction false} ShiftedRightValue(a: seq<Limb>, shift: nat)
    ensures Value(ShiftedRight(a, shift)) == Value(a) / Pow2(shift)
  {
    hide Value, Size, Pow2, ShiftRightBits;
    var n, k, s := |a|, shift / 32, shift % 32;
    Pow2Split(shift);
    if k >= n {
      ZerosValue(n);
      ValueBound(a);
      SizeSum(n, k - n);
      RightOut(Value(a), Size(n), Size(k - n), Size(k), Pow2(s), Pow2(shift));
    } else {
      var high := ShiftRightBits(a[k..], s);
      ShiftRightBitsValue(a[k..], s);
      ValuePrefix(a, k);
      ValueConcat(high, Zeros(k));
      ZerosValue(k);
      DivideTwice(Value(a), Size(k), Pow2(s));
    }
  }

  lemma RightOut(v: nat, n: nat, more: nat, k: nat, d: nat, p: nat)
    requires v < n && more > 0 && d > 0 && k == n * more && p == d * k
    ensures p > 0 && v / p == 0
  {
    assert n * more >= n by {
      assert n * (more - 1) >= 0;
    }
    assert d * k >= k by {
      assert (d - 1) * k >= 0;
    }
    Quotient(v, p, 0, v);
  }

  // ---------------------------------------------------------------------------------------------
  // Bits

  /** Bitwise or. */
  function Or(x: nat, y: nat): nat {
    if x == 0 && y == 0 then 0
    else (if x % 2 == 1 || y % 2 == 1 then 1 else 0) + 2 * Or(x / 2, y / 2)
  }

  /** Numbers without a common one bit: one fits under the other's trailing zeros. */
  lemma {:induction false} OrDisjoint(x: nat, y: nat, s: nat)
    requires x < Pow2(s) && y % Pow2(s) == 0
    ensures Or(x, y) == x + y && Or(y, x) == x + y
    decreases x + y
  {
    if x + y > 0 {
      if s == 0 {
        OrDisjoint(x, y / 2, 0);
      } else {
        HalfOfMultiple(y, Pow2(s - 1));
        OrDisjoint(x / 2, y / 2, s - 1);
      }
    }
  }

  lemma HalfOfMultiple(y: nat, m: nat)
    requires m > 0 && y % (2 * m) == 0
    ensures y % 2 == 0 && (y / 2) % m == 0
  {
    var q := y / (2 * m);
    Divided(y, 2 * m);
    assert y == q * (2 * m) == 2 * (q * m);
    MulIsZeroMod(q, m);
  }

  /** The part of a limb that a left shift by `s` pushes into the next limb, and what stays. */
  function Pushed(x: Limb, s: nat): nat
    requires s <= 32
  {
    QuotientNonNegative(x, Pow2(32 - s));
    x / Pow2(32 - s)
  }

  function Stays(x: Limb, s: nat): (r: Limb) {
    (x * Pow2(s)) % BASE
  }

  lemma ShiftParts(x: Limb, s: nat)
    requires s < 32
    ensures x * Pow2(s) == BASE * Pushed(x, s) + Stays(x, s)
    ensures Pushed(x, s) < Pow2(s) && Stays(x, s) % Pow2(s) == 0 && Stays(x, s) <= BASE - Pow2(s)
  {
    Pow2Whole(s);
    PartsArithmetic(x, Pow2(s), Pow2(32 - s));
  }

  lemma PartsArithmetic(x: nat, d: nat, e: nat)
    requires d > 0 && e > 0 && d * e == BASE && x < BASE
    ensures x * d == BASE * (x / e) + (x * d) % BASE
    ensures x / e < d && ((x * d) % BASE) % d == 0 && (x * d) % BASE <= BASE - d
  {
    Divided(x, e);
    ModScale(x, e, d);
    assert e * d == BASE;
    var q, r := x / e, x % e;
    assert x * d == (q * e + r) * d == q * (e * d) + r * d;
    MulIsZeroMod(r, d);
    MulLess(r, e, d);
    if q >= d {
      MulLess(d - 1, q, e);
    }
  }

  /** The limbs of a left shift by fewer bits than a limb has. */
  lemma {:induction false} ShiftLeftAt(b: seq<Limb>, s: nat, carry: nat, m: Limb, i: nat)
    requires s < 32 && m == Pow2(s) && i < |b| && carry < Pow2(s)
    ensures MulAddDigits(Zeros(|b|), b, m, carry)[i] == (if i == 0 then carry else Pushed(b[i - 1], s)) + Stays(b[i], s)
    decreases i
  {
    ShiftParts(b[0], s);
    var n := carry + m * b[0];
    Quotient(n, BASE, Pushed(b[0], s), carry + Stays(b[0], s));
    if i > 0 {
      assert Zeros(|b|)[1..] == Zeros(|b| - 1);
      ShiftLeftAt(b[1..], s, Pushed(b[0], s), m, i - 1);
    }
  }

  lemma {:induction false} ShiftRightAt(a: seq<Limb>, s: nat, i: nat)
    requires s < 32 && i < |a|
    ensures ShiftRightBits(a, s)[i] == ShiftRightLimb(a[i], if i + 1 < |a| then a[i + 1] else 0, s)
  {
    if i > 0 {
      ShiftRightAt(a[1..], s, i - 1);
    }
  }

  /** What a right shift by `s` bits pushes into the limb below. */
  lemma ShiftDown(x: Limb, s: nat)
    requires s < 32
    ensures (x * Pow2(32 - s)) % BASE == (x % Pow2(s)) * Pow2(32 - s)
    ensures ((x % Pow2(s)) * Pow2(32 - s)) % Pow2(32 - s) == 0
    ensures x / Pow2(s) < Pow2(32 - s)
  {
    Pow2Whole(s);
    ModScale(x, Pow2(s), Pow2(32 - s));
    MulIsZeroMod(x % Pow2(s), Pow2(32 - s));
    RightBound(x, x, Pow2(s), Pow2(32 - s));
  }
}
