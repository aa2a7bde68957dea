/**
 * Unsigned integers of a fixed number of 32-bit limbs, updated in place, for every width.
 */
module Arith {
  import opened Arithmetic
  import opened Limbs

  method Add(a: array<Limb>, b: array<Limb>)
    requires a.Length == b.Length
    modifies a
    ensures Value(a[..]) == (old(Value(a[..])) + old(Value(b[..]))) % Size(a.Length)
  {
    hide Value, Size;
    ghost var x, y := a[..], b[..];
    var carry: nat := 0;
    var i := 0;
    while i < a.Length
      invariant 0 <= i <= a.Length && carry < BASE
      invariant a[i..] == x[i..] && b[i..] == y[i..]
      invariant a[..i] + AddDigits(x[i..], y[i..], carry) == AddDigits(x, y, 0)
    {
      assert x[i] == a[i] && y[i] == b[i];
      assert x[i..][1..] == x[i + 1..] && y[i..][1..] == y[i + 1..];
      var n := carry + a[i] + b[i];
      assert n < 0x1_0000_0000_0000_0000;
      ghost var before := a[..i];
      a[i] := n % BASE;
      carry := n / BASE;
      assert a[..i + 1] == before + [n % BASE];
      i := i + 1;
    }
    assert a[..] == a[..i] == a[..i] + AddDigits(x[i..], y[i..], carry);
    AddDigitsValue(x, y, 0);
  }

  method MulSmall(a: array<Limb>, m: Limb)
    modifies a
    ensures Value(a[..]) == (old(Value(a[..])) * m) % Size(a.Length)
  {
    hide Value, Size, MulAddDigits, Zeros;
    ghost var x, zeros := a[..], Zeros(a.Length);
    var carry: nat := 0;
    var i := 0;
    while i < a.Length
      invariant 0 <= i <= a.Length && carry < BASE
      invariant a[i..] == x[i..]
      invariant a[..i] + MulAddDigits(zeros[i..], x[i..], m, carry) == MulAddDigits(zeros, x, m, 0)
    {
      assert x[i] == a[i];
      RowFits(m, a[i], carry, 0);
      ghost var before := a[..i];
      DigitStep(before, zeros, x, m, carry, i);
      var n := carry + m * a[i];
      a[i] := n % BASE;
      carry := n / BASE;
      assert a[..i + 1] == before + [n % BASE];
      i := i + 1;
    }
    assert a[..] == a[..i] == a[..i] + MulAddDigits(zeros[i..], x[i..], m, carry);
    MulSmallValue(x, m);
  }

  /** The next digit of a row, put behind those before it. */
  lemma DigitStep(before: seq<Limb>, acc: seq<Limb>, b: seq<Limb>, m: Limb, carry: nat, i: nat)
    requires |acc| == |b| && i < |acc|
    ensures var n := carry + acc[i] + m * b[i];
            n >= 0 && before + MulAddDigits(acc[i..], b[i..], m, carry) ==
                      before + [n % BASE] + MulAddDigits(acc[i + 1..], b[i + 1..], m, n / BASE)
  {
    assert acc[i..][1..] == acc[i + 1..] && b[i..][1..] == b[i + 1..];
    MulBound(m, b[i]);
    var n := carry + acc[i] + m * b[i];
    var rest := MulAddDigits(acc[i + 1..], b[i + 1..], m, n / BASE);
    assert MulAddDigits(acc[i..], b[i..], m, carry) == [n % BASE] + rest;
    hide MulAddDigits;
    assert before + ([n % BASE] + rest) == before + [n % BASE] + rest;
  }

  lemma MulSmallValue(x: seq<Limb>, m: Limb)
    ensures Value(MulAddDigits(Zeros(|x|), x, m, 0)) == (Value(x) * m) % Size(|x|)
  {
    MulAddDigitsValue(Zeros(|x|), x, m, 0);
    ZerosValue(|x|);
    hide Value, Size, MulAddDigits, Zeros;
    assert Value(x) * m == m * Value(x);
  }

  /** One step of a row fits in 64 bits and carries less than a limb. */
  lemma RowFits(m: Limb, b: Limb, carry: nat, acc: Limb)
    requires carry < BASE
    ensures carry + acc + m * b < 0x1_0000_0000_0000_0000 && (carry + acc + m * b) / BASE < BASE
  {
    MulBound(m, b);
  }

  /** What a row of limbs, multiplied by `m` and added to `acc`, carries into position `i`. */
  function CarryInto(acc: seq<Limb>, b: seq<Limb>, m: Limb, carry: nat, i: nat): nat
    requires |acc| == |b| && i <= |b|
  {
    if i == 0 then carry else (CarryInto(acc, b, m, carry, i - 1) + acc[i - 1] + m * b[i - 1]) / BASE
  }

  /** Every intermediate number of a row fits in 64 bits, and its remainder is the limb of the result. */
  lemma {:induction false} RowWidths(acc: seq<Limb>, b: seq<Limb>, m: Limb, carry: nat, i: nat)
    requires |acc| == |b| && i < |b| && carry < BASE
    ensures var n := CarryInto(acc, b, m, carry, i) + acc[i] + m * b[i];
            n < 0x1_0000_0000_0000_0000 && n / BASE < BASE && MulAddDigits(acc, b, m, carry)[i] == n % BASE
    decreases i
  {
    if i > 0 {
      CarryAfter(acc, b, m, carry, i);
      RowFits(m, b[0], carry, acc[0]);
      RowWidths(acc[1..], b[1..], m, (carry + acc[0] + m * b[0]) / BASE, i - 1);
    } else {
      RowFits(m, b[i], carry, acc[i]);
    }
  }

  lemma {:induction false} CarryAfter(acc: seq<Limb>, b: seq<Limb>, m: Limb, carry: nat, i: nat)
    requires |acc| == |b| && 0 < i <= |b|
    ensures (carry + acc[0] + m * b[0]) / BASE >= 0
    ensures CarryInto(acc, b, m, carry, i) == CarryInto(acc[1..], b[1..], m, (carry + acc[0] + m * b[0]) / BASE, i - 1)
  {
    if i > 1 {
      CarryAfter(acc, b, m, carry, i - 1);
    }
  }

  lemma MulBound(m: nat, b: nat)
    requires m < BASE && b < BASE
    ensures 0 <= m * b <= (BASE - 1) * (BASE - 1)
  {
    MulLess(m, BASE, b);
    if m == 0 || b == 0 {
    } else {
      MulLess(0, m, b);
    }
  }

  /** One row of a long multiplication: add `m` times `b` into `acc` from limb `j` on. */
  method MulRow(acc: array<Limb>, j: nat, b: array<Limb>, m: Limb)
    requires acc.Length == b.Length && acc != b && j < acc.Length
    modifies acc
    ensures acc[..j] == old(acc[..j])
    ensures acc[j..] == MulAddDigits(old(acc[j..]), b[..acc.Length - j], m, 0)
  {
    hide MulAddDigits;
    ghost var x, y := acc[j..], b[..acc.Length - j];
    var carry: nat := 0;
    var i := 0;
    while i + j < acc.Length
      invariant 0 <= i <= acc.Length - j && carry < BASE
      invariant acc[..j] == old(acc[..j]) && acc[j + i..] == x[i..]
      invariant acc[j..j + i] + MulAddDigits(x[i..], y[i..], m, carry) == MulAddDigits(x, y, m, 0)
    {
      assert x[i] == acc[i + j] && y[i] == b[i];
      RowFits(m, b[i], carry, acc[i + j]);
      ghost var before := acc[j..j + i];
      DigitStep(before, x, y, m, carry, i);
      var n := carry + acc[i + j] + m * b[i];
      acc[i + j] := n % BASE;
      carry := n / BASE;
      assert acc[j..j + i + 1] == before + [n % BASE];
      i := i + 1;
    }
    assert acc[j..] == acc[j..j + i] == acc[j..j + i] + MulAddDigits(x[i..], y[i..], m, carry);
  }

  method Mul(a: array<Limb>, b: array<Limb>)
    requires a.Length == b.Length
    modifies a
    ensures Value(a[..]) == (old(Value(a[..])) * old(Value(b[..]))) % Size(a.Length)
  {
    hide Value, Size, MulRows, MulAddDigits, Zeros;
    ghost var x, y, n := a[..], b[..], a.Length;
    var acc := new Limb[a.Length](_ => 0);
    assert acc[..] == Zeros(n);
    var j := 0;
    assert acc[0..] == acc[..] && x[0..] == x && y[..n] == y;
    while j < a.Length
      invariant 0 <= j <= n && a[..] == x && b[..] == y
      invariant acc[..j] + MulRows(acc[j..], x[j..], y[..n - j]) == MulRows(Zeros(n), x, y)
    {
      ghost var before, rest := acc[..j], acc[j..];
      MulRow(acc, j, b, a[j]);
      RowsStep(before, rest, acc[..], x, y, j);
      j := j + 1;
    }
    assert acc[..] == acc[..j] == acc[..j] + MulRows(acc[j..], x[j..], y[..n - j]);
    Copy(acc, a);
    MulValue(x, y);
  }

  /** A row moves one limb of the product into place. */
  lemma RowsStep(before: seq<Limb>, rest: seq<Limb>, acc: seq<Limb>, x: seq<Limb>, y: seq<Limb>, j: nat)
    requires |acc| == |x| == |y| && j < |x| && acc[..j] == before && |before| == j && |rest| == |x| - j
    requires acc[j..] == MulAddDigits(rest, y[..|x| - j], x[j], 0)
    ensures acc[..j + 1] + MulRows(acc[j + 1..], x[j + 1..], y[..|x| - j - 1]) == before + MulRows(rest, x[j..], y[..|x| - j])
  {
    hide MulAddDigits, MulRows;
    var row, n := acc[j..], |x| - j;
    assert x[j..][0] == x[j] && x[j..][1..] == x[j + 1..];
    assert y[..n][..n - 1] == y[..n - 1];
    RowsUnfold(rest, x[j..], y[..n]);
    assert row[1..] == acc[j + 1..];
    var more := MulRows(row[1..], x[j + 1..], y[..n - 1]);
    TakeOneMore(acc, j);
    Associate(before, [row[0]], more);
  }

  lemma TakeOneMore(s: seq<Limb>, j: nat)
    requires j < |s|
    ensures s[..j + 1] == s[..j] + [s[j..][0]]
  {
  }

  lemma Associate(a: seq<Limb>, b: seq<Limb>, c: seq<Limb>)
    ensures a + b + c == a + (b + c)
  {
  }

  lemma RowsUnfold(acc: seq<Limb>, a: seq<Limb>, b: seq<Limb>)
    requires |acc| == |a| == |b| > 0
    ensures var row := MulAddDigits(acc, b, a[0], 0);
            MulRows(acc, a, b) == [row[0]] + MulRows(row[1..], a[1..], b[..|b| - 1])
  {
  }

  lemma MulValue(x: seq<Limb>, y: seq<Limb>)
    requires |x| == |y|
    ensures Value(MulRows(Zeros(|x|), x, y)) == (Value(x) * Value(y)) % Size(|x|)
  {
    hide Value, Size, MulRows, Zeros;
    MulRowsValue(Zeros(|x|), x, y);
    ZerosValue(|x|);
  }

  method Copy(from: array<Limb>, to: array<Limb>)
    requires from.Length == to.Length && from != to
    modifies to
    ensures to[..] == from[..]
  {
    forall i | 0 <= i < to.Length {
      to[i] := from[i];
    }
  }

  /** The bitwise complement, as a new number. */
  method Not(a: array<Limb>) returns (r: array<Limb>)
    ensures fresh(r) && r.Length == a.Length && Value(r[..]) == Size(a.Length) - 1 - Value(a[..])
  {
    hide Value, Size, Complement;
    r := new Limb[a.Length](_ => 0);
    var i := 0;
    while i < a.Length
      invariant 0 <= i <= a.Length
      invariant forall k | 0 <= k < i :: r[k] == BASE - 1 - a[k]
    {
      r[i] := BASE - 1 - a[i];
      i := i + 1;
    }
    ComplementAt(a[..], r[..]);
    ComplementValue(a[..]);
  }

  lemma {:induction false} ComplementAt(s: seq<Limb>, r: seq<Limb>)
    requires |r| == |s| && forall k | 0 <= k < |s| :: r[k] == BASE - 1 - s[k]
    ensures r == Complement(s)
  {
    if s != [] {
      ComplementAt(s[1..], r[1..]);
    }
  }

  method Increment(a: array<Limb>)
    modifies a
    ensures a[..] == Incremented(old(a[..]))
  {
    hide Incremented;
    ghost var x := a[..];
    var i := 0;
    while i < a.Length
      invariant 0 <= i <= a.Length && a[i..] == x[i..]
      invariant a[..i] + Incremented(x[i..]) == Incremented(x)
    {
      ghost var before := a[..i];
      IncrementStep(before, x, i);
      assert x[i] == a[i];
      a[i] := (a[i] + 1) % BASE;
      assert a[..i + 1] == before + [a[i]];
      if a[i] != 0 {
        assert a[..] == a[..i + 1] + x[i + 1..];
        return;
      }
      i := i + 1;
    }
    assert a[..] == a[..i] == a[..i] + Incremented(x[i..]);
  }

  lemma IncrementStep(before: seq<Limb>, x: seq<Limb>, i: nat)
    requires i < |x|
    ensures var v := (x[i] + 1) % BASE;
            before + Incremented(x[i..]) == before + [v] + (if v != 0 then x[i + 1..] else Incremented(x[i + 1..]))
  {
    var v := (x[i] + 1) % BASE;
    assert x[i..][0] == x[i] && x[i..][1..] == x[i + 1..];
    var rest := if v != 0 then x[i + 1..] else Incremented(x[i + 1..]);
    assert Incremented(x[i..]) == [v] + rest;
    Associate(before, [v], rest);
  }

  /** The two's complement, as a new number. */
  method Negate(a: array<Limb>) returns (r: array<Limb>)
    ensures fresh(r) && r.Length == a.Length && Value(r[..]) == (Size(a.Length) - Value(a[..])) % Size(a.Length)
  {
    hide Value, Size, Incremented;
    r := Not(a);
    IncrementedValue(r[..]);
    Increment(r);
  }

  method Subtract(a: array<Limb>, b: array<Limb>)
    requires a.Length == b.Length
    modifies a
    ensures Value(a[..]) == (old(Value(a[..])) - old(Value(b[..]))) % Size(a.Length)
  {
    hide *;
    ghost var x, y := Value(a[..]), Value(b[..]);
    var minus := Negate(b);
    assert a[..] == old(a[..]);
    Add(a, minus);
    SubtractArithmetic(x, y, Size(a.Length));
  }

  lemma SubtractArithmetic(x: nat, y: nat, m: nat)
    requires m > 0
    ensures (x + (m - y) % m) % m == (x - y) % m
  {
    Divided(m - y, m);
    var q := (m - y) / m;
    assert (1 - q) * m == m - q * m;
    SameMod(x + (m - y) % m, x - y, m, 1 - q);
  }

  /** The order of the numbers: -1, 0 or 1. */
  method CompareTo(a: array<Limb>, b: array<Limb>) returns (r: int)
    requires a.Length == b.Length
    ensures r in {-1, 0, 1}
    ensures (r < 0 <==> Value(a[..]) < Value(b[..])) && (r > 0 <==> Value(a[..]) > Value(b[..]))
  {
    hide Value;
    var i := a.Length;
    while i > 0
      invariant 0 <= i <= a.Length && a[i..] == b[i..]
    {
      i := i - 1;
      assert a[i..] == [a[i]] + a[i + 1..] && b[i..] == [b[i]] + b[i + 1..];
      if a[i] < b[i] {
        ComparedAt(a[..], b[..], i);
        return -1;
      }
      if a[i] > b[i] {
        ComparedAt(b[..], a[..], i);
        return 1;
      }
    }
    assert a[..] == b[..];
    r := 0;
  }

  // ---------------------------------------------------------------------------------------------
  // Shifts

  method ShiftLeft(a: array<Limb>, shift: nat)
    modifies a
    ensures Value(a[..]) == (old(Value(a[..])) * Pow2(shift)) % Size(a.Length)
  {
    hide Value, Size, Pow2, ShiftedLeft, Pushed, Stays, Or;
    ghost var x, target := a[..], ShiftedLeft(a[..], shift);
    var from := new Limb[a.Length](i requires 0 <= i < a.Length reads a => a[i]);
    assert from[..] == x;
    forall i | 0 <= i < a.Length {
      a[i] := 0;
    }
    var n, k, s := a.Length, shift / 32, shift % 32;
    var i := 0;
    LeftStart(x, shift, a[..]);
    while i < n
      invariant 0 <= i <= n && from[..] == x && a.Length == n
      invariant LeftDone(x, shift, a[..], i)
    {
      LeftStep(x, shift, a[..], i);
      if i + k + 1 < n && s != 0 {
        a[i + k + 1] := Or(a[i + k + 1], from[i] / Pow2(32 - s));
      }
      if i + k < n {
        a[i + k] := Or(a[i + k], (from[i] * Pow2(s)) % BASE);
      }
      i := i + 1;
    }
    LeftEnd(x, shift, a[..]);
    ShiftedLeftValue(x, shift);
  }

  /** Limbs `0..i` have been shifted: the limbs they fill are done, the next one has what was pushed
      into it, the rest are zero. */
  predicate LeftDone(x: seq<Limb>, shift: nat, a: seq<Limb>, i: nat)
    requires |a| == |x| && i <= |x|
  {
    forall t | 0 <= t < |a| :: a[t] == LeftLimb(x, shift, i, t)
  }

  function LeftLimb(x: seq<Limb>, shift: nat, i: nat, t: nat): int
    requires i <= |x| && t < |x|
  {
    var k, s := shift / 32, shift % 32;
    if t < i + k then ShiftedLeft(x, shift)[t]
    else if t == i + k && i > 0 then Pushed(x[i - 1], s)
    else 0
  }

  /** The limb `k + i` of a left shift. */
  lemma LeftTarget(x: seq<Limb>, shift: nat, t: nat)
    requires t < |x|
    ensures var k, s, r := shift / 32, shift % 32, ShiftedLeft(x, shift)[t];
            && (t < k ==> r == 0)
            && (t == k ==> r == Stays(x[0], s))
            && (t > k ==> r == Pushed(x[t - k - 1], s) + Stays(x[t - k], s))
  {
    var n, k, s := |x|, shift / 32, shift % 32;
    if t >= k {
      Pow2Bound(s);
      ShiftLeftAt(x[..n - k], s, 0, Pow2(s), t - k);
    }
  }

  lemma LeftStart(x: seq<Limb>, shift: nat, a: seq<Limb>)
    requires |a| == |x| && forall t | 0 <= t < |a| :: a[t] == 0
    ensures LeftDone(x, shift, a, 0)
  {
    hide ShiftedLeft, Pushed, Stays;
    forall t | 0 <= t < |a|
      ensures LeftLimb(x, shift, 0, t) == 0
    {
      LeftTarget(x, shift, t);
    }
  }

  lemma LeftEnd(x: seq<Limb>, shift: nat, a: seq<Limb>)
    requires |a| == |x| && LeftDone(x, shift, a, |x|)
    ensures a == ShiftedLeft(x, shift)
  {
    hide ShiftedLeft;
  }

  /** What the two assignments for limb `i` write. */
  lemma LeftStep(x: seq<Limb>, shift: nat, a: seq<Limb>, i: nat)
    requires |a| == |x| && i < |x| && LeftDone(x, shift, a, i)
    ensures var n, k, s := |x|, shift / 32, shift % 32;
            var high, low := x[i] / Pow2(32 - s), (x[i] * Pow2(s)) % BASE;
            && high >= 0
            && (i + k + 1 < n && s != 0 ==> 0 <= Or(a[i + k + 1], high) == LeftLimb(x, shift, i + 1, i + k + 1) < BASE)
            && (i + k + 1 < n && s == 0 ==> a[i + k + 1] == LeftLimb(x, shift, i + 1, i + k + 1))
            && (i + k < n ==> 0 <= Or(a[i + k], low) == LeftLimb(x, shift, i + 1, i + k) < BASE)
            && (forall t | 0 <= t < n && t != i + k && t != i + k + 1 :: a[t] == LeftLimb(x, shift, i + 1, t))
  {
    var n, k, s := |x|, shift / 32, shift % 32;
    ShiftParts(x[i], s);
    if i > 0 {
      ShiftParts(x[i - 1], s);
    }
    if i + k < n {
      LeftTarget(x, shift, i + k);
      Pow2Positive(s);
      OrDisjoint(a[i + k], Stays(x[i], s), s);
    }
    if i + k + 1 < n {
      NothingPushed(x[i]);
      ZeroDivides(Pow2(s));
      OrDisjoint(Pushed(x[i], s), a[i + k + 1], s);
      Pow2Bound(s);
    }
    hide ShiftedLeft, Pushed, Stays, Or, Pow2;
  }

  lemma Pow2Positive(s: nat)
    ensures Pow2(s) >= 1
  {
  }

  lemma ZeroDivides(m: nat)
    requires m > 0
    ensures 0 % m == 0
  {
  }

  /** A shift by whole limbs pushes nothing over. */
  lemma NothingPushed(x: Limb)
    ensures Pushed(x, 0) == 0
  {
    Pow2Limb();
  }

  method ShiftRight(a: array<Limb>, shift: nat)
    modifies a
    ensures Value(a[..]) == old(Value(a[..])) / Pow2(shift)
  {
    hide Value, Size, Pow2, ShiftedRight, Or, RightLimb;
    ghost var x := a[..];
    var from := new Limb[a.Length](i requires 0 <= i < a.Length reads a => a[i]);
    assert from[..] == x;
    forall i | 0 <= i < a.Length {
      a[i] := 0;
    }
    var n, k, s := a.Length, shift / 32, shift % 32;
    var i := 0;
    RightStart(x, shift, a[..]);
    while i < n
      invariant 0 <= i <= n && from[..] == x && a.Length == n
      invariant RightDone(x, shift, a[..], i)
    {
      RightStep(x, shift, a[..], i);
      if i - k - 1 >= 0 && s != 0 {
        a[i - k - 1] := Or(a[i - k - 1], (from[i] * Pow2(32 - s)) % BASE);
      }
      if i - k >= 0 {
        a[i - k] := Or(a[i - k], from[i] / Pow2(s));
      }
      i := i + 1;
    }
    RightEnd(x, shift, a[..]);
    ShiftedRightValue(x, shift);
  }

  /** Limbs `0..i` have been shifted: the limbs they complete are done, the next one lacks what the
      limb above pushes down, the rest are zero. */
  predicate RightDone(x: seq<Limb>, shift: nat, a: seq<Limb>, i: nat)
    requires |a| == |x| && i <= |x|
  {
    forall t | 0 <= t < |a| :: a[t] == RightLimb(x, shift, i, t)
  }

  function RightLimb(x: seq<Limb>, shift: nat, i: nat, t: nat): int
    requires i <= |x| && t < |x|
  {
    var k, s := shift / 32, shift % 32;
    if t + k + 1 < i then ShiftedRight(x, shift)[t]
    else if t + k + 1 == i then x[t + k] / Pow2(s)
    else 0
  }

  lemma RightTarget(x: seq<Limb>, shift: nat, t: nat)
    requires t < |x|
    ensures var k, s, r := shift / 32, shift % 32, ShiftedRight(x, shift)[t];
            && (t + k >= |x| ==> r == 0)
            && (t + k + 1 < |x| ==> r == x[t + k] / Pow2(s) + (x[t + k + 1] % Pow2(s)) * Pow2(32 - s))
            && (t + k + 1 == |x| ==> r == x[t + k] / Pow2(s))
  {
    var n, k, s := |x|, shift / 32, shift % 32;
    if t + k < n {
      ShiftRightAt(x[k..], s, t);
      ZeroDivides(Pow2(s));
      hide ShiftRightBits;
    }
  }

  lemma RightStart(x: seq<Limb>, shift: nat, a: seq<Limb>)
    requires |a| == |x| && forall t | 0 <= t < |a| :: a[t] == 0
    ensures RightDone(x, shift, a, 0)
  {
  }

  lemma RightEnd(x: seq<Limb>, shift: nat, a: seq<Limb>)
    requires |a| == |x| && RightDone(x, shift, a, |x|)
    ensures a == ShiftedRight(x, shift)
  {
    hide ShiftedRight;
    forall t | 0 <= t < |a|
      ensures a[t] == ShiftedRight(x, shift)[t]
    {
      RightTarget(x, shift, t);
    }
  }

  lemma RightStep(x: seq<Limb>, shift: nat, a: seq<Limb>, i: nat)
    requires |a| == |x| && i < |x| && RightDone(x, shift, a, i)
    ensures var n, k, s := |x|, shift / 32, shift % 32;
            var high, low := (x[i] * Pow2(32 - s)) % BASE, x[i] / Pow2(s);
            && low >= 0
            && (i - k - 1 >= 0 && s != 0 ==> 0 <= Or(a[i - k - 1], high) == RightLimb(x, shift, i + 1, i - k - 1) < BASE)
            && (i - k - 1 >= 0 && s == 0 ==> a[i - k - 1] == RightLimb(x, shift, i + 1, i - k - 1))
            && (i - k >= 0 ==> 0 <= Or(a[i - k], low) == RightLimb(x, shift, i + 1, i - k) < BASE)
            && (forall t | 0 <= t < n && t != i - k && t != i - k - 1 :: a[t] == RightLimb(x, shift, i + 1, t))
  {
    hide *;
    RightHigh(x, shift, a, i);
    RightLow(x, shift, a, i);
    RightRest(x, shift, a, i);
  }

  /** The limb below gets what is pushed down. */
  lemma RightHigh(x: seq<Limb>, shift: nat, a: seq<Limb>, i: nat)
    requires |a| == |x| && i < |x| && RightDone(x, shift, a, i)
    ensures var t, s := i - shift / 32 - 1, shift % 32;
            var high := (x[i] * Pow2(32 - s)) % BASE;
            && (t >= 0 && s != 0 ==> 0 <= Or(a[t], high) == RightLimb(x, shift, i + 1, t) < BASE)
            && (t >= 0 && s == 0 ==> a[t] == RightLimb(x, shift, i + 1, t))
  {
    hide ShiftedRight, Or, Pow2;
    var t, s := i - shift / 32 - 1, shift % 32;
    if t >= 0 {
      RightTarget(x, shift, t);
      ShiftDown(x[i - 1], s);
      ShiftDown(x[i], s);
      OrDisjoint(a[t], (x[i] * Pow2(32 - s)) % BASE, 32 - s);
      if s == 0 {
        DownNothing(x[i]);
      }
    }
  }

  /** The limb itself is zero so far and gets what stays. */
  lemma RightLow(x: seq<Limb>, shift: nat, a: seq<Limb>, i: nat)
    requires |a| == |x| && i < |x| && RightDone(x, shift, a, i)
    ensures var t, s := i - shift / 32, shift % 32;
            var low := x[i] / Pow2(s);
            low >= 0 && (t >= 0 ==> 0 <= Or(a[t], low) == RightLimb(x, shift, i + 1, t) < BASE)
  {
    hide ShiftedRight, Or, Pow2;
    var t, s := i - shift / 32, shift % 32;
    QuotientNonNegative(x[i], Pow2(s));
    if t >= 0 {
      ShiftDown(x[i], s);
      ZeroDivides(Pow2(32 - s));
      OrDisjoint(x[i] / Pow2(s), a[t], 32 - s);
      Pow2Fits(s);
    }
  }

  lemma RightRest(x: seq<Limb>, shift: nat, a: seq<Limb>, i: nat)
    requires |a| == |x| && i < |x| && RightDone(x, shift, a, i)
    ensures forall t | 0 <= t < |x| && t != i - shift / 32 && t != i - shift / 32 - 1 :: a[t] == RightLimb(x, shift, i + 1, t)
  {
    hide ShiftedRight, Pow2;
  }

  lemma DownNothing(x: Limb)
    ensures (x % Pow2(0)) * Pow2(32) == 0
  {
  }

  lemma Pow2Fits(s: nat)
    requires s < 32
    ensures Pow2(32 - s) <= BASE
  {
    Pow2Limb();
    Pow2Monotone(32 - s, 32);
  }

  // ---------------------------------------------------------------------------------------------
  // Bits and division

  /** `r` is the position of the highest one bit of `v`, plus one. */
  predicate IsBits(v: nat, r: nat) {
    if v == 0 then r == 0 else r > 0 && Pow2(r - 1) <= v < Pow2(r)
  }

  method Bits(a: array<Limb>) returns (r: nat)
    ensures IsBits(Value(a[..]), r) && r <= 32 * a.Length
  {
    hide Value, Size, Pow2, IsBits;
    var pos := a.Length;
    while pos > 0
      invariant 0 <= pos <= a.Length && forall i | pos <= i < a.Length :: a[i] == 0
    {
      pos := pos - 1;
      if a[pos] != 0 {
        var nbits := 31;
        LimbBelow(a[pos]);
        while nbits > 0
          invariant 0 <= nbits <= 31 && a[pos] < Pow2(nbits + 1)
        {
          BitTest(a[pos], nbits);
          if (a[pos] / Pow2(nbits)) % 2 == 1 {
            HighestBit(a[..], pos, nbits);
            return 32 * pos + nbits + 1;
          }
          nbits := nbits - 1;
        }
        Pow2Small();
        HighestBit(a[..], pos, 0);
        return 32 * pos + 1;
      }
    }
    AllZero(a[..]);
    r := 0;
  }

  lemma LimbBelow(x: Limb)
    ensures x < Pow2(32)
  {
    Pow2Limb();
  }

  lemma Pow2Small()
    ensures Pow2(0) == 1 && Pow2(1) == 2
  {
  }

  /** The top bit of a number below twice a power of two says whether it reaches that power. */
  lemma BitTest(x: nat, n: nat)
    requires x < Pow2(n + 1)
    ensures (x / Pow2(n)) % 2 == 1 <==> x >= Pow2(n)
  {
    var p := Pow2(n);
    if x >= p {
      Quotient(x, p, 1, x - p);
    } else {
      Quotient(x, p, 0, x);
    }
  }

  lemma AllZero(s: seq<Limb>)
    requires forall i | 0 <= i < |s| :: s[i] == 0
    ensures IsBits(Value(s), 0)
  {
    assert s == Zeros(|s|);
    ZerosValue(|s|);
  }

  /** The value of a number whose highest limb that is not zero is known. */
  lemma TopLimb(s: seq<Limb>, pos: nat)
    requires pos < |s| && forall i | pos < i < |s| :: s[i] == 0
    ensures Value(s) == s[pos] * Size(pos) + Value(s[..pos]) && Value(s[..pos]) < Size(pos)
  {
    hide Value, Size;
    OneLimb(s[pos..]);
    assert s == s[..pos] + s[pos..];
    ValueConcat(s[..pos], s[pos..]);
    ValueBound(s[..pos]);
  }

  lemma OneLimb(s: seq<Limb>)
    requires s != [] && forall i | 0 < i < |s| :: s[i] == 0
    ensures Value(s) == s[0]
  {
    assert s[1..] == Zeros(|s| - 1);
    ZerosValue(|s| - 1);
  }

  lemma HighestBit(s: seq<Limb>, pos: nat, n: nat)
    requires pos < |s| && n < 32 && Pow2(n) <= s[pos] < Pow2(n + 1)
    requires forall i | pos < i < |s| :: s[i] == 0
    ensures IsBits(Value(s), 32 * pos + n + 1)
  {
    TopLimb(s, pos);
    SizeIsPow2(pos);
    Pow2Sum(32 * pos, n);
    Pow2Sum(32 * pos, n + 1);
    HighestArithmetic(s[pos], Value(s[..pos]), Size(pos), Pow2(n), Pow2(n + 1));
  }

  lemma HighestArithmetic(x: nat, low: nat, size: nat, p: nat, q: nat)
    requires p <= x < q && low < size && p > 0
    ensures size * p <= x * size + low < size * q && 0 < x * size + low
  {
    MulLess(x, q, size);
    MulLess(p - 1, x, size);
    MulLess(0, x, size);
    assert (p - 1) * size + size == size * p;
  }

  /** Setting a bit below all those set adds its weight. */
  method SetBit(a: array<Limb>, n: nat)
    requires n < 32 * a.Length && Value(a[..]) % Pow2(n + 1) == 0
    modifies a
    ensures Value(a[..]) == old(Value(a[..])) + Pow2(n)
  {
    hide Value, Pow2, Or;
    SetBitLimb(a[..], n / 32, n % 32);
    assert n == 32 * (n / 32) + n % 32;
    a[n / 32] := Or(a[n / 32], Pow2(n % 32));
  }

  lemma SetBitLimb(s: seq<Limb>, k: nat, t: nat)
    requires k < |s| && t < 32 && Value(s) % Pow2(32 * k + t + 1) == 0
    ensures 0 <= Or(s[k], Pow2(t)) < BASE
    ensures Value(s[k := Or(s[k], Pow2(t))]) == Value(s) + Pow2(32 * k + t)
  {
    hide Or, Pow2, Value, Size;
    LimbClear(s, k, t + 1);
    Pow2Step(t);
    OrDisjoint(Pow2(t), s[k], t + 1);
    RoomForBit(s[k], t);
    SizeIsPow2(k);
    Pow2Sum(32 * k, t);
    var v: Limb := s[k] + Pow2(t);
    LimbChanged(s, k, v);
    Distribute(s[k], Pow2(t), Size(k));
  }

  lemma Pow2Step(t: nat)
    ensures Pow2(t + 1) == 2 * Pow2(t) && Pow2(t) >= 1
  {
  }

  /** A limb that is a multiple of twice a power of two has room for that power. */
  lemma RoomForBit(x: Limb, t: nat)
    requires t < 32 && x % Pow2(t + 1) == 0
    ensures x + Pow2(t) < BASE
  {
    hide Pow2;
    Pow2Whole(t + 1);
    Pow2Step(t);
    RoomArithmetic(x, Pow2(t + 1), Pow2(32 - t - 1), Pow2(t));
  }

  lemma RoomArithmetic(x: nat, d: nat, e: nat, p: nat)
    requires p > 0 && d == 2 * p && d * e == BASE && x < BASE && x % d == 0
    ensures x + p < BASE
  {
    Divided(x, d);
    var q := x / d;
    if q >= e {
      MulLess(e - 1, q, d);
    } else {
      MulLess(q, e, d);
    }
  }

  lemma LimbChanged(s: seq<Limb>, k: nat, v: Limb)
    requires k < |s|
    ensures Value(s[k := v]) == Value(s) - s[k] * Size(k) + v * Size(k)
  {
    hide Value, Size;
    LimbAt(s, k);
    LimbAt(s[k := v], k);
    assert s[k := v][..k] == s[..k] && s[k := v][k + 1..] == s[k + 1..];
  }

  /** A number as the sum of what is below a limb, the limb and what is above it. */
  lemma LimbAt(s: seq<Limb>, k: nat)
    requires k < |s|
    ensures Value(s) == Value(s[..k]) + s[k] * Size(k) + (BASE * Value(s[k + 1..])) * Size(k)
  {
    hide Value, Size;
    assert s == s[..k] + s[k..];
    ValueConcat(s[..k], s[k..]);
    ValueStep(s[k..]);
    assert s[k..][1..] == s[k + 1..] && s[k..][0] == s[k];
    SplitRest(Value(s[k..]), s[k], BASE * Value(s[k + 1..]), Size(k));
  }

  lemma SplitRest(v: nat, x: nat, p: nat, m: nat)
    requires v == x + p
    ensures v * m == x * m + p * m
  {
  }

  /** A number divisible by a power of two has no ones below it. */
  lemma LimbClear(s: seq<Limb>, k: nat, t: nat)
    requires k < |s| && t <= 32 && Value(s) % Pow2(32 * k + t) == 0
    ensures s[k] % Pow2(t) == 0
  {
    ValuePrefix(s, k);
    SizeIsPow2(k);
    Pow2Sum(32 * k, t);
    ClearArithmetic(Value(s), Size(k), Pow2(t));
    ValueStep(s[k..]);
    Pow2Whole(t);
    hide Value, Size, Pow2;
    LowArithmetic(s[k], Value(s[k..][1..]), Pow2(t), Pow2(32 - t));
  }

  lemma ClearArithmetic(v: nat, m: nat, p: nat)
    requires m > 0 && p > 0 && m * p > 0 && v % (m * p) == 0
    ensures (v / m) % p == 0
  {
    Divided(v, m * p);
    var q := v / (m * p);
    assert v == q * (m * p) == (q * p) * m;
    Quotient(v, m, q * p, 0);
    MulIsZeroMod(q, p);
  }

  /** The state of a long division of `n` by `b` before bit `t - 1` of the quotient: `q` so far, `m`
      left over. */
  predicate Dividing(n: nat, b: nat, q: nat, m: nat, t: nat) {
    n == q * b + m && m < b * Pow2(t) && q % Pow2(t) == 0
  }

  /** Divide in place; false stands for the exception on division by zero. */
  method Divide(a: array<Limb>, b: array<Limb>) returns (ok: bool)
    requires a.Length == b.Length
    modifies a
    ensures ok <==> old(Value(b[..])) != 0
    ensures ok ==> Value(a[..]) == old(Value(a[..])) / old(Value(b[..]))
    ensures !ok ==> Value(a[..]) == 0
  {
    hide Value, Size, Pow2, IsBits, Dividing;
    ghost var x, y, size := a[..], b[..], Size(a.Length);
    ghost var n, d := Value(x), Value(y);
    var div := new Limb[a.Length](i requires 0 <= i < b.Length reads b => b[i]);
    var num := new Limb[a.Length](i requires 0 <= i < a.Length reads a => a[i]);
    forall i | 0 <= i < a.Length {
      a[i] := 0;
    }
    assert div[..] == y && num[..] == x && a[..] == Zeros(a.Length);
    ZerosValue(a.Length);
    var numBits := Bits(num);
    var divBits := Bits(div);
    BitsZero(d, divBits);
    if divBits == 0 {
      return false;
    }
    if divBits > numBits {
      Smaller(n, d, numBits, divBits);
      return true;
    }
    var t: nat := numBits - divBits + 1;
    DivideStart(n, d, numBits, divBits, a.Length);
    ShiftLeft(div, t - 1);
    while t > 0
      invariant a.Length == num.Length == div.Length && t <= 32 * a.Length && fresh(num) && fresh(div)
      invariant num != a && div != a && num != div
      invariant Dividing(n, d, Value(a[..]), Value(num[..]), t)
      invariant t > 0 ==> Value(div[..]) == d * Pow2(t - 1)
    {
      ghost var q, m := Value(a[..]), Value(num[..]);
      ValueBound(num[..]);
      DivideStep(n, d, q, m, t);
      var order := CompareTo(num, div);
      if order >= 0 {
        SmallMod(m - d * Pow2(t - 1), size);
        Subtract(num, div);
        SetBit(a, t - 1);
      }
      ShiftRight(div, 1);
      t := t - 1;
    }
    DivideEnd(n, d, Value(a[..]), Value(num[..]));
    ok := true;
  }

  lemma BitsZero(v: nat, r: nat)
    requires IsBits(v, r)
    ensures v == 0 <==> r == 0
  {
  }

  lemma SmallMod(x: nat, m: nat)
    requires x < m
    ensures x % m == x
  {
    Quotient(x, m, 0, x);
  }

  /** Fewer bits than the divisor: the quotient is zero. */
  lemma Smaller(n: nat, d: nat, nb: nat, db: nat)
    requires IsBits(n, nb) && IsBits(d, db) && db > nb
    ensures d > 0 && n / d == 0
  {
    Pow2Monotone(nb, db - 1);
    Quotient(n, d, 0, n);
  }

  /** Aligned, the divisor still fits and is more than half of what is divided. */
  lemma DivideStart(n: nat, d: nat, nb: nat, db: nat, width: nat)
    requires IsBits(n, nb) && IsBits(d, db) && 0 < db <= nb <= 32 * width
    ensures var t := nb - db + 1;
            && t <= 32 * width && (d * Pow2(t - 1)) % Size(width) == d * Pow2(t - 1)
            && Dividing(n, d, 0, n, t)
  {
    var s := nb - db;
    Pow2Sum(db, s);
    Pow2Sum(db - 1, s + 1);
    Pow2Monotone(nb, 32 * width);
    SizeIsPow2(width);
    Pow2Step(s);
    ZeroDivides(Pow2(s + 1));
    StartArithmetic(n, d, Pow2(db - 1), Pow2(db), Pow2(s), Pow2(s + 1), Pow2(nb), Size(width));
  }

  lemma StartArithmetic(n: nat, d: nat, low: nat, high: nat, p: nat, q: nat, top: nat, size: nat)
    requires low <= d < high && p > 0 && top == high * p && top == low * q && n < top && top <= size
    ensures d * p < size && (d * p) % size == d * p && n < d * q
  {
    MulLess(d, high, p);
    if low < d {
      MulLess(low, d, q);
    }
    SmallMod(d * p, size);
  }

  /** One bit: take the divisor off if it fits. */
  lemma DivideStep(n: nat, d: nat, q: nat, m: nat, t: nat)
    requires Dividing(n, d, q, m, t) && t > 0
    ensures var p := Pow2(t - 1);
            && q % Pow2(t - 1 + 1) == 0
            && (m >= d * p ==> Dividing(n, d, q + p, m - d * p, t - 1))
            && (m < d * p ==> Dividing(n, d, q, m, t - 1))
            && (t > 1 ==> (d * p) / Pow2(1) == d * Pow2(t - 2))
  {
    var p := Pow2(t - 1);
    Pow2Step(t - 1);
    HalfModulus(q, p);
    if t > 1 {
      Pow2Step(t - 2);
      Pow2Small();
    }
    hide Pow2;
    DivideArithmetic(n, d, q, m, p);
    if t > 1 {
      var r := Pow2(t - 2);
      assert d * (2 * r) == (d * r) * 2;
      Quotient(d * p, 2, d * r, 0);
    }
  }

  lemma HalfModulus(q: nat, p: nat)
    requires p > 0 && q % (2 * p) == 0
    ensures q % p == 0 && (q + p) % p == 0
  {
    Divided(q, 2 * p);
    var k := q / (2 * p);
    assert q == k * (2 * p) == (2 * k) * p;
    assert q + p == (2 * k + 1) * p;
    MulIsZeroMod(2 * k, p);
    MulIsZeroMod(2 * k + 1, p);
  }

  lemma DivideArithmetic(n: nat, d: nat, q: nat, m: nat, p: nat)
    requires n == q * d + m && m < d * (2 * p)
    ensures n == (q + p) * d + (m - d * p) && m - d * p < d * p
  {
    assert d * (2 * p) == d * p + d * p;
    assert (q + p) * d == q * d + d * p;
  }

  lemma DivideEnd(n: nat, d: nat, q: nat, m: nat)
    requires Dividing(n, d, q, m, 0)
    ensures d > 0 && q == n / d
  {
    assert d * Pow2(0) == d;
    Quotient(n, d, q, m);
  }
}
