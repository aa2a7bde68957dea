/**
 * Base 58: bytes to text and back, through a buffer in which the number is multiplied and added to in
 * place.
 */
module Base58 {
  import opened Wrappers
  import opened Arithmetic
  import opened Sequences
  import opened Digits

  type Byte = x: nat | x < 256

  // ---------------------------------------------------------------------------------------------
  // A number in a buffer

  /** The buffer, most significant digit first, holds `v` behind zeros. */
  ghost predicate Holds(buf: seq<nat>, b: nat, v: nat)
    requires b >= 2
  {
    var ds := DigitsOf(b, v);
    && |ds| <= |buf|
    && forall p | 0 <= p < |buf| :: buf[p] == DigitAt(ds, |buf| - 1 - p)
  }

  /** The last `i` places hold digits of `out`, the places before them still those of `ds`. */
  ghost predicate Mixed(buf: seq<nat>, out: seq<nat>, ds: seq<nat>, i: nat) {
    forall p | 0 <= p < |buf| :: buf[p] == MixedDigit(out, ds, i, |buf| - 1 - p)
  }

  function MixedDigit(out: seq<nat>, ds: seq<nat>, i: nat, j: nat): nat {
    if j < i then DigitAt(out, j) else DigitAt(ds, j)
  }

  function DigitAt(ds: seq<nat>, j: nat): nat {
    if j < |ds| then ds[j] else 0
  }

  function From(ds: seq<nat>, i: nat): seq<nat> {
    if i <= |ds| then ds[i..] else []
  }

  /** `i` digits of `factor` times the number `ds` plus something are done: `carry` and the rest of
      `ds` make up the remaining ones. */
  ghost predicate Carrying(b: nat, ds: seq<nat>, factor: nat, out: seq<nat>, i: nat, carry: nat)
    requires b >= 2
  {
    i <= |out| && out == out[..i] + DigitsOf(b, carry + factor * Value(b, From(ds, i)))
  }

  lemma {:induction false} SuffixNormal(b: nat, ds: seq<nat>, i: nat)
    requires b >= 1 && Normal(b, ds) && i < |ds|
    ensures Value(b, ds[i..]) > 0
  {
    NormalPositive(b, ds[i..]);
  }

  /** One more digit. */
  lemma CarryStep(b: nat, ds: seq<nat>, factor: nat, out: seq<nat>, i: nat, carry: nat)
    requires b >= 2 && factor > 0 && Normal(b, ds) && Carrying(b, ds, factor, out, i, carry)
    requires carry != 0 || i < |ds|
    ensures var n := carry + factor * DigitAt(ds, i);
            && n >= 0 && i < |out| && out[i] == n % b && 0 <= n / b && Carrying(b, ds, factor, out, i + 1, n / b)
  {
    var d, v, w := DigitAt(ds, i), Value(b, From(ds, i)), Value(b, From(ds, i + 1));
    FromStep(b, ds, i);
    if i < |ds| {
      SuffixNormal(b, ds, i);
    }
    var rem: nat := carry + factor * v;
    PositiveProduct(factor, v);
    CarryArithmetic(b, carry, factor, d, v, w);
    QuotientBelow(rem, b);
    assert DigitsOf(b, rem) == [rem % b] + DigitsOf(b, rem / b);
    assert out[..i + 1] == out[..i] + [rem % b];
    assert out[..i] + ([rem % b] + DigitsOf(b, rem / b)) == out[..i] + [rem % b] + DigitsOf(b, rem / b);
  }

  lemma PositiveProduct(x: nat, y: nat)
    ensures x > 0 && y > 0 ==> x * y > 0
  {
  }

  lemma FromStep(b: nat, ds: seq<nat>, i: nat)
    ensures Value(b, From(ds, i)) == DigitAt(ds, i) + b * Value(b, From(ds, i + 1))
  {
    if i < |ds| {
      assert ds[i..][1..] == ds[i + 1..];
    }
  }

  lemma CarryArithmetic(b: nat, carry: nat, factor: nat, d: nat, v: nat, w: nat)
    requires b >= 2 && v == d + b * w
    ensures var n, rem := carry + factor * d, carry + factor * v;
            n >= 0 && n / b >= 0 && rem % b == n % b && rem / b == n / b + factor * w
  {
    var n, x := carry + factor * d, factor * w;
    Expanded(factor, d, b, w, v);
    QuotientNonNegative(n, b);
    AddMultiple(n, b, x);
  }

  lemma Expanded(factor: nat, d: nat, b: nat, w: nat, v: nat)
    requires v == d + b * w
    ensures factor * d >= 0 && factor * w >= 0 && factor * v == factor * d + b * (factor * w)
  {
  }

  lemma AddMultiple(n: nat, b: nat, x: nat)
    requires b > 0
    ensures (n + b * x) % b == n % b && (n + b * x) / b == n / b + x
  {
    Divided(n, b);
    Distribute(n / b, x, b);
    Quotient(n + b * x, b, n / b + x, n % b);
  }

  /** Replace the number in the buffer by `factor` times it plus `digit`, digit by digit from the back,
      stopping when the carry is used up and all old digits have been seen.  The buffer being large
      enough, no carry is left over. */
  method MultiplyAdd(buf: array<nat>, b: nat, factor: nat, digit: nat, length: nat, ghost v: nat) returns (newLength: nat)
    requires b >= 2 && factor > 0 && Holds(buf[..], b, v) && length == |DigitsOf(b, v)|
    requires v * factor + digit < Pow(b, buf.Length)
    modifies buf
    ensures Holds(buf[..], b, v * factor + digit) && newLength == |DigitsOf(b, v * factor + digit)|
  {
    hide DigitsOf, Pow, Carrying, Value, Normal, Mixed, Holds;
    ghost var ds, out, n := DigitsOf(b, v), DigitsOf(b, v * factor + digit), buf.Length;
    CarryStart(b, v, factor, digit, n);
    MixedStart(buf[..], out, b, v);
    var carry: nat := digit;
    var i := 0;
    while (carry != 0 || i < length) && i < buf.Length
      invariant 0 <= i <= buf.Length && Carrying(b, ds, factor, out, i, carry)
      invariant Mixed(buf[..], out, ds, i)
    {
      CarryStep(b, ds, factor, out, i, carry);
      MixedStep(buf[..], out, ds, i);
      var at := buf.Length - 1 - i;
      var m := carry + factor * buf[at];
      buf[at] := m % b;
      carry := m / b;
      i := i + 1;
    }
    CarryEnd(b, ds, factor, out, i, carry, n);
    MixedEnd(buf[..], out, ds, b, v * factor + digit);
    assert carry == 0;
    newLength := i;
  }

  lemma MixedStart(buf: seq<nat>, out: seq<nat>, b: nat, v: nat)
    requires b >= 2 && Holds(buf, b, v)
    ensures Mixed(buf, out, DigitsOf(b, v), 0) && |DigitsOf(b, v)| <= |buf|
  {
  }

  lemma MixedStep(buf: seq<nat>, out: seq<nat>, ds: seq<nat>, i: nat)
    requires Mixed(buf, out, ds, i) && i < |buf| && i < |out|
    ensures buf[|buf| - 1 - i] == DigitAt(ds, i)
    ensures Mixed(buf[|buf| - 1 - i := out[i]], out, ds, i + 1)
  {
  }

  lemma MixedEnd(buf: seq<nat>, out: seq<nat>, ds: seq<nat>, b: nat, v: nat)
    requires b >= 2 && out == DigitsOf(b, v) && |ds| <= |out| <= |buf| && Mixed(buf, out, ds, |out|)
    ensures Holds(buf, b, v)
  {
    hide DigitsOf;
  }

  lemma CarryStart(b: nat, v: nat, factor: nat, digit: nat, n: nat)
    requires b >= 2 && v * factor + digit < Pow(b, n)
    ensures var ds, out := DigitsOf(b, v), DigitsOf(b, v * factor + digit);
            Normal(b, ds) && Carrying(b, ds, factor, out, 0, digit) && |out| <= n
  {
    var ds, out := DigitsOf(b, v), DigitsOf(b, v * factor + digit);
    DigitsNormal(b, v);
    DigitsFit(b, v * factor + digit, n);
    hide DigitsOf, Pow, Normal;
    assert From(ds, 0) == ds && factor * v == v * factor;
    assert out[..0] + out == out;
  }

  lemma CarryEnd(b: nat, ds: seq<nat>, factor: nat, out: seq<nat>, i: nat, carry: nat, n: nat)
    requires b >= 2 && factor > 0 && Normal(b, ds) && Carrying(b, ds, factor, out, i, carry) && |ds| <= n && |out| <= n
    requires (carry == 0 && i >= |ds|) || i == n
    ensures carry == 0 && i == |out| && i >= |ds|
  {
    var v := Value(b, From(ds, i));
    assert factor * v >= 0;
    var rem: nat := carry + factor * v;
    if i == n {
      assert out[..i] == out;
      assert |DigitsOf(b, rem)| == 0;
    } else {
      assert From(ds, i) == [];
      assert factor * 0 == 0;
    }
  }

  // ---------------------------------------------------------------------------------------------
  // The buffers are large enough

  /** Eight bytes fit in eleven digits of base 58. */
  lemma EightBytes()
    ensures Pow(256, 8) <= Pow(58, 11)
  {
    assert Pow(58, 3) == 0x2fa28 && Pow(58, 4) == 0xacad10;
    PowSum(58, 4, 4);
    PowSum(58, 8, 3);
    assert Pow(256, 4) == 0x1_0000_0000;
    PowSum(256, 4, 4);
  }

  /** Seventy-one digits of base 58 fit in fifty-two bytes. */
  lemma SeventyOneDigits()
    ensures Pow(58, 71) <= Pow(256, 52)
  {
    hide Pow;
    var p7, p64 := 0x202161caa80, 0x7853026ae25f4ce0c69893e6f1f86f67aef4db69563516064adeb967a9d66f4fe64b09ec94e5010000000000000000;
    Powers();
    PowSum(58, 8, 8);
    PowSum(58, 16, 16);
    PowSum(58, 32, 32);
    assert Pow(58, 64) == p64;
    PowSum(58, 64, 7);
    assert Pow(58, 71) == p64 * p7;
    PowSum(256, 16, 16);
    PowSum(256, 32, 16);
    PowSum(256, 48, 4);
  }

  lemma Powers()
    ensures Pow(58, 7) == 0x202161caa80 && Pow(58, 8) == 0x7479027ea100
    ensures Pow(256, 4) == 0x1_0000_0000 && Pow(256, 16) == 0x1_0000_0000_0000_0000_0000_0000_0000_0000
  {
    assert Pow(58, 3) == 0x2fa28 && Pow(58, 4) == 0xacad10;
    PowSum(58, 4, 3);
    PowSum(58, 4, 4);
    PowSum(256, 4, 4);
    PowSum(256, 8, 8);
  }

  /** `n` bytes fit in the buffer that encoding allocates for them. */
  lemma EncodeRoom(n: nat)
    ensures Pow(256, n) < Pow(58, n * 138 / 100 + 1)
  {
    hide Pow;
    EightBytes();
    BaseChange(58, 256, 11, 8, n, n * 138 / 100 + 1);
  }

  /** `n` digits fit in the buffer that decoding allocates for them. */
  lemma DecodeRoom(n: nat)
    ensures Pow(58, n) < Pow(256, n * 733 / 1000 + 1)
  {
    hide Pow;
    SeventyOneDigits();
    BaseChange(256, 58, 52, 71, n, n * 733 / 1000 + 1);
  }

  // ---------------------------------------------------------------------------------------------
  // The text format

  /** The digit a character stands for, or -1. */
  function DigitOf(c: char): int {
    if '1' <= c <= '9' then c as int - '1' as int
    else if 'A' <= c <= 'H' then c as int - 'A' as int + 9
    else if 'J' <= c <= 'N' then c as int - 'J' as int + 17
    else if 'P' <= c <= 'Z' then c as int - 'P' as int + 22
    else if 'a' <= c <= 'k' then c as int - 'a' as int + 33
    else if 'm' <= c <= 'z' then c as int - 'm' as int + 44
    else -1
  }

  predicate IsSpace(c: char) {
    c == ' ' || c as int == 12 || c == '\n' || c == '\r' || c == '\t' || c as int == 11
  }

  predicate NotSpace(c: char) {
    !IsSpace(c)
  }

  predicate IsOne(c: char) {
    c == '1'
  }

  /** The character for a digit: the alphanumeric ones without 0, I, O and l. */
  function CharOf(d: nat): char
    requires d < 58
  {
    if d < 9 then '1' + d as char
    else if d < 17 then 'A' + (d - 9) as char
    else if d < 22 then 'J' + (d - 17) as char
    else if d < 33 then 'P' + (d - 22) as char
    else if d < 44 then 'a' + (d - 33) as char
    else 'm' + (d - 44) as char
  }

  lemma CharDigit(d: nat)
    requires d < 58
    ensures DigitOf(CharOf(d)) == d && !IsSpace(CharOf(d)) && (CharOf(d) == '1' <==> d == 0)
  {
  }

  /** The number a sequence of digits spells, most significant first. */
  function Number(b: nat, ds: seq<nat>): nat {
    if ds == [] then 0 else Number(b, ds[..|ds| - 1]) * b + ds[|ds| - 1]
  }

  lemma {:induction false} NumberReversed(b: nat, ds: seq<nat>)
    ensures Number(b, Reverse(ds)) == Value(b, ds)
  {
    if ds != [] {
      var r := Reverse(ds);
      assert r[..|ds| - 1] == Reverse(ds[1..]);
      NumberReversed(b, ds[1..]);
      assert Value(b, ds[1..]) * b == b * Value(b, ds[1..]);
    }
  }

  lemma {:induction false} NumberBound(b: nat, ds: seq<nat>)
    requires b >= 1 && AreDigits(b, ds)
    ensures Number(b, ds) < Pow(b, |ds|)
  {
    if ds != [] {
      var v, p := Number(b, ds[..|ds| - 1]), Pow(b, |ds| - 1);
      NumberBound(b, ds[..|ds| - 1]);
      MulLess(v, p, b);
      assert p * b == b * p;
    }
  }

  function Leading(x: seq<nat>): (z: nat)
    ensures z <= |x| && (forall i | 0 <= i < z :: x[i] == 0) && (z < |x| ==> x[z] != 0)
  {
    if x == [] || x[0] != 0 then 0 else 1 + Leading(x[1..])
  }

  function Text(ds: seq<nat>): (r: string)
    requires AreDigits(58, ds)
    ensures |r| == |ds| && forall i | 0 <= i < |ds| :: r[i] == CharOf(ds[i])
  {
    seq(|ds|, i requires 0 <= i < |ds| => CharOf(ds[i]))
  }

  function Repeat<T>(c: T, n: nat): (r: seq<T>)
    ensures |r| == n && forall i | 0 <= i < n :: r[i] == c
  {
    seq(n, _ => c)
  }

  /** The digits, most significant first. */
  function Spelled(b: nat, n: nat): (r: seq<nat>)
    requires b >= 2
    ensures AreDigits(b, r)
  {
    DigitsNormal(b, n);
    Reverse(DigitsOf(b, n))
  }

  /** A one for each leading zero byte, then the number spelled in base 58. */
  function Encoded(x: seq<Byte>): string {
    Repeat('1', Leading(x)) + Text(Spelled(58, Number(256, x[Leading(x)..])))
  }

  function CountWhile(s: string, p: char -> bool): (n: nat)
    ensures n <= |s|
  {
    if s == [] || !p(s[0]) then 0 else 1 + CountWhile(s[1..], p)
  }

  lemma {:induction false} CountFacts(s: string, p: char -> bool)
    ensures var n := CountWhile(s, p);
            (forall i | 0 <= i < n :: p(s[i])) && (n < |s| ==> !p(s[n]))
  {
    if s != [] && p(s[0]) {
      CountFacts(s[1..], p);
    }
  }

  predicate AllDigits(s: string) {
    forall i | 0 <= i < |s| :: DigitOf(s[i]) >= 0
  }

  function DigitValues(s: string): (r: seq<nat>)
    requires AllDigits(s)
    ensures |r| == |s| && AreDigits(58, r)
  {
    seq(|s|, i requires 0 <= i < |s| => DigitOf(s[i]))
  }

  /** The parts of a text: ones and digits between spaces, then whatever follows. */
  function Trimmed(s: string): string {
    s[CountWhile(s, IsSpace)..]
  }

  function Ones(s: string): nat {
    CountWhile(Trimmed(s), IsOne)
  }

  function Body(s: string): string {
    var t := Trimmed(s)[Ones(s)..];
    t[..CountWhile(t, NotSpace)]
  }

  function Trailing(s: string): string {
    Trimmed(s)[Ones(s) + |Body(s)|..]
  }

  predicate WellFormed(s: string) {
    AllDigits(Body(s)) && forall i | 0 <= i < |Trailing(s)| :: IsSpace(Trailing(s)[i])
  }

  function Spoken(s: string): seq<nat>
    requires WellFormed(s)
  {
    Repeat(0, Ones(s)) + Spelled(256, Number(58, DigitValues(Body(s))))
  }

  /** What a text decodes to, if it is well formed and not longer than allowed. */
  function Decoded(s: string, maxLength: int): Option<seq<nat>> {
    if !WellFormed(s) then None
    else if Spoken(s) != [] && |Spoken(s)| > maxLength then None
    else Some(Spoken(s))
  }

  // ---------------------------------------------------------------------------------------------
  // There and back

  /** Encoded text has no spaces and starts with exactly the ones for leading zeros. */
  lemma EncodedParts(z: nat, ds: seq<nat>)
    requires AreDigits(58, ds) && (ds != [] ==> ds[0] != 0)
    ensures var s := Repeat('1', z) + Text(ds);
            Ones(s) == z && Body(s) == Text(ds) && Trailing(s) == [] && AllDigits(Text(ds)) && DigitValues(Text(ds)) == ds
  {
    var s, t := Repeat('1', z) + Text(ds), Text(ds);
    forall i | 0 <= i < |s|
      ensures !IsSpace(s[i]) && (i >= z ==> DigitOf(s[i]) == ds[i - z])
    {
      if i >= z {
        assert s[i] == CharOf(ds[i - z]);
        CharDigit(ds[i - z]);
      }
    }
    CountIs(s, IsSpace, 0);
    assert Trimmed(s) == s;
    if ds != [] {
      CharDigit(ds[0]);
    }
    CountIs(s, IsOne, z);
    assert s[z..] == t;
    forall i | 0 <= i < |t|
      ensures !IsSpace(t[i]) && DigitOf(t[i]) == ds[i]
    {
      assert s[z + i] == t[i];
    }
    CountIs(t, NotSpace, |t|);
  }

  lemma {:induction false} CountIs(s: string, p: char -> bool, n: nat)
    requires n <= |s| && (forall i | 0 <= i < n :: p(s[i])) && (n < |s| ==> !p(s[n]))
    ensures CountWhile(s, p) == n
  {
    if n > 0 {
      CountIs(s[1..], p, n - 1);
    }
  }

  /** Bytes without a leading zero are their number, spelled. */
  lemma SpelledBytes(x: seq<Byte>)
    requires x != [] ==> x[0] != 0
    ensures Spelled(256, Number(256, x)) == x
  {
    var ds: seq<nat> := x;
    var r := Reverse(ds);
    assert Reverse(r) == ds;
    NumberReversed(256, r);
    assert Normal(256, r);
    DigitsOfValue(256, r);
  }

  /** Decoding an encoding gives the bytes back, leading zeros included, whenever they may be that
      many. */
  lemma RoundTrip(x: seq<Byte>, maxLength: int)
    ensures Decoded(Encoded(x), maxLength) == if x != [] && |x| > maxLength then None else Some(x)
  {
    hide Number, DigitsOf, Reverse, CountWhile, Leading, Spelled, Ones, Body, Trailing, DigitValues, AllDigits;
    var z := Leading(x);
    var rest := x[z..];
    var v := Number(256, rest);
    var ds := Spelled(58, v);
    SpelledNumber(v);
    EncodedParts(z, ds);
    SpelledBytes(rest);
    var s := Encoded(x);
    assert WellFormed(s) && Number(58, DigitValues(Body(s))) == v;
    NoLeading(x);
    assert Repeat(0, z) + rest == x;
    assert Spoken(s) == x;
  }

  lemma NoLeading(x: seq<nat>)
    ensures Leading(x) <= |x| && (x[Leading(x)..] != [] ==> x[Leading(x)..][0] != 0)
    ensures forall i | 0 <= i < Leading(x) :: x[i] == 0
  {
  }

  lemma SpelledNumber(v: nat)
    ensures Number(58, Spelled(58, v)) == v && (Spelled(58, v) != [] ==> Spelled(58, v)[0] != 0)
  {
    DigitsNormal(58, v);
    NumberReversed(58, DigitsOf(58, v));
  }

  // ---------------------------------------------------------------------------------------------
  // The algorithms

  lemma NumberStep(b: nat, ds: seq<nat>, k: nat)
    requires k < |ds|
    ensures Number(b, ds[..k + 1]) == Number(b, ds[..k]) * b + ds[k]
  {
    assert ds[..k + 1][..k] == ds[..k];
  }

  /** Part of a number in another base fits where all of it fits. */
  lemma PartFits(b: nat, ds: seq<nat>, k: nat, a: nat, n: nat, size: nat)
    requires b >= 2 && AreDigits(b, ds) && k < |ds| <= n && Pow(b, n) < Pow(a, size)
    ensures Number(b, ds[..k]) * b + ds[k] < Pow(a, size)
  {
    NumberStep(b, ds, k);
    NumberBound(b, ds[..k + 1]);
    if k + 1 < n {
      PowLess(b, k + 1, n);
    }
  }

  /** The places of a buffer from the first digit on spell the number. */
  lemma BufferSpells(buf: seq<nat>, b: nat, v: nat, length: nat)
    requires b >= 2 && Holds(buf, b, v) && length == |DigitsOf(b, v)|
    ensures length <= |buf| && buf[|buf| - length..] == Spelled(b, v)
    ensures length > 0 ==> buf[|buf| - length] != 0
  {
    DigitsNormal(b, v);
    hide DigitsOf;
    var t, r := buf[|buf| - length..], Reverse(DigitsOf(b, v));
    assert forall i | 0 <= i < length :: t[i] == r[i];
  }

  lemma DigitsInside(buf: seq<nat>, b: nat, v: nat)
    requires b >= 2 && Holds(buf, b, v)
    ensures |DigitsOf(b, v)| <= |buf|
  {
  }

  lemma EmptyBuffer(buf: seq<nat>, b: nat)
    requires b >= 2 && forall i | 0 <= i < |buf| :: buf[i] == 0
    ensures Holds(buf, b, 0) && |DigitsOf(b, 0)| == 0
  {
  }

  /** Spell a number given in bytes in base 58. */
  method SpellBytes(rest: seq<Byte>) returns (ds: seq<nat>)
    ensures ds == Spelled(58, Number(256, rest))
  {
    hide Number, DigitsOf, Pow, Holds, Reverse, Spelled;
    var size := |rest| * 138 / 100 + 1;
    EncodeRoom(|rest|);
    var b58 := new nat[size](_ => 0);
    EmptyBuffer(b58[..], 58);
    NoNumber(256);
    var length, k := 0, 0;
    assert rest[..0] == [];
    while k < |rest|
      invariant 0 <= k <= |rest|
      invariant Holds(b58[..], 58, Number(256, rest[..k])) && length == |DigitsOf(58, Number(256, rest[..k]))|
    {
      PartFits(256, rest, k, 58, |rest|, size);
      NumberStep(256, rest, k);
      length := MultiplyAdd(b58, 58, 256, rest[k], length, Number(256, rest[..k]));
      k := k + 1;
    }
    assert rest[..k] == rest;
    DigitsInside(b58[..], 58, Number(256, rest));
    var it := size - length;
    while it < size && b58[it] == 0
      invariant size - length <= it <= size && forall i | size - length <= i < it :: b58[i] == 0
    {
      it := it + 1;
    }
    BufferSpells(b58[..], 58, Number(256, rest), length);
    ds := b58[it..];
  }

  method EncodeBase58(input: seq<Byte>) returns (str: string)
    ensures str == Encoded(input)
  {
    hide Number, Spelled;
    var zeroes := 0;
    while zeroes < |input| && input[zeroes] == 0
      invariant 0 <= zeroes <= |input| && zeroes + Leading(input[zeroes..]) == Leading(input)
    {
      assert input[zeroes..][1..] == input[zeroes + 1..];
      zeroes := zeroes + 1;
    }
    var ds := SpellBytes(input[zeroes..]);
    str := Repeat('1', zeroes) + Text(ds);
  }

  lemma NoNumber(b: nat)
    ensures Number(b, []) == 0
  {
  }

  /** The first place at or after `from` whose character is not of the kind. */
  method SkipWhile(s: string, from: nat, p: char -> bool) returns (q: nat)
    requires from <= |s|
    ensures q == from + CountWhile(s[from..], p)
  {
    q := from;
    while q < |s| && p(s[q])
      invariant from <= q <= |s| && q + CountWhile(s[q..], p) == from + CountWhile(s[from..], p)
    {
      assert s[q..][1..] == s[q + 1..];
      q := q + 1;
    }
  }

  lemma {:induction false} NumberMonotone(b: nat, ds: seq<nat>, k: nat)
    requires b >= 1 && k <= |ds|
    ensures Number(b, ds[..k]) <= Number(b, ds)
    decreases |ds| - k
  {
    if k == |ds| {
      assert ds[..k] == ds;
    } else {
      hide Number;
      NumberStep(b, ds, k);
      NumberMonotone(b, ds, k + 1);
      TimesAtLeast(Number(b, ds[..k]), b);
    }
  }

  lemma {:induction false} ValueBound(b: nat, ds: seq<nat>)
    requires b >= 1 && AreDigits(b, ds)
    ensures Value(b, ds) < Pow(b, |ds|)
  {
    if ds != [] {
      ValueBound(b, ds[1..]);
      var v, p := Value(b, ds[1..]), Pow(b, |ds| - 1);
      MulLess(v, p, b);
      assert b * v + b <= b * p;
    }
  }

  /** Larger numbers take no fewer digits. */
  lemma DigitsMonotone(b: nat, v: nat, w: nat)
    requires b >= 2 && v <= w
    ensures |DigitsOf(b, v)| <= |DigitsOf(b, w)|
  {
    DigitsNormal(b, w);
    ValueBound(b, DigitsOf(b, w));
    DigitsFit(b, v, |DigitsOf(b, w)|);
  }

  /** What the digits at the front of a text say. */
  function FrontDigits(t: string): string {
    t[..CountWhile(t, NotSpace)]
  }

  function FrontBytes(t: string): seq<nat>
    requires AllDigits(FrontDigits(t))
  {
    Spelled(256, Number(58, DigitValues(FrontDigits(t))))
  }

  /** The digits so far, and that they only become more. */
  lemma FrontPart(t: string, k: nat)
    requires AllDigits(FrontDigits(t)) && k <= |FrontDigits(t)|
    ensures AllDigits(FrontDigits(t)[..k]) && DigitValues(FrontDigits(t))[..k] == DigitValues(FrontDigits(t)[..k])
    ensures |DigitsOf(256, Number(58, DigitValues(FrontDigits(t)[..k])))| <= |FrontBytes(t)|
  {
    var f := FrontDigits(t);
    var ds := DigitValues(f);
    assert ds[..k] == DigitValues(f[..k]);
    NumberMonotone(58, ds, k);
    DigitsMonotone(256, Number(58, ds[..k]), Number(58, ds));
  }

  lemma NoDigits()
    ensures AllDigits([]) && DigitValues([]) == [] && Number(58, []) == 0
  {
  }

  lemma OneMoreDigit(f: string, k: nat)
    requires k < |f| && AllDigits(f[..k])
    ensures DigitOf(f[k]) < 0 ==> !AllDigits(f)
    ensures DigitOf(f[k]) >= 0 ==>
              && AllDigits(f[..k + 1])
              && DigitValues(f[..k + 1]) == DigitValues(f[..k]) + [DigitOf(f[k])]
              && Number(58, DigitValues(f[..k + 1])) == Number(58, DigitValues(f[..k])) * 58 + DigitOf(f[k])
  {
    if DigitOf(f[k]) >= 0 {
      assert f[..k + 1] == f[..k] + [f[k]];
      var ds, d: nat := DigitValues(f[..k]), DigitOf(f[k]);
      assert DigitValues(f[..k + 1]) == ds + [d];
      assert (ds + [d])[..k] == ds;
    }
  }

  lemma DigitsRoom(f: string, k: nat, n: nat, size: nat)
    requires k < |f| <= n && AllDigits(f[..k]) && DigitOf(f[k]) >= 0 && Pow(58, n) < Pow(256, size)
    ensures Number(58, DigitValues(f[..k])) * 58 + DigitOf(f[k]) < Pow(256, size)
  {
    var ds, d: nat := DigitValues(f[..k]), DigitOf(f[k]);
    PartFits(58, ds + [d], k, 256, n, size);
    assert (ds + [d])[..k] == ds;
  }

  lemma FrontEnds(t: string, k: nat)
    requires k <= |FrontDigits(t)|
    ensures k < |t| && NotSpace(t[k]) ==> k < |FrontDigits(t)| && FrontDigits(t)[k] == t[k]
    ensures k == |t| || !NotSpace(t[k]) ==> k == |FrontDigits(t)|
  {
    hide NotSpace;
    CountFacts(t, NotSpace);
  }

  lemma Positive(f: string, k: nat)
    requires 0 < k <= |f| && AllDigits(f[..k]) && f[0] != '1'
    ensures |DigitsOf(256, Number(58, DigitValues(f[..k])))| > 0
  {
    var ds := DigitValues(f[..k]);
    assert ds[0] == DigitOf(f[0]) != 0;
    NumberPositive(58, ds);
  }

  lemma {:induction false} NumberPositive(b: nat, ds: seq<nat>)
    requires b >= 1 && ds != [] && ds[0] != 0
    ensures Number(b, ds) > 0
  {
    if |ds| > 1 {
      NumberPositive(b, ds[..|ds| - 1]);
      assert Number(b, ds[..|ds| - 1]) * b > 0;
    }
  }

  /** Decode the digits at the front of `t`, which follow `zeroes` leading ones. */
  method DecodeDigits(t: string, zeroes: nat, maxLength: int) returns (ok: bool, bytes: seq<nat>)
    requires t != [] ==> t[0] != '1'
    ensures ok <==> AllDigits(FrontDigits(t)) && (FrontDigits(t) != [] ==> zeroes + |FrontBytes(t)| <= maxLength)
    ensures ok ==> bytes == FrontBytes(t)
  {
    hide Number, DigitsOf, Pow, Holds, Reverse, Spelled, CountWhile, AllDigits, DigitValues, FrontDigits, NotSpace;
    ghost var f := FrontDigits(t);
    var size := |t| * 733 / 1000 + 1;
    DecodeRoom(|t|);
    var b256 := new nat[size](_ => 0);
    EmptyBuffer(b256[..], 256);
    NoDigits();
    var length, k := 0, 0;
    assert f[..0] == [];
    while k < |t| && NotSpace(t[k])
      invariant 0 <= k <= |f| && k <= |t| && AllDigits(f[..k])
      invariant var v := Number(58, DigitValues(f[..k])); Holds(b256[..], 256, v) && length == |DigitsOf(256, v)|
      invariant k > 0 ==> length + zeroes <= maxLength
    {
      FrontEnds(t, k);
      OneMoreDigit(f, k);
      var digit := DigitOf(t[k]);
      if digit == -1 {
        return false, [];
      }
      FrontShort(t);
      DigitsRoom(f, k, |t|, size);
      length := MultiplyAdd(b256, 256, 58, digit, length, Number(58, DigitValues(f[..k])));
      k := k + 1;
      if length + zeroes > maxLength {
        if AllDigits(f) {
          FrontPart(t, k);
        }
        return false, [];
      }
    }
    FrontEnds(t, k);
    assert f[..k] == f;
    BufferSpells(b256[..], 256, Number(58, DigitValues(f)), length);
    ok, bytes := true, b256[size - length..];
  }

  lemma FrontShort(t: string)
    ensures |FrontDigits(t)| <= |t|
  {
  }

  lemma CountMore(s: string, p: nat, kind: char -> bool)
    requires p < |s| && kind(s[p])
    ensures CountWhile(s[p..], kind) == 1 + CountWhile(s[p + 1..], kind)
  {
    assert s[p..][1..] == s[p + 1..];
  }

  lemma CountNone(s: string, p: nat, kind: char -> bool)
    requires p <= |s| && (p < |s| ==> !kind(s[p]))
    ensures CountWhile(s[p..], kind) == 0
  {
  }

  lemma AllSpaces(t: string)
    ensures CountWhile(t, IsSpace) == |t| <==> forall i | 0 <= i < |t| :: IsSpace(t[i])
  {
    hide IsSpace;
    CountFacts(t, IsSpace);
  }

  lemma TooManyOnes(s: string, maxLength: int)
    requires 0 < Ones(s) && Ones(s) > maxLength
    ensures Decoded(s, maxLength) == None
  {
    hide Ones, Body, Trailing, Spelled, Number;
  }

  /** The value of a text, given what follows its leading ones. */
  lemma DecodedIs(s: string, maxLength: int, t: string)
    requires t == Trimmed(s)[Ones(s)..] && (t != [] ==> t[0] != '1')
    ensures Trailing(s) == t[|FrontDigits(t)|..]
    ensures var spaces := forall i | 0 <= i < |Trailing(s)| :: IsSpace(Trailing(s)[i]);
            && (!AllDigits(FrontDigits(t)) || !spaces ==> Decoded(s, maxLength) == None)
            && (AllDigits(FrontDigits(t)) && spaces ==>
                  Decoded(s, maxLength) ==
                  if (Ones(s) > 0 || FrontDigits(t) != []) && Ones(s) + |FrontBytes(t)| > maxLength then None
                  else Some(Repeat(0, Ones(s)) + FrontBytes(t)))
    ensures FrontDigits(t) == [] ==> AllDigits(FrontDigits(t)) && FrontBytes(t) == []
  {
    hide Number, DigitsOf, Reverse, CountWhile, IsSpace;
    var f := FrontDigits(t);
    assert Body(s) == f;
    if AllDigits(f) {
      if f == [] {
        NoDigits();
        NoBytes();
      } else {
        assert f[..|f|] == f;
        Positive(f, |f|);
      }
    }
  }

  lemma NoBytes()
    ensures Spelled(256, 0) == []
  {
  }

  /** Count the ones at the front of a text, as long as they are not too many. */
  method CountOnes(t: string, maxLength: int) returns (ok: bool, zeroes: nat)
    ensures ok <==> CountWhile(t, IsOne) == 0 || CountWhile(t, IsOne) <= maxLength
    ensures ok ==> zeroes == CountWhile(t, IsOne)
  {
    hide CountWhile;
    assert t[0..] == t;
    zeroes := 0;
    while zeroes < |t| && t[zeroes] == '1'
      invariant 0 <= zeroes <= |t| && zeroes + CountWhile(t[zeroes..], IsOne) == CountWhile(t, IsOne)
      invariant zeroes == 0 || zeroes <= maxLength
    {
      CountMore(t, zeroes, IsOne);
      zeroes := zeroes + 1;
      if zeroes > maxLength {
        return false, 0;
      }
    }
    CountNone(t, zeroes, IsOne);
    ok := true;
  }

  method DecodeBase58(s: string, maxLength: int) returns (r: Option<seq<nat>>)
    ensures r == Decoded(s, maxLength)
  {
    hide Number, DigitsOf, Reverse, Spelled, AllDigits, DigitValues, Decoded, FrontBytes, Trailing, IsSpace, NotSpace, CountWhile;
    var p := SkipWhile(s, 0, IsSpace);
    assert s[0..] == s;
    var trimmed := s[p..];
    var fits, zeroes := CountOnes(trimmed, maxLength);
    if !fits {
      TooManyOnes(s, maxLength);
      return None;
    }
    var t := trimmed[zeroes..];
    CountFacts(trimmed, IsOne);
    var ok, bytes := DecodeDigits(t, zeroes, maxLength);
    DecodedIs(s, maxLength, t);
    if !ok {
      return None;
    }
    var body := SkipWhile(t, 0, NotSpace);
    assert t[0..] == t;
    var end := SkipWhile(t, body, IsSpace);
    AllSpaces(t[body..]);
    if end != |t| {
      return None;
    }
    r := Some(Repeat(0, zeroes) + bytes);
  }
}
