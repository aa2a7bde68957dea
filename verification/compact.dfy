/**
 * The compact form of 256-bit targets, and the work a target stands for.
 */
module Compact {
  import opened Arithmetic
  import opened Limbs
  import opened Arith

  const WIDTH: nat := 8
  const SIZE_UNIT: nat := 0x1_000000
  const SIGN_BIT: nat := 0x80_0000

  function ByteSize(c: Limb): nat {
    c / SIZE_UNIT
  }

  function Mantissa(c: Limb): nat {
    c % SIGN_BIT
  }

  predicate Signed(c: Limb) {
    (c / SIGN_BIT) % 2 == 1
  }

  /** The number a compact form denotes, without its sign and without a bound on its size. */
  function Denoted(c: Limb): nat {
    if ByteSize(c) <= 3 then Reduced(c) else Mantissa(c) * Pow2(8 * (ByteSize(c) - 3))
  }

  /** The mantissa, cut to the bytes that the size leaves. */
  function Reduced(c: Limb): nat {
    if ByteSize(c) <= 3 then
      QuotientNonNegative(Mantissa(c), Pow2(8 * (3 - ByteSize(c))));
      Mantissa(c) / Pow2(8 * (3 - ByteSize(c)))
    else Mantissa(c)
  }

  method SetWord(a: array<Limb>, w: Limb)
    requires a.Length > 0
    modifies a
    ensures Value(a[..]) == w
  {
    forall i | 0 <= i < a.Length {
      a[i] := if i == 0 then w else 0;
    }
    OneLimb(a[..]);
  }

  /** Set a number from its compact form.  The number is the denoted one cut to 256 bits, and overflow
      is reported exactly if something was cut. */
  method SetCompact(a: array<Limb>, c: Limb) returns (negative: bool, overflow: bool)
    requires a.Length == WIDTH
    modifies a
    ensures Value(a[..]) == Denoted(c) % Pow2(256)
    ensures overflow <==> Denoted(c) >= Pow2(256)
    ensures negative <==> Reduced(c) != 0 && Signed(c)
  {
    hide Value, Size, Pow2;
    var size, word := c / SIZE_UNIT, c % SIGN_BIT;
    SizeIsPow2(WIDTH);
    if size <= 3 {
      WordShrinks(word, 8 * (3 - size));
      word := word / Pow2(8 * (3 - size));
      SetWord(a, word);
    } else {
      SetWord(a, word);
      ShiftLeft(a, 8 * (size - 3));
    }
    CompactOverflow(c);
    negative := word != 0 && (c / SIGN_BIT) % 2 == 1;
    overflow := word != 0 && (size > 34 || (word > 0xff && size > 33) || (word > 0xffff && size > 32));
  }

  lemma WordShrinks(w: nat, n: nat)
    requires w < SIGN_BIT
    ensures 0 <= w / Pow2(n) <= w && (w / Pow2(n)) % Pow2(256) == w / Pow2(n)
  {
    var p := Pow2(n);
    QuotientNonNegative(w, p);
    Divided(w, p);
    Pow2Positive(n);
    if w / p > 0 {
      MulLess(1 - 1, w / p, p);
      QuotientAtMost(w / p, p);
    }
    Pow2Limb();
    Pow2Monotone(32, 256);
    SmallMod(w / p, Pow2(256));
  }

  lemma QuotientAtMost(q: nat, p: nat)
    requires p > 0
    ensures q <= q * p
  {
    assert q * (p - 1) >= 0;
  }

  lemma CompactOverflow(c: Limb)
    ensures var size, word := ByteSize(c), Reduced(c);
            Denoted(c) >= Pow2(256) <==>
            word != 0 && (size > 34 || (word > 0xff && size > 33) || (word > 0xffff && size > 32))
  {
    var size, word := ByteSize(c), Mantissa(c);
    if size <= 3 {
      hide Pow2;
      WordShrinks(word, 8 * (3 - size));
      Pow2Limb();
      Pow2Monotone(32, 256);
    } else {
      Scaled(word, size - 3);
    }
  }

  /** When a mantissa scaled by whole bytes reaches 256 bits. */
  lemma Scaled(word: nat, k: nat)
    requires word < SIGN_BIT
    ensures word * Pow2(8 * k) >= Pow2(256) <==>
            word != 0 && (k > 31 || (word > 0xff && k > 30) || (word > 0xffff && k > 29))
  {
    if k >= 32 {
      Pow2Monotone(256, 8 * k);
      if word > 0 {
        QuotientAtMost(Pow2(8 * k), word);
      }
    } else {
      var p := Pow2(8 * k);
      Pow2Sum(256 - 8 * k, 8 * k);
      var rest := Pow2(256 - 8 * k);
      Bytes(32 - k);
      hide Pow2;
      if word >= rest {
        if word > rest {
          MulLess(rest, word, p);
        }
      } else {
        MulLess(word, rest, p);
      }
    }
  }

  /** How powers of 256 compare with one, two and three bytes. */
  lemma Bytes(k: nat)
    requires 0 < k <= 32
    ensures k == 1 ==> Pow2(8 * k) == 0x100
    ensures k == 2 ==> Pow2(8 * k) == 0x1_0000
    ensures k >= 3 ==> Pow2(8 * k) >= 0x100_0000
  {
    assert Pow2(8) == 0x100;
    Pow2Sum(8, 8);
    Pow2Sum(8, 16);
    if k >= 3 {
      Pow2Monotone(24, 8 * k);
    }
  }

  // ---------------------------------------------------------------------------------------------
  // From a number to its compact form

  /** `size` is the number of bytes `v` takes. */
  predicate IsByteSize(v: nat, size: nat) {
    v < Pow2(8 * size) && (v == 0 ==> size == 0) && (v > 0 ==> size > 0 && Pow2(8 * (size - 1)) <= v)
  }

  lemma BytesOfBits(v: nat, bits: nat)
    requires IsBits(v, bits)
    ensures IsByteSize(v, (bits + 7) / 8)
  {
    var size := (bits + 7) / 8;
    if v > 0 {
      Pow2Monotone(bits, 8 * size);
      Pow2Monotone(8 * (size - 1), bits - 1);
    }
  }

  function Low64(s: seq<Limb>): nat
    requires |s| >= 2
  {
    s[0] + BASE * s[1]
  }

  lemma Low64Value(s: seq<Limb>)
    requires |s| >= 2 && Value(s) < BASE
    ensures Low64(s) == Value(s)
  {
    ValuePrefix(s, 2);
    assert s[..2][1..] == [s[1]];
    assert Value(s[..2]) == Low64(s);
    assert Size(2) == BASE * BASE;
    hide Value;
    SmallMod(Value(s), Size(2));
  }

  /** The three most significant bytes of `v`, as many as there are. */
  function TopBytes(v: nat, size: nat): int {
    if size <= 3 then v * Pow2(8 * (3 - size)) else v / Pow2(8 * (size - 3))
  }

  lemma TopBytesRange(v: nat, size: nat)
    requires IsByteSize(v, size)
    ensures 0 <= TopBytes(v, size) < 0x100_0000 && (v > 0 ==> TopBytes(v, size) >= 0x1_0000)
    ensures size <= 3 ==> v < BASE
  {
    Bytes(1);
    Bytes(2);
    Pow2Sum(8, 16);
    Pow2Limb();
    if size <= 3 {
      var p := Pow2(8 * (3 - size));
      Pow2Sum(8 * size, 8 * (3 - size));
      Pow2Monotone(8 * size, 32);
      assert Pow2(24) == 0x100_0000;
      if v > 0 {
        Pow2Sum(8 * (size - 1), 8 * (3 - size));
        SmallRange(v, Pow2(8 * (size - 1)), Pow2(8 * size), p);
      }
    } else {
      var p := Pow2(8 * (size - 3));
      Pow2Sum(24, 8 * (size - 3));
      Pow2Sum(16, 8 * (size - 3));
      LargeRange(v, 0x1_0000, 0x100_0000, p);
    }
  }

  lemma SmallRange(v: nat, low: nat, high: nat, p: nat)
    requires low <= v < high && p > 0
    ensures low * p <= v * p < high * p
  {
    MulLess(v, high, p);
    if low < v {
      MulLess(low, v, p);
    }
  }

  lemma LargeRange(v: nat, low: nat, high: nat, p: nat)
    requires low * p <= v < high * p && p > 0
    ensures low <= v / p < high
  {
    Divided(v, p);
    if v / p < low {
      MulLess(v / p, low, p);
    }
    if v / p >= high {
      if v / p > high {
        MulLess(high, v / p, p);
      }
    }
  }

  /** Put the parts of a compact form together. */
  function Assembled(size: nat, mantissa: nat, signed: bool): nat {
    size * SIZE_UNIT + (if signed then SIGN_BIT else 0) + mantissa
  }

  lemma AssembledParts(size: nat, mantissa: nat, signed: bool)
    requires size < 256 && mantissa < SIGN_BIT
    ensures var c := Assembled(size, mantissa, signed);
            c < BASE && ByteSize(c) == size && Mantissa(c) == mantissa && Signed(c) == signed
  {
  }

  /** A number in compact form.  It keeps the most significant bytes, at least fifteen bits of them:
      what the form denotes is the number without the bytes below. */
  method GetCompact(a: array<Limb>, negative: bool) returns (c: Limb)
    requires a.Length == WIDTH
    ensures Denoted(c) == (if ByteSize(c) <= 3 then Value(a[..])
                           else Value(a[..]) - Value(a[..]) % Pow2(8 * (ByteSize(c) - 3)))
    ensures Value(a[..]) > 0 ==> Mantissa(c) >= 0x8000
    ensures Signed(c) <==> negative && Value(a[..]) > 0
  {
    hide Value, Size, Pow2, IsBits, IsByteSize, Denoted, ByteSize, Mantissa, Signed, Low64;
    ghost var v := Value(a[..]);
    var bits := Bits(a);
    var size := (bits + 7) / 8;
    BytesOfBits(v, bits);
    TopBytesRange(v, size);
    var compact: nat;
    if size <= 3 {
      Low64Value(a[..]);
      compact := Low64(a[..]) * Pow2(8 * (3 - size));
    } else {
      var bn := new Limb[a.Length](i requires 0 <= i < a.Length reads a => a[i]);
      assert bn[..] == a[..];
      ShiftRight(bn, 8 * (size - 3));
      Low64Value(bn[..]);
      compact := Low64(bn[..]);
    }
    assert compact == TopBytes(v, size);
    CompactDenotes(v, size, compact);
    if compact >= SIGN_BIT {
      compact := compact / 0x100;
      size := size + 1;
    }
    AssembledParts(size, compact, negative && compact != 0);
    DenotedIs(Assembled(size, compact, negative && compact != 0));
    c := Assembled(size, compact, negative && compact != 0);
  }

  lemma DenotedIs(c: Limb)
    ensures ByteSize(c) <= 3 ==> Denoted(c) == Mantissa(c) / Pow2(8 * (3 - ByteSize(c)))
    ensures ByteSize(c) > 3 ==> Denoted(c) == Mantissa(c) * Pow2(8 * (ByteSize(c) - 3))
  {
  }

  /** What the two possible normal forms denote. */
  lemma CompactDenotes(v: nat, size: nat, m: nat)
    requires IsByteSize(v, size) && m == TopBytes(v, size) < 0x100_0000 && (v > 0 ==> m >= 0x1_0000)
    ensures v == 0 ==> m == 0
    ensures size <= 3 ==> m / Pow2(8 * (3 - size)) == v
    ensures size > 3 ==> m * Pow2(8 * (size - 3)) == v - v % Pow2(8 * (size - 3))
    ensures size + 1 <= 3 ==> (m / 0x100) / Pow2(8 * (3 - size - 1)) == v
    ensures size + 1 > 3 ==> (m / 0x100) * Pow2(8 * (size + 1 - 3)) == v - v % Pow2(8 * (size + 1 - 3))
  {
    Bytes(1);
    if size <= 3 {
      var p := Pow2(8 * (3 - size));
      Quotient(m, p, v, 0);
      if size < 3 {
        Pow2Sum(8, 8 * (3 - size - 1));
        DivideTwice(m, 0x100, Pow2(8 * (3 - size - 1)));
      } else {
        assert Pow2(0) == 1;
        Divided(v, 0x100);
      }
    } else {
      var p := Pow2(8 * (size - 3));
      Divided(v, p);
      Pow2Sum(8 * (size - 3), 8);
      DivideTwice(v, p, 0x100);
      Divided(v, p * 0x100);
    }
  }

  // ---------------------------------------------------------------------------------------------
  // Work

  /** A compact form that stands for a target: positive and within 256 bits. */
  predicate IsTarget(c: Limb) {
    !(Reduced(c) != 0 && Signed(c)) && 0 < Denoted(c) < Pow2(256)
  }

  /** The work of a block is what 2^256 divided by one more than its target gives, and nothing if the
      target makes no sense.  No intermediate result wraps around. */
  method GetBlockProof(c: Limb) returns (r: array<Limb>)
    ensures fresh(r) && r.Length == WIDTH
    ensures Value(r[..]) == if IsTarget(c) then Pow2(256) / (Denoted(c) + 1) else 0
  {
    hide Value, Size, Pow2, Denoted, Reduced, Signed;
    var target := new Limb[WIDTH](_ => 0);
    SizeIsPow2(WIDTH);
    var negative, overflow := SetCompact(target, c);
    r := new Limb[WIDTH](_ => 0);
    assert r[..] == Zeros(WIDTH);
    ZerosValue(WIDTH);
    ghost var t := Denoted(c);
    var order := CompareTo(target, r);
    if negative || overflow || order == 0 {
      ZeroMod(t);
      return;
    }
    SmallMod(t, Pow2(256));
    RoomAbove(c);
    var one := new Limb[WIDTH](_ => 0);
    SetWord(one, 1);
    r := Not(target);
    Add(target, one);
    SmallMod(t + 1, Pow2(256));
    var ok := Divide(r, target);
    ProofArithmetic(t, Pow2(256));
    Add(r, one);
    SmallMod(Pow2(256) / (t + 1), Pow2(256));
  }

  lemma ZeroMod(t: nat)
    ensures t < Pow2(256) ==> t % Pow2(256) == t
  {
    if t < Pow2(256) {
      SmallMod(t, Pow2(256));
    }
  }

  /** A target with a mantissa of 23 bits leaves room for one more. */
  lemma RoomAbove(c: Limb)
    requires Denoted(c) < Pow2(256)
    ensures Denoted(c) + 1 < Pow2(256)
  {
    var size, word := ByteSize(c), Mantissa(c);
    Pow2Limb();
    Pow2Monotone(33, 256);
    if size <= 3 {
      WordShrinks(word, 8 * (3 - size));
    } else {
      var p := Pow2(8 * (size - 3));
      Pow2Step(8 * (size - 3) - 1);
      Pow2Step(255);
      hide Pow2;
      EvenBelow(word, p, Pow2(8 * (size - 3) - 1), Pow2(255));
    }
  }

  /** A multiple of an even number below an even bound is two or more below it. */
  lemma EvenBelow(word: nat, p: nat, half: nat, bound: nat)
    requires p == 2 * half && word * p < 2 * bound
    ensures word * p + 1 < 2 * bound
  {
    assert word * (2 * half) == 2 * (word * half);
  }

  lemma ProofArithmetic(t: nat, m: nat)
    requires 0 < t && t + 1 < m
    ensures (m - 1 - t) / (t + 1) + 1 == m / (t + 1) < m
  {
    Divided(m - 1 - t, t + 1);
    var q := (m - 1 - t) / (t + 1);
    assert (q + 1) * (t + 1) == q * (t + 1) + (t + 1);
    Quotient(m, t + 1, q + 1, (m - 1 - t) % (t + 1));
    QuotientNonNegative(m - 1 - t, t + 1);
    MulLess(q, q + 1, t);
    assert (q + 1) * (t + 1) == (q + 1) * t + (q + 1);
    assert (q + 1) * t > 0 by {
      MulLess(0, q + 1, t);
    }
  }
}
