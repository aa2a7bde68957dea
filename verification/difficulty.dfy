/** Which changes of difficulty are possible at all. */
module Difficulty {
  import opened Arithmetic
  import opened Limbs
  import opened Arith
  import opened Compact

  /** The parameters of the chain that matter here. */
  datatype DifficultyRules = DifficultyRules(allowMinDifficulty: bool, timespan: nat, spacing: nat, powLimit: nat) {
    predicate Valid() {
      0 < spacing <= timespan < 0x8000_0000_0000_0000 && powLimit < Pow2(256)
    }

    /** The number of blocks between adjustments. */
    function Interval(): (r: nat)
      requires Valid()
      ensures r > 0
    {
      IntervalPositive(timespan, spacing);
      timespan / spacing
    }
  }

  lemma IntervalPositive(a: nat, b: nat)
    requires 0 < b <= a
    ensures a / b > 0
  {
    Divided(a, b);
    if a / b <= 0 {
      MulLess(a / b, 1, b);
    }
  }

  /** What a number becomes in compact form: bytes are dropped until less than 0x800000 is left of it. */
  function Rounded(v: nat): (r: nat) {
    if v < SIGN_BIT then v else 256 * Rounded(v / 256)
  }

  lemma {:induction false} RoundedAt(v: nat, k: nat)
    requires 0x8000 * Pow2(8 * k) <= v < SIGN_BIT * Pow2(8 * k)
    ensures Rounded(v) == v - v % Pow2(8 * k)
  {
    if k > 0 {
      hide Pow2;
      PowByte(k);
      var p, w := Pow2(8 * (k - 1)), v / 256;
      DropByte(v, p);
      RoundedAt(w, k - 1);
      DropByteMod(v, p);
    } else {
      assert v % 1 == 0;
    }
  }

  lemma PowByte(k: nat)
    requires k > 0
    ensures Pow2(8 * k) == 256 * Pow2(8 * (k - 1))
  {
    Pow2Sum(8, 8 * (k - 1));
    assert Pow2(8) == 256;
  }

  lemma DropByte(v: nat, p: nat)
    requires p > 0 && 0x8000 * (256 * p) <= v < SIGN_BIT * (256 * p)
    ensures 0x8000 * p <= v / 256 < SIGN_BIT * p && v >= SIGN_BIT
  {
    Divided(v, 256);
  }

  lemma DropByteMod(v: nat, p: nat)
    requires p > 0
    ensures v - v % (256 * p) == 256 * (v / 256 - (v / 256) % p)
  {
    var w := v / 256;
    Divided(v, 256);
    Divided(w, p);
    var q, r := w / p, w % p;
    assert v == 256 * w + v % 256 && w == q * p + r;
    assert 256 * (q * p + r) == q * (256 * p) + 256 * r;
    MulLess(r, p, 256);
    Quotient(v, 256 * p, q, 256 * r + v % 256);
  }

  /** `c` is the compact form of `v`: it denotes `v` without its low bytes, and keeps at least fifteen bits. */
  predicate IsCompactForm(v: nat, c: Limb) {
    && Denoted(c) == (if ByteSize(c) <= 3 then v else v - v % Pow2(8 * (ByteSize(c) - 3)))
    && (v > 0 ==> Mantissa(c) >= 0x8000)
  }

  lemma CompactFormRounds(v: nat, c: Limb)
    requires IsCompactForm(v, c)
    ensures Denoted(c) == Rounded(v)
  {
    hide Pow2;
    if ByteSize(c) <= 3 {
      WordShrinks(Mantissa(c), 8 * (3 - ByteSize(c)));
    } else if v > 0 {
      var k := ByteSize(c) - 3;
      Bracket(v, Mantissa(c), Pow2(8 * k));
      RoundedAt(v, k);
    } else {
      SmallMod(0, Pow2(8 * (ByteSize(c) - 3)));
    }
  }

  lemma Bracket(v: nat, m: nat, p: nat)
    requires p > 0 && m * p == v - v % p && 0x8000 <= m < SIGN_BIT
    ensures 0x8000 * p <= v < SIGN_BIT * p
  {
    Divided(v, p);
    MulLess(m, SIGN_BIT, p);
    if m > 0x8000 {
      MulLess(0x8000, m, p);
    }
  }

  lemma {:induction false} RoundedBelow(v: nat)
    ensures Rounded(v) <= v
  {
    if v >= SIGN_BIT {
      Divided(v, 256);
      RoundedBelow(v / 256);
    }
  }

  /** The target that a compact form sets. */
  function Target(c: Limb): nat {
    Denoted(c) % Pow2(256)
  }

  /** The target reached if the last period took `span`, and no easier one than allowed, in compact form. */
  function Adjusted(r: DifficultyRules, before: Limb, span: nat): (t: nat)
    requires r.Valid()
  {
    var moved := (Target(before) * (span % BASE)) % Pow2(256);
    QuotientNonNegative(moved, r.timespan);
    Rounded(Min(moved / r.timespan, r.powLimit))
  }

  /** The new difficulty is one that an adjustment can lead to, and between adjustments it stays. */
  predicate PermittedTransition(r: DifficultyRules, height: nat, before: Limb, after: Limb)
    requires r.Valid()
  {
    r.allowMinDifficulty ||
    if height % r.Interval() == 0 then
      Adjusted(r, before, r.timespan / 4) <= Target(after) <= Adjusted(r, before, r.timespan * 4)
    else before == after
  }

  /** The limbs of a number. */
  method SetNumber(a: array<Limb>, v: nat)
    requires v < Size(a.Length)
    modifies a
    ensures Value(a[..]) == v
  {
    hide Value, Size;
    var rest := v;
    var i := 0;
    ghost var n := a.Length;
    assert a[..0] == [];
    NoLimbs();
    while i < a.Length
      invariant 0 <= i <= a.Length == n && 0 <= rest < Size(n - i)
      invariant v == Value(a[..i]) + Size(i) * rest
    {
      ghost var before := a[..i];
      NumberStep(before, rest, n);
      a[i] := rest % BASE;
      assert a[..i + 1] == before + [rest % BASE];
      rest := rest / BASE;
      i := i + 1;
    }
    assert a[..] == a[..n];
    SizeOfNone();
  }

  lemma NoLimbs()
    ensures Value([]) == 0 && Size(0) == 1
  {
  }

  lemma SizeOfNone()
    ensures Size(0) == 1
  {
  }

  lemma NumberStep(done: seq<Limb>, rest: nat, n: nat)
    requires |done| < n && rest < Size(n - |done|)
    ensures 0 <= rest / BASE < Size(n - |done| - 1)
    ensures Value(done + [rest % BASE]) + Size(|done| + 1) * (rest / BASE) == Value(done) + Size(|done|) * rest
  {
    var i := |done|;
    assert Size(n - i) == BASE * Size(n - i - 1);
    Divided(rest, BASE);
    QuotientNonNegative(rest, BASE);
    StillBelow(rest, Size(n - i - 1));
    ValueConcat(done, [rest % BASE]);
    assert [rest % BASE][1..] == [];
    assert Value([rest % BASE]) == rest % BASE;
    SizeSum(i, 1);
    assert Size(1) == BASE * Size(0) == BASE;
    NumberArithmetic(Size(i), rest);
  }

  lemma StillBelow(rest: nat, s: nat)
    requires rest < BASE * s
    ensures rest / BASE < s
  {
    Divided(rest, BASE);
  }

  lemma NumberArithmetic(p: nat, rest: nat)
    ensures p * (rest % BASE) + (p * BASE) * (rest / BASE) == p * rest
  {
    Divided(rest, BASE);
    assert p * rest == p * ((rest / BASE) * BASE + rest % BASE);
  }

  /** Adjust a target for the time a period took, and round it as its compact form does. */
  method AdjustTarget(r: DifficultyRules, before: Limb, span: nat) returns (a: array<Limb>)
    requires r.Valid()
    ensures fresh(a) && a.Length == WIDTH && Value(a[..]) == Adjusted(r, before, span)
  {
    hide Value, Size, Pow2, Denoted, Mantissa, ByteSize, Rounded;
    SizeIsPow2(WIDTH);
    a := new Limb[WIDTH](_ => 0);
    var negative, overflow := SetCompact(a, before);
    MulSmall(a, span % BASE);
    var divisor := new Limb[WIDTH](_ => 0);
    TimespanFits(r);
    SetNumber(divisor, r.timespan);
    var ok := Divide(a, divisor);
    var limit := new Limb[WIDTH](_ => 0);
    SetNumber(limit, r.powLimit);
    var order := CompareTo(a, limit);
    if order > 0 {
      a := limit;
    }
    ghost var v := Value(a[..]);
    var c := GetCompact(a, false);
    CompactFormRounds(v, c);
    RoundedBelow(v);
    ValueBelow(a[..]);
    SmallMod(Denoted(c), Pow2(256));
    negative, overflow := SetCompact(a, c);
  }

  lemma TimespanFits(r: DifficultyRules)
    requires r.Valid()
    ensures r.timespan < Pow2(256)
  {
    Pow2Limb();
    Pow2Sum(32, 32);
    Pow2Monotone(64, 256);
  }

  lemma ValueBelow(s: seq<Limb>)
    requires |s| == WIDTH
    ensures Value(s) < Pow2(256)
  {
    SizeIsPow2(WIDTH);
    ValueBound(s);
  }

  method PermittedDifficultyTransition(r: DifficultyRules, height: nat, before: Limb, after: Limb) returns (ok: bool)
    requires r.Valid()
    ensures ok <==> PermittedTransition(r, height, before, after)
  {
    hide Value, Pow2, Adjusted, Denoted;
    if r.allowMinDifficulty {
      return true;
    }
    if height % r.Interval() == 0 {
      var observed := new Limb[WIDTH](_ => 0);
      var negative, overflow := SetCompact(observed, after);
      var largest := AdjustTarget(r, before, r.timespan * 4);
      var order := CompareTo(largest, observed);
      if order < 0 {
        return false;
      }
      QuotientNonNegative(r.timespan, 4);
      var smallest := AdjustTarget(r, before, r.timespan / 4);
      order := CompareTo(smallest, observed);
      if order > 0 {
        return false;
      }
    } else if before != after {
      return false;
    }
    ok := true;
  }

  /** The rules of the main chain, where halving a target of 0x400000 is a possible adjustment. */
  lemma HalvingPermitted()
    ensures var r := DifficultyRules(false, 1209600, 600, Pow2(224) - 1);
            r.Valid() && r.Interval() == 2016 && PermittedTransition(r, 2016, 0x0340_0000, 0x0320_0000)
  {
    hide Pow2, Denoted, Rounded;
    Pow2Limb();
    Pow2Monotone(32, 224);
    Pow2Monotone(224, 256);
    Pow2Sum(32, 32);
    Pow2Monotone(64, 256);
    ExampleForms();
    ExampleRounded();
    SmallMod(0x40_0000, Pow2(256));
    SmallMod(0x20_0000, Pow2(256));
    SmallMod(0x40_0000 * 302400, Pow2(256));
    SmallMod(0x40_0000 * 4838400, Pow2(256));
  }

  lemma ExampleForms()
    ensures Denoted(0x0340_0000) == 0x40_0000 && Denoted(0x0320_0000) == 0x20_0000
  {
    assert Pow2(0) == 1;
  }

  lemma ExampleRounded()
    ensures Rounded(0x10_0000) == 0x10_0000 && Rounded(0x100_0000) == 0x100_0000
  {
  }
}
