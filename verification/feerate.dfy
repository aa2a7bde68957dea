/** Fees with sizes, compared by feerate, and the feerate diagram of a sequence of them.

    A linearization is compared with another through its *feerate diagram*: the concave,
    piecewise linear curve through the cumulative (size, fee) points of its chunks. `DiagramAt`
    is that curve. Most proofs use its dual instead: for a slope `l`, `Best(s, l)` is the largest
    value of fee - l*size over the prefixes of `s`. `DiagramDuality` proves that comparing the
    two is the same thing. */
module FeeRate {

  /** Fee and size of a transaction or of a set of transactions (unbounded integers). */
  datatype FeeFrac = FeeFrac(fee: int, size: int)

  function Plus(a: FeeFrac, b: FeeFrac): FeeFrac {
    FeeFrac(a.fee + b.fee, a.size + b.size)
  }

  function Negated(a: FeeFrac): FeeFrac {
    FeeFrac(-a.fee, a.size)
  }

  /** Strictly higher feerate, by cross multiplication; never true of the empty value. */
  predicate Higher(a: FeeFrac, b: FeeFrac) {
    a.fee * b.size > b.fee * a.size
  }

  /** Strictly lower feerate. */
  predicate Lower(a: FeeFrac, b: FeeFrac) {
    a.fee * b.size < b.fee * a.size
  }

  function FeeSum(s: seq<FeeFrac>): int {
    if s == [] then 0 else s[0].fee + FeeSum(s[1..])
  }

  function SizeSum(s: seq<FeeFrac>): int {
    if s == [] then 0 else s[0].size + SizeSum(s[1..])
  }

  /** Aggregate fee and size. */
  function Sum(s: seq<FeeFrac>): FeeFrac {
    FeeFrac(FeeSum(s), SizeSum(s))
  }

  predicate Positive(s: seq<FeeFrac>) {
    forall i | 0 <= i < |s| :: s[i].size > 0
  }

  ghost function Rate(a: FeeFrac): real
    requires a.size > 0
  {
    a.fee as real / a.size as real
  }

  /** Height at `x` of the line of slope `l` through the origin. */
  ghost function Line(l: real, x: real): real {
    l * x
  }

  /** How far `a` lies above the line of slope `l` through the origin. */
  ghost function Gain(a: FeeFrac, l: real): real {
    a.fee as real - Line(l, a.size as real)
  }

  ghost function Max(a: real, b: real): real {
    if a >= b then a else b
  }

  /** Largest gain of a prefix of `s`, the empty prefix included. */
  ghost function Best(s: seq<FeeFrac>, l: real): real {
    if s == [] then 0.0 else Max(0.0, Gain(s[0], l) + Best(s[1..], l))
  }

  /** The diagram of `a` is nowhere below that of `b` (in dual form, see DiagramDuality). */
  ghost predicate AtLeastAsGood(a: seq<FeeFrac>, b: seq<FeeFrac>) {
    forall l: real :: Best(a, l) >= Best(b, l)
  }

  // ----- Gain and feerate -----

  lemma GainSign(a: FeeFrac, l: real)
    requires a.size > 0
    ensures Gain(a, l) == a.size as real * (Rate(a) - l)
    ensures Gain(a, l) > 0.0 <==> Rate(a) > l
    ensures Gain(a, l) < 0.0 <==> Rate(a) < l
  {
    var s := a.size as real;
    var r := Rate(a);
    assert s * r == a.fee as real;
    assert s * (r - l) == s * r - s * l;
    SignOfProduct(s, r - l);
  }

  lemma SignOfProduct(s: real, d: real)
    requires s > 0.0
    ensures s * d > 0.0 <==> d > 0.0
    ensures s * d < 0.0 <==> d < 0.0
  {
  }

  lemma ScaleMonotone(d: real, x: real, s: real)
    requires d >= 0.0 && x <= s
    ensures d * x <= d * s
  {
    assert d * (s - x) >= 0.0;
    assert d * (s - x) == d * s - d * x;
  }

  lemma HigherIsRate(a: FeeFrac, b: FeeFrac)
    requires a.size > 0 && b.size > 0
    ensures Higher(a, b) <==> Rate(a) > Rate(b)
    ensures Lower(a, b) <==> Rate(a) < Rate(b)
  {
    var sa, sb := a.size as real, b.size as real;
    var ra, rb := Rate(a), Rate(b);
    assert sa * ra == a.fee as real && sb * rb == b.fee as real;
    assert (a.fee * b.size) as real == (sa * ra) * sb;
    assert (b.fee * a.size) as real == (sb * rb) * sa;
    assert (sa * ra) * sb - (sb * rb) * sa == (sa * sb) * (ra - rb);
    assert sa * sb > 0.0;
    SignOfProduct(sa * sb, ra - rb);
  }

  lemma GainSlope(x: FeeFrac, l: real, r: real)
    requires x.size >= 0 && l <= r
    ensures Gain(x, l) >= Gain(x, r)
  {
    ScaleMonotone(r - l, 0.0, x.size as real);
    assert Gain(x, l) - Gain(x, r) == (r - l) * x.size as real;
  }

  lemma GainPlus(a: FeeFrac, b: FeeFrac, l: real)
    ensures Gain(Plus(a, b), l) == Gain(a, l) + Gain(b, l)
  {
    assert l * (a.size as real + b.size as real) == l * a.size as real + l * b.size as real;
  }

  // ----- Sums -----

  lemma {:induction false} SumConcat(a: seq<FeeFrac>, b: seq<FeeFrac>)
    ensures Sum(a + b) == Plus(Sum(a), Sum(b))
  {
    if a == [] {
      assert a + b == b;
    } else {
      assert (a + b)[1..] == a[1..] + b;
      SumConcat(a[1..], b);
    }
  }

  lemma SumSingle(a: FeeFrac)
    ensures Sum([a]) == a
  {
    assert [a][1..] == [];
    assert FeeSum([a]) == a.fee + FeeSum([]) && SizeSum([a]) == a.size + SizeSum([]);
  }

  lemma {:induction false} SumPositive(s: seq<FeeFrac>)
    requires Positive(s)
    ensures Sum(s).size >= 0
    ensures s != [] ==> Sum(s).size > 0
  {
    if s != [] {
      SumPositive(s[1..]);
    }
  }

  // ----- Best -----

  lemma {:induction false} BestConcat(a: seq<FeeFrac>, b: seq<FeeFrac>, l: real)
    ensures Best(a + b, l) == Max(Best(a, l), Gain(Sum(a), l) + Best(b, l))
    ensures Best(a, l) >= 0.0
  {
    if a == [] {
      assert a + b == b;
      BestNonNegative(b, l);
    } else {
      assert (a + b)[1..] == a[1..] + b;
      BestConcat(a[1..], b, l);
      GainPlus(a[0], Sum(a[1..]), l);
    }
  }

  lemma BestNonNegative(s: seq<FeeFrac>, l: real)
    ensures Best(s, l) >= 0.0
  {
  }

  /** Every prefix gains at most Best. */
  lemma {:induction false} BestAtLeast(s: seq<FeeFrac>, k: nat, l: real)
    requires k <= |s|
    ensures Best(s, l) >= Gain(Sum(s[..k]), l)
  {
    assert s == s[..k] + s[k..];
    BestConcat(s[..k], s[k..], l);
    BestNonNegative(s[k..], l);
  }

  /** Some prefix gains exactly Best. */
  lemma {:induction false} BestAttained(s: seq<FeeFrac>, l: real) returns (k: nat)
    ensures k <= |s| && Best(s, l) == Gain(Sum(s[..k]), l)
  {
    if s == [] || Gain(s[0], l) + Best(s[1..], l) <= 0.0 {
      k := 0;
      assert s[..0] == [];
    } else {
      var j := BestAttained(s[1..], l);
      k := j + 1;
      assert s[..k] == [s[0]] + s[1..][..j];
      assert s[..k][1..] == s[1..][..j];
      GainPlus(s[0], Sum(s[1..][..j]), l);
    }
  }

  lemma AtLeastAsGoodTransitive(a: seq<FeeFrac>, b: seq<FeeFrac>, c: seq<FeeFrac>)
    requires AtLeastAsGood(a, b) && AtLeastAsGood(b, c)
    ensures AtLeastAsGood(a, c)
  {
    forall l: real ensures Best(a, l) >= Best(c, l) {
      assert Best(a, l) >= Best(b, l);
    }
  }

  /** Putting the same prefix before both sides keeps the comparison. */
  lemma AtLeastAsGoodAfter(x: seq<FeeFrac>, a: seq<FeeFrac>, b: seq<FeeFrac>)
    requires AtLeastAsGood(a, b)
    ensures AtLeastAsGood(x + a, x + b)
  {
    forall l: real ensures Best(x + a, l) >= Best(x + b, l) {
      BestConcat(x, a, l);
      BestConcat(x, b, l);
    }
  }

  // ----- Reversal: a pass from the back is a pass from the front on the mirrored sequence -----

  function Mirror(s: seq<FeeFrac>): seq<FeeFrac> {
    if s == [] then [] else Mirror(s[1..]) + [Negated(s[0])]
  }

  lemma {:induction false} MirrorSum(s: seq<FeeFrac>, l: real)
    ensures Gain(Sum(Mirror(s)), -l) == -Gain(Sum(s), l)
  {
    if s != [] {
      MirrorSum(s[1..], l);
      SumConcat(Mirror(s[1..]), [Negated(s[0])]);
      SumSingle(Negated(s[0]));
      GainPlus(Sum(Mirror(s[1..])), Negated(s[0]), -l);
      GainPlus(s[0], Sum(s[1..]), l);
    }
  }

  lemma BestSingle(a: FeeFrac, l: real)
    ensures Best([a], l) == Max(0.0, Gain(a, l))
  {
    assert [a][1..] == [];
  }

  lemma NegatedGain(a: FeeFrac, l: real)
    ensures Gain(Negated(a), -l) == -Gain(a, l)
  {
    assert (-l) * a.size as real == -(l * a.size as real);
  }

  lemma {:induction false} MirrorBest(s: seq<FeeFrac>, l: real)
    ensures Best(Mirror(s), -l) == Best(s, l) - Gain(Sum(s), l)
  {
    if s != [] {
      var n, t := Negated(s[0]), s[1..];
      MirrorBest(t, l);
      MirrorSum(t, l);
      BestConcat(Mirror(t), [n], -l);
      BestSingle(n, -l);
      NegatedGain(s[0], l);
      GainPlus(s[0], Sum(t), l);
    }
  }

  /** Mirroring both sides preserves the comparison, when the totals agree. */
  lemma MirrorKeepsComparison(a: seq<FeeFrac>, b: seq<FeeFrac>)
    requires Sum(a) == Sum(b)
    requires AtLeastAsGood(Mirror(a), Mirror(b))
    ensures AtLeastAsGood(a, b)
  {
    forall l: real ensures Best(a, l) >= Best(b, l) {
      MirrorBest(a, l);
      MirrorBest(b, l);
      assert Best(Mirror(a), -l) >= Best(Mirror(b), -l);
    }
  }

  // ----- The diagram itself -----

  /** Height of the diagram at size `x`: chunk after chunk, linear inside each chunk. */
  ghost function DiagramAt(cs: seq<FeeFrac>, x: real): real
    requires Positive(cs)
  {
    if cs == [] then 0.0
    else if x <= cs[0].size as real then Line(Rate(cs[0]), x)
    else cs[0].fee as real + DiagramAt(cs[1..], x - cs[0].size as real)
  }

  ghost predicate NonIncreasing(cs: seq<FeeFrac>)
    requires Positive(cs)
  {
    forall i, j | 0 <= i < j < |cs| :: Rate(cs[i]) >= Rate(cs[j])
  }

  ghost predicate InRange(cs: seq<FeeFrac>, x: real) {
    0.0 <= x <= Sum(cs).size as real
  }

  lemma ChunkBelowLine(c: FeeFrac, x: real, l: real)
    requires c.size > 0 && 0.0 <= x <= c.size as real
    ensures Line(Rate(c), x) <= Line(l, x) + Max(0.0, Gain(c, l))
  {
    var d := Rate(c) - l;
    GainSign(c, l);
    assert d * x == Rate(c) * x - l * x;
    if d <= 0.0 {
      assert d * x <= 0.0;
    } else {
      ScaleMonotone(d, x, c.size as real);
    }
  }

  lemma LineAtZero(l: real)
    ensures Line(l, 0.0) == 0.0
  {
  }

  lemma ShiftLine(l: real, x: real, s: real)
    ensures Line(l, x - s) == Line(l, x) - Line(l, s)
  {
  }

  /** Every line lies above the diagram once shifted up by Best. */
  lemma {:induction false} DiagramBelowLine(cs: seq<FeeFrac>, x: real, l: real)
    requires Positive(cs) && InRange(cs, x)
    ensures DiagramAt(cs, x) <= Line(l, x) + Best(cs, l)
  {
    LineAtZero(l);
    hide Rate, Line;
    if cs == [] {
      assert x == 0.0;
    } else if x <= cs[0].size as real {
      ChunkBelowLine(cs[0], x, l);
      BestNonNegative(cs[1..], l);
    } else {
      DiagramBelowLine(cs[1..], x - cs[0].size as real, l);
      ShiftLine(l, x, cs[0].size as real);
    }
  }

  lemma {:induction false} BestOfSteep(cs: seq<FeeFrac>, l: real)
    requires Positive(cs)
    requires forall i | 0 <= i < |cs| :: Rate(cs[i]) <= l
    ensures Best(cs, l) == 0.0
  {
    if cs != [] {
      GainSign(cs[0], l);
      BestOfSteep(cs[1..], l);
    }
  }

  /** At every point the diagram of sorted chunks touches some supporting line. */
  lemma {:induction false} DiagramTouchesLine(cs: seq<FeeFrac>, x: real) returns (l: real, i: nat)
    requires Positive(cs) && NonIncreasing(cs) && InRange(cs, x) && cs != []
    ensures i < |cs| && l == Rate(cs[i])
    ensures DiagramAt(cs, x) == Line(l, x) + Best(cs, l)
  {
    hide Rate, Line;
    if x <= cs[0].size as real {
      l, i := Rate(cs[0]), 0;
      BestOfSteep(cs, l);
    } else {
      var rest := cs[1..];
      TailNonIncreasing(cs);
      assert Sum(cs).size == cs[0].size + SizeSum(rest);
      var k;
      l, k := DiagramTouchesLine(rest, x - cs[0].size as real);
      i := k + 1;
      FirstChunkGains(cs, i, l);
      ShiftLine(l, x, cs[0].size as real);
    }
  }

  lemma TailNonIncreasing(cs: seq<FeeFrac>)
    requires Positive(cs) && NonIncreasing(cs) && cs != []
    ensures Positive(cs[1..]) && NonIncreasing(cs[1..])
  {
    var rest := cs[1..];
    forall i, j | 0 <= i < j < |rest| ensures Rate(rest[i]) >= Rate(rest[j]) {
      assert rest[i] == cs[i + 1] && rest[j] == cs[j + 1];
    }
  }

  lemma FirstChunkGains(cs: seq<FeeFrac>, i: nat, l: real)
    requires Positive(cs) && NonIncreasing(cs) && 0 < i < |cs| && l == Rate(cs[i])
    ensures Best(cs, l) == Gain(cs[0], l) + Best(cs[1..], l)
  {
    GainSign(cs[0], l);
    BestNonNegative(cs[1..], l);
  }

  /** A point that gains no more than Best at any slope lies on or below the diagram. */
  lemma PointBelowDiagram(cs: seq<FeeFrac>, a: FeeFrac)
    requires Positive(cs) && NonIncreasing(cs) && InRange(cs, a.size as real)
    requires forall l: real :: Gain(a, l) <= Best(cs, l)
    ensures DiagramAt(cs, a.size as real) >= a.fee as real
  {
    if cs == [] {
      assert Gain(a, 0.0) <= Best(cs, 0.0);
      GainAtZero(a);
    } else {
      hide Best, DiagramAt, Rate, Line;
      var l, _ := DiagramTouchesLine(cs, a.size as real);
      assert Gain(a, l) <= Best(cs, l);
    }
  }

  lemma GainAtZero(a: FeeFrac)
    ensures Gain(a, 0.0) == a.fee as real
  {
    assert 0.0 * a.size as real == 0.0;
  }

  lemma {:induction false} DiagramAtBoundary(cs: seq<FeeFrac>, k: nat)
    requires Positive(cs) && k <= |cs|
    ensures InRange(cs, Sum(cs[..k]).size as real)
    ensures DiagramAt(cs, Sum(cs[..k]).size as real) == Sum(cs[..k]).fee as real
  {
    SumPositive(cs);
    if k == 0 {
      assert cs[..0] == [];
    } else {
      assert cs[..k][1..] == cs[1..][..k - 1];
      DiagramAtBoundary(cs[1..], k - 1);
      SumPositive(cs[1..][..k - 1]);
      if k == 1 {
        assert cs[1..][..0] == [];
      } else {
        assert cs[1..][..k - 1] != [];
      }
    }
  }

  ghost predicate DiagramNowhereBelow(a: seq<FeeFrac>, b: seq<FeeFrac>)
    requires Positive(a) && Positive(b)
  {
    forall x: real | InRange(a, x) :: DiagramAt(a, x) >= DiagramAt(b, x)
  }

  /** Comparing prefix gains at every slope is comparing diagrams at every size. */
  lemma DiagramDuality(a: seq<FeeFrac>, b: seq<FeeFrac>)
    requires Positive(a) && Positive(b) && NonIncreasing(a)
    requires Sum(a).size == Sum(b).size
    ensures AtLeastAsGood(a, b) <==> DiagramNowhereBelow(a, b)
  {
    if AtLeastAsGood(a, b) {
      forall x: real | InRange(a, x) ensures DiagramAt(a, x) >= DiagramAt(b, x) {
        DiagramFromBest(a, b, x);
      }
    }
    if DiagramNowhereBelow(a, b) {
      forall l: real ensures Best(a, l) >= Best(b, l) {
        BestFromDiagram(a, b, l);
      }
    }
  }

  lemma DiagramFromBest(a: seq<FeeFrac>, b: seq<FeeFrac>, x: real)
    requires Positive(a) && Positive(b) && NonIncreasing(a)
    requires Sum(a).size == Sum(b).size && InRange(a, x)
    requires AtLeastAsGood(a, b)
    ensures DiagramAt(a, x) >= DiagramAt(b, x)
  {
    if a == [] {
      SumPositive(b);
    } else {
      var l, _ := DiagramTouchesLine(a, x);
      assert Best(a, l) >= Best(b, l);
      DiagramBelowLine(b, x, l);
    }
  }

  lemma BestFromDiagram(a: seq<FeeFrac>, b: seq<FeeFrac>, l: real)
    requires Positive(a) && Positive(b)
    requires Sum(a).size == Sum(b).size
    requires DiagramNowhereBelow(a, b)
    ensures Best(a, l) >= Best(b, l)
  {
    hide Rate, Best, DiagramAt, Line;
    var k := BestAttained(b, l);
    var x := Sum(b[..k]).size as real;
    DiagramAtBoundary(b, k);
    assert InRange(a, x);
    assert DiagramAt(a, x) >= DiagramAt(b, x);
    DiagramBelowLine(a, x, l);
  }
}
