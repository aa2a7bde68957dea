/** Orders of transactions, their splitting into groups, and their chunking. */
module Linearizations {
  import opened FeeRate
  import opened DepGraphs

  // ----- Fees of an order -----

  function Fees(g: Graph, lin: seq<nat>): (f: seq<FeeFrac>)
    ensures |f| == |lin|
  {
    seq(|lin|, i requires 0 <= i < |lin| => g.FeeRate(lin[i]))
  }

  function Total(g: Graph, lin: seq<nat>): FeeFrac {
    Sum(Fees(g, lin))
  }

  ghost predicate AllSized(g: Graph, lin: seq<nat>) {
    forall i | 0 <= i < |lin| :: g.FeeRate(lin[i]).size > 0
  }

  lemma FeesConcat(g: Graph, a: seq<nat>, b: seq<nat>)
    ensures Fees(g, a + b) == Fees(g, a) + Fees(g, b)
    ensures Total(g, a + b) == Plus(Total(g, a), Total(g, b))
  {
    assert Fees(g, a + b) == Fees(g, a) + Fees(g, b);
    SumConcat(Fees(g, a), Fees(g, b));
  }

  lemma TotalSized(g: Graph, lin: seq<nat>)
    requires AllSized(g, lin)
    ensures Positive(Fees(g, lin))
    ensures lin != [] ==> Total(g, lin).size > 0
  {
    SumPositive(Fees(g, lin));
  }

  // ----- Groups -----

  function Flatten(groups: seq<seq<nat>>): seq<nat> {
    if groups == [] then [] else groups[0] + Flatten(groups[1..])
  }

  function Totals(g: Graph, groups: seq<seq<nat>>): (t: seq<FeeFrac>)
    ensures |t| == |groups|
  {
    seq(|groups|, i requires 0 <= i < |groups| => Total(g, groups[i]))
  }

  lemma {:induction false} FlattenConcat(a: seq<seq<nat>>, b: seq<seq<nat>>)
    ensures Flatten(a + b) == Flatten(a) + Flatten(b)
  {
    if a == [] {
      assert a + b == b;
    } else {
      assert (a + b)[1..] == a[1..] + b;
      FlattenConcat(a[1..], b);
    }
  }

  lemma FlattenLast(a: seq<seq<nat>>, c: seq<nat>)
    ensures Flatten(a + [c]) == Flatten(a) + c
  {
    FlattenConcat(a, [c]);
    assert Flatten([c]) == c + Flatten([]) == c;
  }

  /** Splitting inside a group never beats splitting at its ends. */
  ghost predicate Solid(g: Graph, group: seq<nat>) {
    group != [] && forall l: real :: Best(Fees(g, group), l) == Max(0.0, Gain(Total(g, group), l))
  }

  /** Every shorter non-empty prefix has a strictly lower feerate than the whole group. */
  ghost predicate Tight(g: Graph, group: seq<nat>) {
    group != [] && forall k | 0 < k < |group| :: Lower(Total(g, group[..k]), Total(g, group))
  }

  ghost predicate AllSolid(g: Graph, groups: seq<seq<nat>>) {
    forall i | 0 <= i < |groups| :: Solid(g, groups[i])
  }

  lemma SingletonTight(g: Graph, t: nat)
    ensures Tight(g, [t]) && Total(g, [t]) == g.FeeRate(t)
  {
    hide Lower;
    assert Fees(g, [t]) == [g.FeeRate(t)];
    SumSingle(g.FeeRate(t));
  }

  lemma PrefixGain(g: Graph, group: seq<nat>, k: nat, l: real)
    requires Tight(g, group) && AllSized(g, group) && k <= |group|
    ensures Gain(Total(g, group[..k]), l) <= Max(0.0, Gain(Total(g, group), l))
  {
    if k == 0 {
      assert group[..0] == [];
    } else if k == |group| {
      assert group[..k] == group;
    } else {
      var a, b, w := Total(g, group[..k]), Total(g, group[k..]), Total(g, group);
      assert group == group[..k] + group[k..];
      FeesConcat(g, group[..k], group[k..]);
      TotalSized(g, group[..k]);
      TotalSized(g, group[k..]);
      HigherIsRate(a, w);
      GainSign(a, l);
      GainSign(b, l);
      GainSign(w, l);
      GainPlus(a, b, l);
      assert Rate(b) > Rate(w) by { RemainderRate(a, b, w); }
    }
  }

  /** Taking away a part of lower feerate leaves a part of higher feerate. */
  lemma RemainderRate(a: FeeFrac, b: FeeFrac, w: FeeFrac)
    requires a.size > 0 && b.size > 0 && w == Plus(a, b) && Rate(a) < Rate(w)
    ensures Rate(b) > Rate(w)
  {
    GainSign(a, Rate(w));
    GainSign(b, Rate(w));
    GainSign(w, Rate(w));
    GainPlus(a, b, Rate(w));
  }

  lemma TightIsSolid(g: Graph, group: seq<nat>)
    requires Tight(g, group) && AllSized(g, group)
    ensures Solid(g, group)
  {
    forall l: real ensures Best(Fees(g, group), l) == Max(0.0, Gain(Total(g, group), l)) {
      var f := Fees(g, group);
      var k := BestAttained(f, l);
      assert f[..k] == Fees(g, group[..k]);
      PrefixGain(g, group, k, l);
      BestAtLeast(f, |f|, l);
      assert f[..|f|] == f;
      BestNonNegative(f, l);
    }
  }

  /** A lower-feerate group followed by a higher-feerate one makes a tight group. */
  lemma MergeTight(g: Graph, p: seq<nat>, c: seq<nat>)
    requires Tight(g, p) && Tight(g, c) && AllSized(g, p) && AllSized(g, c)
    requires Higher(Total(g, c), Total(g, p))
    ensures Tight(g, p + c) && AllSized(g, p + c)
    ensures Total(g, p + c) == Plus(Total(g, c), Total(g, p))
  {
    FeesConcat(g, p, c);
    forall k | 0 < k < |p + c| ensures Lower(Total(g, (p + c)[..k]), Total(g, p + c)) {
      if k <= |p| {
        assert (p + c)[..k] == p[..k];
        MergePrefixLow(g, p, c, k);
      } else {
        assert (p + c)[..k] == p + c[..k - |p|];
        MergePrefixHigh(g, p, c, k - |p|);
      }
    }
  }

  lemma MergePrefixLow(g: Graph, p: seq<nat>, c: seq<nat>, k: nat)
    requires Tight(g, p) && AllSized(g, p) && AllSized(g, c) && c != []
    requires Higher(Total(g, c), Total(g, p)) && 0 < k <= |p|
    ensures Lower(Total(g, p[..k]), Plus(Total(g, p), Total(g, c)))
  {
    var a, x, y := Total(g, p[..k]), Total(g, p), Total(g, c);
    TotalSized(g, p[..k]);
    TotalSized(g, p);
    TotalSized(g, c);
    var w := Plus(x, y);
    HigherIsRate(y, x);
    HigherIsRate(a, x);
    HigherIsRate(a, w);
    if k == |p| {
      assert p[..k] == p;
    }
    AverageRate(x, y);
  }

  lemma MergePrefixHigh(g: Graph, p: seq<nat>, c: seq<nat>, k: nat)
    requires p != [] && Tight(g, c) && AllSized(g, p) && AllSized(g, c)
    requires Higher(Total(g, c), Total(g, p)) && 0 < k < |c|
    ensures Lower(Total(g, p + c[..k]), Plus(Total(g, p), Total(g, c)))
  {
    var x, a, b, y := Total(g, p), Total(g, c[..k]), Total(g, c[k..]), Total(g, c);
    assert c == c[..k] + c[k..];
    FeesConcat(g, c[..k], c[k..]);
    FeesConcat(g, p, c[..k]);
    TotalSized(g, p);
    TotalSized(g, c);
    TotalSized(g, c[..k]);
    TotalSized(g, c[k..]);
    var w, v := Plus(x, y), Plus(x, a);
    HigherIsRate(y, x);
    HigherIsRate(a, y);
    HigherIsRate(v, w);
    AverageRate(x, y);
    RemainderRate(a, b, y);
    // w is v followed by b, and b has the higher feerate.
    GainSign(v, Rate(w));
    GainSign(b, Rate(w));
    GainSign(w, Rate(w));
    GainPlus(v, b, Rate(w));
    assert w == Plus(v, b);
  }

  lemma AverageRate(x: FeeFrac, y: FeeFrac)
    requires x.size > 0 && y.size > 0 && Rate(y) > Rate(x)
    ensures Rate(x) < Rate(Plus(x, y)) < Rate(y)
  {
    var w := Plus(x, y);
    GainSign(x, Rate(x));
    GainSign(y, Rate(x));
    GainSign(w, Rate(x));
    GainPlus(x, y, Rate(x));
    GainSign(x, Rate(y));
    GainSign(y, Rate(y));
    GainSign(w, Rate(y));
    GainPlus(x, y, Rate(y));
  }

  /** For solid groups only the group boundaries matter. */
  lemma {:induction false} BestOfGroups(g: Graph, groups: seq<seq<nat>>, l: real)
    requires AllSolid(g, groups)
    ensures Best(Fees(g, Flatten(groups)), l) == Best(Totals(g, groups), l)
    ensures Total(g, Flatten(groups)) == Sum(Totals(g, groups))
  {
    if groups == [] {
      assert Fees(g, []) == [];
    } else {
      var head, tail := groups[0], groups[1..];
      BestOfGroups(g, tail, l);
      FeesConcat(g, head, Flatten(tail));
      BestConcat(Fees(g, head), Fees(g, Flatten(tail)), l);
      assert Totals(g, groups)[1..] == Totals(g, tail);
      assert Solid(g, head);
      BestNonNegative(Totals(g, tail), l);
    }
  }
}
