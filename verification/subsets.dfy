/** Restricting an order to a set of transactions, and fees of sets. */
module Subsets {
  import opened FeeRate
  import opened DepGraphs
  import opened Linearizations
  import opened Sequences
  import opened Topology

  ghost function ToSet(s: seq<nat>): set<nat> {
    set x | x in s
  }

  /** The elements of `lin` that are in `keep`, in the same order. */
  function Filter(lin: seq<nat>, keep: set<nat>): (r: seq<nat>)
    ensures forall x :: x in r <==> x in lin && x in keep
    ensures |r| <= |lin|
  {
    if lin == [] then []
    else if lin[0] in keep then [lin[0]] + Filter(lin[1..], keep)
    else Filter(lin[1..], keep)
  }

  /** The elements of `lin` that are not in `drop`, in the same order. */
  ghost function Without(lin: seq<nat>, drop: set<nat>): seq<nat> {
    Filter(lin, ToSet(lin) - drop)
  }

  lemma {:induction false} FilterConcat(a: seq<nat>, b: seq<nat>, keep: set<nat>)
    ensures Filter(a + b, keep) == Filter(a, keep) + Filter(b, keep)
  {
    if a == [] {
      assert a + b == b;
    } else {
      assert (a + b)[1..] == a[1..] + b;
      FilterConcat(a[1..], b, keep);
    }
  }

  lemma {:induction false} FilterNoDuplicates(lin: seq<nat>, keep: set<nat>)
    requires NoDuplicates(lin)
    ensures NoDuplicates(Filter(lin, keep))
  {
    if lin != [] {
      FilterNoDuplicates(lin[1..], keep);
      assert lin[0] !in lin[1..];
    }
  }

  lemma {:induction false} FilterTwice(lin: seq<nat>, a: set<nat>, b: set<nat>)
    requires b <= a
    ensures Filter(Filter(lin, a), b) == Filter(lin, b)
  {
    if lin != [] {
      FilterTwice(lin[1..], a, b);
    }
  }

  /** Only membership of the elements of `lin` matters. */
  lemma {:induction false} FilterAgrees(lin: seq<nat>, a: set<nat>, b: set<nat>)
    requires forall x | x in lin :: x in a <==> x in b
    ensures Filter(lin, a) == Filter(lin, b)
  {
    if lin != [] {
      FilterAgrees(lin[1..], a, b);
    }
  }

  lemma {:induction false} FilterAll(lin: seq<nat>, keep: set<nat>)
    requires forall x | x in lin :: x in keep
    ensures Filter(lin, keep) == lin
  {
    if lin != [] {
      FilterAll(lin[1..], keep);
    }
  }

  lemma {:induction false} FilterNone(lin: seq<nat>, keep: set<nat>)
    requires forall x | x in lin :: x !in keep
    ensures Filter(lin, keep) == []
  {
    if lin != [] {
      FilterNone(lin[1..], keep);
    }
  }

  lemma FilterStep(lin: seq<nat>, keep: set<nat>, i: nat)
    requires i < |lin|
    ensures lin[i] in keep ==> Filter(lin[..i + 1], keep) == Filter(lin[..i], keep) + [lin[i]]
    ensures lin[i] !in keep ==> Filter(lin[..i + 1], keep) == Filter(lin[..i], keep)
  {
    assert lin[..i + 1] == lin[..i] + [lin[i]];
    FilterConcat(lin[..i], [lin[i]], keep);
    assert [lin[i]][1..] == [];
  }

  /** Dropping a prefix `c` of what is kept leaves the rest of the kept order. */
  lemma DropKept(lin: seq<nat>, keep: set<nat>, c: seq<nat>)
    requires NoDuplicates(lin) && c <= Filter(lin, keep)
    ensures Filter(lin, keep - ToSet(c)) == Filter(lin, keep)[|c|..]
  {
    var kept, left := Filter(lin, keep), keep - ToSet(c);
    var rest := kept[|c|..];
    FilterNoDuplicates(lin, keep);
    assert kept == c + rest;
    NoDuplicatesParts(c, rest);
    FilterTwice(lin, keep, left);
    FilterConcat(c, rest, left);
    FilterNone(c, left);
    forall x | x in rest ensures x in left {
      assert x in c + rest;
    }
    FilterAll(rest, left);
  }

  /** Then the first |c| elements of the full order are all gone. */
  lemma DropKeptPrefix(lin: seq<nat>, keep: set<nat>, c: seq<nat>)
    requires NoDuplicates(lin) && c <= Filter(lin, keep)
    ensures Filter(lin, keep - ToSet(c)) == Filter(lin, keep)[|c|..]
    ensures Filter(lin[|c|..], keep - ToSet(c)) == Filter(lin, keep - ToSet(c))
  {
    DropKept(lin, keep, c);
    hide NoDuplicates;
    var left := keep - ToSet(c);
    var a, b := lin[..|c|], lin[|c|..];
    assert lin == a + b;
    FilterConcat(a, b, keep);
    FilterConcat(a, b, left);
    var fa := Filter(a, keep);
    assert fa <= c;
    forall x | x in a ensures x !in left {
      if x in keep {
        assert x in fa;
        assert x in c;
      }
    }
    FilterNone(a, left);
  }

  lemma {:induction false} LengthIsCardinality(s: seq<nat>)
    requires NoDuplicates(s)
    ensures |ToSet(s)| == |s|
  {
    if s != [] {
      LengthIsCardinality(s[1..]);
      assert ToSet(s) == {s[0]} + ToSet(s[1..]);
    }
  }

  // ----- Fees of sets -----

  /** Fees of the members of `s` below `n`, in order of position. */
  function SumBelow(g: Graph, s: set<nat>, n: nat): FeeFrac {
    FeeFrac(FeeBelow(g, s, n), SizeBelow(g, s, n))
  }

  function FeeBelow(g: Graph, s: set<nat>, n: nat): int {
    if n == 0 then 0 else FeeBelow(g, s, n - 1) + if n - 1 in s then g.FeeRate(n - 1).fee else 0
  }

  function SizeBelow(g: Graph, s: set<nat>, n: nat): int {
    if n == 0 then 0 else SizeBelow(g, s, n - 1) + if n - 1 in s then g.FeeRate(n - 1).size else 0
  }

  /** Aggregate fee and size of a set of transactions. */
  function SetTotal(g: Graph, s: set<nat>): FeeFrac {
    SumBelow(g, s, |g.entries|)
  }

  lemma {:induction false} SumBelowSplit(g: Graph, s: set<nat>, t: set<nat>, n: nat)
    requires s !! t
    ensures SumBelow(g, s + t, n) == Plus(SumBelow(g, s, n), SumBelow(g, t, n))
  {
    if n > 0 {
      SumBelowSplit(g, s, t, n - 1);
      assert n - 1 in s + t <==> n - 1 in s || n - 1 in t;
    }
  }

  lemma SetTotalSplit(g: Graph, s: set<nat>, t: set<nat>)
    requires s !! t
    ensures SetTotal(g, s + t) == Plus(SetTotal(g, s), SetTotal(g, t))
  {
    SumBelowSplit(g, s, t, |g.entries|);
  }

  lemma {:induction false} SumBelowSingle(g: Graph, x: nat, n: nat)
    ensures x < n ==> SumBelow(g, {x}, n) == g.FeeRate(x)
    ensures x >= n ==> SumBelow(g, {x}, n).fee == SumBelow(g, {x}, n).size == 0
  {
    if n > 0 {
      SumBelowSingle(g, x, n - 1);
    }
  }

  lemma {:induction false} SumBelowEmpty(g: Graph, n: nat)
    ensures SumBelow(g, {}, n).fee == SumBelow(g, {}, n).size == 0
  {
    if n > 0 {
      SumBelowEmpty(g, n - 1);
    }
  }

  /** The fees of an order without duplicates are the fees of its set. */
  lemma {:induction false} TotalIsSetTotal(g: Graph, s: seq<nat>)
    requires NoDuplicates(s)
    ensures Total(g, s) == SetTotal(g, ToSet(s))
  {
    if s == [] {
      SumBelowEmpty(g, |g.entries|);
      assert ToSet(s) == {};
    } else {
      TotalIsSetTotal(g, s[1..]);
      assert ToSet(s) == {s[0]} + ToSet(s[1..]);
      SetTotalSplit(g, {s[0]}, ToSet(s[1..]));
      SumBelowSingle(g, s[0], |g.entries|);
      assert s == [s[0]] + s[1..];
      FeesConcat(g, [s[0]], s[1..]);
      SingletonTight(g, s[0]);
    }
  }

  lemma {:induction false} SumBelowSized(g: Graph, s: set<nat>, n: nat)
    requires forall x | x in s :: g.FeeRate(x).size > 0
    ensures SumBelow(g, s, n).size >= 0
    ensures (exists x | x in s :: x < n) ==> SumBelow(g, s, n).size > 0
  {
    if n > 0 {
      SumBelowSized(g, s, n - 1);
    }
  }

  lemma SetTotalSized(g: Graph, s: set<nat>)
    requires g.Valid() && g.Sized() && s <= g.used && s != {}
    ensures SetTotal(g, s).size > 0
  {
    var x :| x in s;
    SumBelowSized(g, s, |g.entries|);
  }

  /** Adding up the fees of a set. */
  method FeeRateOfSet(g: Graph, s: set<nat>) returns (ret: FeeFrac)
    ensures ret == SetTotal(g, s)
  {
    ret := FeeFrac(0, 0);
    for pos := 0 to |g.entries|
      invariant ret == SumBelow(g, s, pos)
    {
      if pos in s {
        ret := Plus(ret, g.FeeRate(pos));
      }
    }
  }

  lemma SplitGain(g: Graph, a: set<nat>, b: set<nat>, l: real)
    requires a !! b
    ensures Gain(SetTotal(g, a + b), l) == Gain(SetTotal(g, a), l) + Gain(SetTotal(g, b), l)
  {
    SetTotalSplit(g, a, b);
    GainPlus(SetTotal(g, a), SetTotal(g, b), l);
  }

  lemma PartSized(g: Graph, a: set<nat>)
    requires g.Valid() && g.Sized() && a <= g.used
    ensures SetTotal(g, a).size >= 0
  {
    SumBelowSized(g, a, |g.entries|);
  }

  // ----- Closed parts, and orders that cannot be beaten -----

  /** A part of a set that contains the ancestors, within the set, of its members. */
  ghost predicate Inside(g: Graph, s: set<nat>, a: set<nat>) {
    a <= s && forall x | x in a :: g.Ancestors(x) * s <= a
  }

  /** At least as good as every linearization of the graph. */
  ghost predicate Optimal(g: Graph, lin: seq<nat>) {
    forall m | IsLinearization(g, m) :: AtLeastAsGood(Fees(g, lin), Fees(g, m))
  }
}
