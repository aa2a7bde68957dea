/** Finding the best remaining ancestor set. */
module Candidates {
  import opened FeeRate
  import opened DepGraphs
  import opened Subsets
  import opened Sets
  import opened LinearizationChunkings

  /** Higher feerate, or the same feerate and smaller. */
  predicate Better(a: FeeFrac, b: FeeFrac) {
    a.fee * b.size > b.fee * a.size || (a.fee * b.size == b.fee * a.size && a.size < b.size)
  }

  lemma BetterFacts(a: FeeFrac, b: FeeFrac)
    ensures Better(a, b) ==> !Lower(a, b)
    ensures !Better(a, b) ==> !Higher(a, b)
    ensures Higher(a, b) <==> Lower(b, a)
  {
  }

  lemma NotBetterTransitive(a: FeeFrac, b: FeeFrac, c: FeeFrac)
    requires a.size > 0 && b.size > 0 && c.size > 0 && !Better(b, a) && !Better(c, b)
    ensures !Better(c, a)
  {
    var ra, rb, rc := Rate(a), Rate(b), Rate(c);
    HigherIsRate(b, a);
    HigherIsRate(c, b);
    HigherIsRate(c, a);
    hide Rate;
  }

  lemma BetterOneWay(a: FeeFrac, b: FeeFrac)
    requires Better(a, b)
    ensures !Better(b, a)
  {
  }

  lemma NotBetterSelf(a: FeeFrac)
    ensures !Better(a, a)
  {
  }

  function Minus(a: FeeFrac, b: FeeFrac): FeeFrac {
    FeeFrac(a.fee - b.fee, a.size - b.size)
  }

  /** Taking one transaction out of a set takes its fee and size out of the total. */
  lemma TotalWithout(g: Graph, s: set<nat>, i: nat)
    requires i in s && i < |g.entries|
    ensures SetTotal(g, s - {i}) == Minus(SetTotal(g, s), g.FeeRate(i))
  {
    assert s == (s - {i}) + {i};
    SetTotalSplit(g, s - {i}, {i});
    SumBelowSingle(g, i, |g.entries|);
  }

  /** The ancestors of a transaction among those left. */
  function AncestorSet(g: Graph, todo: set<nat>, i: nat): set<nat> {
    g.Ancestors(i) * todo
  }

  lemma UsedBelow(g: Graph)
    requires g.Valid()
    ensures forall i | i in g.used :: i < |g.entries|
  {
  }

  /** Marking `i` done takes it out of the ancestor sets of its descendants and of no others. */
  lemma DescendantFacts(g: Graph, todo: set<nat>, left: set<nat>, i: nat, j: nat)
    requires g.Valid() && todo + left <= g.used && i in left - todo && j in todo
    ensures var before, after := AncestorSet(g, todo + left, j), AncestorSet(g, todo + (left - {i}), j);
            && (j in g.Descendants(i) ==> SetTotal(g, after) == Minus(SetTotal(g, before), g.FeeRate(i)))
            && (j !in g.Descendants(i) ==> after == before)
  {
    var before, after := AncestorSet(g, todo + left, j), AncestorSet(g, todo + (left - {i}), j);
    assert j in g.Descendants(i) <==> i in g.Ancestors(j);
    if j in g.Descendants(i) {
      assert after == before - {i};
      TotalWithout(g, before, i);
    }
  }

  class AncestorCandidateFinder {
    const g: Graph
    var todo: set<nat>
    var feerates: seq<FeeFrac>

    /** The feerates kept are those of the ancestor sets that remain. */
    ghost predicate Valid()
      reads this
    {
      && g.Valid() && g.Sized() && todo <= g.used && |feerates| == |g.entries|
      && Accurate(feerates, todo)
    }

    ghost predicate Accurate(rates: seq<FeeFrac>, left: set<nat>)
      reads this
      requires |rates| == |g.entries| && g.Valid() && todo <= g.used
    {
      forall i | i in todo :: rates[i] == SetTotal(g, AncestorSet(g, left, i))
    }

    /** Add up the ancestor sets, starting from that of the first ancestor where it is known. */
    constructor (g: Graph)
      requires g.Valid() && g.Sized()
      ensures Valid() && this.g == g && todo == g.used
    {
      this.g, todo := g, g.used;
      feerates := seq(|g.entries|, _ => FeeFrac(0, 0));
      new;
      for i := 0 to |g.entries|
        invariant todo == g.used && |feerates| == |g.entries| && this.g == g
        invariant forall k | k in g.used && k < i :: feerates[k] == SetTotal(g, g.Ancestors(k))
      {
        if i in g.used {
          var toAdd := g.Ancestors(i);
          assert i in toAdd;
          var rate := FeeFrac(0, 0);
          var first := Smallest(toAdd);
          if first < i {
            rate := feerates[first];
            toAdd := toAdd - g.Ancestors(first);
            SetTotalSplit(g, g.Ancestors(first), toAdd);
            assert g.Ancestors(first) + toAdd == g.Ancestors(i);
          }
          var more := FeeRateOfSet(g, toAdd);
          feerates := feerates[i := Plus(rate, more)];
        }
      }
      forall i | i in todo
        ensures feerates[i] == SetTotal(g, AncestorSet(g, todo, i))
      {
        assert AncestorSet(g, todo, i) == g.Ancestors(i);
      }
    }

    /** Take one transaction out of the ancestor sets of its descendants. */
    method TakeOut(i: nat, ghost left: set<nat>)
      requires g.Valid() && todo <= g.used && |feerates| == |g.entries|
      requires i in g.used - todo && i in left && left <= g.used && Accurate(feerates, todo + left)
      modifies this`feerates
      ensures |feerates| == |g.entries| && Accurate(feerates, todo + (left - {i}))
    {
      hide SetTotal, Graph.Valid;
      UsedBelow(g);
      var feerate := g.FeeRate(i);
      ghost var before, after := todo + left, todo + (left - {i});
      var ds := g.Descendants(i) * todo;
      while ds != {}
        invariant ds <= g.Descendants(i) * todo && |feerates| == |g.entries|
        invariant forall j | j in todo :: feerates[j] == SetTotal(g, AncestorSet(g, if j in g.Descendants(i) && j !in ds then after else before, j))
        decreases |ds|
      {
        var j :| j in ds;
        DescendantFacts(g, todo, left, i, j);
        feerates := feerates[j := Minus(feerates[j], feerate)];
        ds := ds - {j};
      }
      forall j | j in todo
        ensures feerates[j] == SetTotal(g, AncestorSet(g, after, j))
      {
        DescendantFacts(g, todo, left, i, j);
      }
    }

    method MarkDone(select: set<nat>)
      requires Valid() && select != {} && select <= todo
      modifies this
      ensures Valid() && todo == old(todo) - select
    {
      hide Graph.Valid, SetTotal;
      StillAccurate(select);
      todo := todo - select;
      var left := select;
      while left != {}
        invariant left <= select && |feerates| == |g.entries| && g.Valid() && todo <= g.used && todo == old(todo) - select
        invariant Accurate(feerates, todo + left)
        decreases |left|
      {
        var i :| i in left;
        TakeOut(i, left);
        left := left - {i};
      }
      assert todo + left == todo;
    }

    /** The ancestor sets are still the old ones when only `todo` has been changed. */
    lemma StillAccurate(select: set<nat>)
      requires Valid() && select <= todo
      ensures g.Valid() && todo - select <= g.used
      ensures forall i | i in todo - select :: feerates[i] == SetTotal(g, AncestorSet(g, (todo - select) + select, i))
    {
      assert (todo - select) + select == todo;
    }

    lemma RateSized(i: nat)
      requires Valid() && i in todo
      ensures feerates[i].size > 0
    {
      assert i in AncestorSet(g, todo, i);
      SetTotalSized(g, AncestorSet(g, todo, i));
    }

    lemma NewBest(seen: set<nat>, best: nat, i: nat)
      requires Valid() && seen <= todo && best in todo && i in todo && Better(feerates[i], feerates[best])
      requires forall k | k in seen :: !Better(feerates[k], feerates[best])
      ensures forall k | k in seen + {i} :: !Better(feerates[k], feerates[i])
    {
      hide Better;
      RateSized(i);
      RateSized(best);
      BetterOneWay(feerates[i], feerates[best]);
      forall k | k in seen
        ensures !Better(feerates[k], feerates[i])
      {
        RateSized(k);
        NotBetterTransitive(feerates[i], feerates[best], feerates[k]);
      }
      NotBetterSelf(feerates[i]);
    }

    /** The best of the remaining ancestor sets. */
    method FindCandidateSet() returns (r: SetInfo, ghost b: nat)
      requires Valid() && todo != {}
      ensures b in todo && r == SetInfo(AncestorSet(g, todo, b), SetTotal(g, AncestorSet(g, todo, b)))
      ensures forall i | i in todo :: !Better(SetTotal(g, AncestorSet(g, todo, i)), r.feerate)
    {
      hide Better, SetTotal, Graph.Valid;
      var best := Smallest(todo);
      var left := todo - {best};
      NotBetterSelf(feerates[best]);
      while left != {}
        invariant best in todo && left <= todo
        invariant forall i | i in todo - left :: !Better(feerates[i], feerates[best])
        decreases |left|
      {
        var i := Smallest(left);
        if Better(feerates[i], feerates[best]) {
          NewBest(todo - left, best, i);
          best := i;
        }
        left := left - {i};
      }
      b := best;
      r := SetInfo(g.Ancestors(best) * todo, feerates[best]);
    }
  }
}
