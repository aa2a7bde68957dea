/** On trees of transactions post-linearization finds an optimal order. */
module PostLinearizeTrees {
  import opened FeeRate
  import opened DepGraphs
  import opened Linearizations
  import opened Sequences
  import opened Topology
  import opened Chunking
  import opened Subsets
  import opened PostLinearization
  import opened PostLinearizePromises

  // ----- Trees -----

  /** `y` depends on `x` directly: nothing is between them. */
  ghost predicate IsChild(g: Graph, x: nat, y: nat) {
    && x in g.used && y in g.used && x != y && x in g.Ancestors(y)
    && forall z | z in g.used && z in g.Ancestors(y) && x in g.Ancestors(z) :: z == x || z == y
  }

  ghost predicate OneChild(g: Graph) {
    forall x, y, z | IsChild(g, x, y) && IsChild(g, x, z) :: y == z
  }

  ghost predicate OneParent(g: Graph) {
    forall x, y, z | IsChild(g, y, x) && IsChild(g, z, x) :: y == z
  }

  /** The descendants of any transaction depend on each other. */
  ghost predicate Funnel(g: Graph) {
    forall x, y, z | x in g.used && y in g.used && z in g.used && x in g.Ancestors(y) && x in g.Ancestors(z) ::
      y in g.Ancestors(z) || z in g.Ancestors(y)
  }

  ghost function Between(g: Graph, x: nat, y: nat): set<nat> {
    set z | z in g.used && z in g.Ancestors(y) && x in g.Ancestors(z) && z != x && z != y
  }

  lemma Antisymmetric(g: Graph, x: nat, y: nat)
    requires g.Valid() && g.Acyclic() && x in g.used && y in g.used && x in g.Ancestors(y) && y in g.Ancestors(x)
    ensures x == y
  {
    assert y in g.Ancestors(x) * g.Descendants(x);
  }

  lemma {:induction false} ChildToward(g: Graph, x: nat, y: nat) returns (c: nat)
    requires g.Valid() && g.Acyclic() && x in g.used && y in g.used && x in g.Ancestors(y) && x != y
    ensures IsChild(g, x, c) && c in g.Ancestors(y)
    decreases |Between(g, x, y)|
  {
    if Between(g, x, y) == {} {
      c := y;
      assert forall z | z in g.used && z in g.Ancestors(y) && x in g.Ancestors(z) && z != x && z != y :: z in Between(g, x, y);
    } else {
      var z :| z in Between(g, x, y);
      BetweenLess(g, x, y, z);
      c := ChildToward(g, x, z);
    }
  }

  lemma BetweenLess(g: Graph, x: nat, y: nat, z: nat)
    requires g.Valid() && g.Acyclic() && x in g.used && y in g.used && z in Between(g, x, y)
    ensures |Between(g, x, z)| < |Between(g, x, y)|
  {
    var a, b := Between(g, x, z), Between(g, x, y);
    forall w | w in a
      ensures w in b
    {
      if w == y {
        Antisymmetric(g, y, z);
      }
    }
    SmallerSet(a, b, z);
  }

  lemma SmallerSet(a: set<nat>, b: set<nat>, z: nat)
    requires a <= b && z in b && z !in a
    ensures |a| < |b|
  {
    var rest := b - a;
    assert b == a + rest && |b| == |a| + |rest| && z in rest;
  }

  lemma {:induction false} FunnelAt(g: Graph, x: nat, y: nat, z: nat)
    requires g.Valid() && g.Acyclic() && OneChild(g)
    requires x in g.used && y in g.used && z in g.used && x in g.Ancestors(y) && x in g.Ancestors(z)
    ensures y in g.Ancestors(z) || z in g.Ancestors(y)
    decreases |g.Descendants(x)|
  {
    if x != y && x != z {
      var c := ChildToward(g, x, y);
      var d := ChildToward(g, x, z);
      assert c == d;
      FewerDescendants(g, x, c);
      FunnelAt(g, c, y, z);
    }
  }

  lemma FewerDescendants(g: Graph, x: nat, c: nat)
    requires g.Valid() && g.Acyclic() && IsChild(g, x, c)
    ensures |g.Descendants(c)| < |g.Descendants(x)|
  {
    var a, b := g.Descendants(c), g.Descendants(x);
    forall w | w in a
      ensures w in b
    {
      assert c in g.Ancestors(w);
    }
    if x in a {
      Antisymmetric(g, x, c);
    }
    SmallerSet(a, b, x);
  }

  lemma OneChildFunnel(g: Graph)
    requires g.Valid() && g.Acyclic() && OneChild(g)
    ensures Funnel(g)
  {
    forall x, y, z | x in g.used && y in g.used && z in g.used && x in g.Ancestors(y) && x in g.Ancestors(z)
      ensures y in g.Ancestors(z) || z in g.Ancestors(y)
    {
      FunnelAt(g, x, y, z);
    }
  }

  // ----- Groups from which no closed part is worth taking alone -----

  ghost predicate NoGain(g: Graph, a: set<nat>, l: real) {
    Gain(SetTotal(g, a), l) <= 0.0
  }

  /** At every slope at which the whole group is no gain, no part of it is. */
  ghost predicate Full(g: Graph, c: seq<nat>) {
    forall a: set<nat>, l: real | Inside(g, ToSet(c), a) && Gain(Total(g, c), l) <= 0.0 :: NoGain(g, a, l)
  }

  function Root(c: seq<nat>): nat
    requires c != []
  {
    c[|c| - 1]
  }

  /** The last transaction of a group depends on all of it. */
  ghost predicate Rooted(g: Graph, c: seq<nat>) {
    c != [] && forall x | x in c :: x in g.Ancestors(Root(c))
  }

  /** At every slope at which `p` is no gain, no part of `c` without its root is. */
  ghost predicate LowFrom(g: Graph, c: seq<nat>, p: seq<nat>)
    requires c != []
  {
    forall a: set<nat>, l: real | Inside(g, ToSet(c), a) && Root(c) !in a && Gain(Total(g, p), l) <= 0.0 :: NoGain(g, a, l)
  }

  ghost predicate Whole(g: Graph, c: seq<nat>) {
    Full(g, c) && Rooted(g, c)
  }

  ghost predicate AllWhole(g: Graph, groups: seq<seq<nat>>) {
    forall i | 0 <= i < |groups| :: Whole(g, groups[i])
  }

  lemma FullFromLow(g: Graph, c: seq<nat>)
    requires Rooted(g, c) && LowFrom(g, c, c) && NoDuplicates(c)
    ensures Full(g, c)
  {
    hide NoDuplicates, Gain;
    TotalIsSetTotal(g, c);
    var s := ToSet(c);
    forall a: set<nat>, l: real | Inside(g, s, a) && Gain(Total(g, c), l) <= 0.0
      ensures NoGain(g, a, l)
    {
      if Root(c) in a {
        assert forall x | x in s :: x in g.Ancestors(Root(c)) * s;
        assert a == s;
      }
    }
  }

  lemma SingleWhole(g: Graph, e: nat)
    requires g.Valid() && e in g.used
    ensures Rooted(g, [e]) && forall p :: LowFrom(g, [e], p)
  {
    hide Gain;
    forall a: set<nat>, l: real | Inside(g, ToSet([e]), a) && Root([e]) !in a
      ensures NoGain(g, a, l)
    {
      assert a == {};
      EmptyNoGain(g, l);
    }
  }

  lemma EmptyNoGain(g: Graph, l: real)
    ensures NoGain(g, {}, l)
  {
    SumBelowEmpty(g, |g.entries|);
  }

  /** Merging the group before: its closed parts are no gain where it is none itself. */
  lemma MergedLow(g: Graph, p: seq<nat>, c: seq<nat>)
    requires c != [] && Full(g, p) && LowFrom(g, c, p) && NoDuplicates(p + c)
    ensures LowFrom(g, p + c, p)
  {
    hide Gain, NoDuplicates;
    NoDuplicatesParts(p, c);
    var v, w, s := ToSet(p), ToSet(c), ToSet(p + c);
    assert s == v + w && v !! w && Root(p + c) == Root(c);
    forall a: set<nat>, l: real | Inside(g, s, a) && Root(c) !in a && Gain(Total(g, p), l) <= 0.0
      ensures NoGain(g, a, l)
    {
      InsidePart(g, s, v, a);
      InsidePart(g, s, w, a);
      SplitGain(g, a * v, a * w, l);
      assert a == a * v + a * w;
      assert NoGain(g, a * v, l) && NoGain(g, a * w, l);
    }
  }

  lemma InsidePart(g: Graph, s: set<nat>, v: set<nat>, a: set<nat>)
    requires Inside(g, s, a) && v <= s
    ensures Inside(g, v, a * v)
  {
    forall x | x in a * v
      ensures g.Ancestors(x) * v <= a * v
    {
      assert g.Ancestors(x) * s <= a;
    }
  }

  /** In a funnel a group that depends on the one before it depends on all of that one. */
  /** The root of a group is among the ancestors of the root of a group that depends on it. */
  lemma RootDepends(g: Graph, p: seq<nat>, c: seq<nat>)
    requires g.Valid() && Funnel(g) && InUse(g, p + c) && Topological(g, p + c)
    requires Rooted(g, p) && Rooted(g, c) && DependsOn(g, c, p)
    ensures Root(p) in g.used && Root(c) in g.used && Root(p) in g.Ancestors(Root(c))
  {
    var x :| x in DepsOf(g, c) && x in p;
    var y := DepsOfHas(g, c, x);
    var r, s := Root(p), p + c;
    var k :| 0 <= k < |c| && c[k] == y;
    assert s[|p| - 1] == r && s[|p| + k] == y && r in s && y in s && x in s && Root(c) in s;
    assert y !in g.Ancestors(r);
    assert r in g.Ancestors(y);
    AncestorOf(g, r, y, Root(c));
  }

  lemma AncestorOf(g: Graph, x: nat, y: nat, z: nat)
    requires g.Valid() && x in g.used && y in g.used && z in g.used && x in g.Ancestors(y) && y in g.Ancestors(z)
    ensures x in g.Ancestors(z)
  {
  }

  lemma MergedRooted(g: Graph, p: seq<nat>, c: seq<nat>)
    requires g.Valid() && Funnel(g) && InUse(g, p + c) && Topological(g, p + c)
    requires Rooted(g, p) && Rooted(g, c) && DependsOn(g, c, p)
    ensures Rooted(g, p + c)
  {
    RootDepends(g, p, c);
    hide Funnel, Topological, DependsOn, Graph.Valid;
    assert Root(p + c) == Root(c);
    forall z | z in p + c
      ensures z in g.Ancestors(Root(c))
    {
      if z in p {
        AncestorOf(g, z, Root(p), Root(c));
      }
    }
  }

  lemma SteepFor(g: Graph, p: seq<nat>, q: seq<nat>, l: real)
    requires TightGroup(g, p) && TightGroup(g, q) && !Higher(Total(g, q), Total(g, p)) && Gain(Total(g, p), l) <= 0.0
    ensures Gain(Total(g, q), l) <= 0.0
  {
    TotalSized(g, p);
    TotalSized(g, q);
    HigherIsRate(Total(g, q), Total(g, p));
    GainSign(Total(g, p), l);
    GainSign(Total(g, q), l);
  }

  /** What is low from one group on is low from any group of at least its feerate on. */
  lemma LowFromHigher(g: Graph, c: seq<nat>, p: seq<nat>, q: seq<nat>)
    requires c != [] && LowFrom(g, c, q) && TightGroup(g, p) && TightGroup(g, q) && !Higher(Total(g, q), Total(g, p))
    ensures LowFrom(g, c, p)
  {
    hide Gain, Higher, Tight;
    forall a: set<nat>, l: real | Inside(g, ToSet(c), a) && Root(c) !in a && Gain(Total(g, p), l) <= 0.0
      ensures NoGain(g, a, l)
    {
      SteepFor(g, p, q, l);
    }
  }

  /** The group `c` while it settles: rooted, and its parts without the root are low. */
  ghost predicate Settling(g: Graph, before: seq<seq<nat>>, c: seq<nat>) {
    c != [] && Rooted(g, c) && LowFrom(g, c, c) && (before != [] ==> LowFrom(g, c, before[|before| - 1]))
  }

  lemma JoinedParts(g: Graph, front: seq<seq<nat>>, p: seq<nat>, c: seq<nat>, after: seq<seq<nat>>)
    requires var s := Joined(front + [p], c, after); InUse(g, s) && NoDuplicates(s) && Topological(g, s)
    ensures InUse(g, p + c) && NoDuplicates(p + c) && Topological(g, p + c)
  {
    JoinedSwap(front, p, c, after);
    var s, f := Joined(front + [p], c, after), Flatten(front);
    assert s == f + p + c + Flatten(after);
    forall i | 0 <= i < |p + c|
      ensures (p + c)[i] == s[|f| + i] && (p + c)[i] in s
    {
    }
  }

  lemma SettlingMerge(g: Graph, front: seq<seq<nat>>, p: seq<nat>, c: seq<nat>)
    requires g.Valid() && Funnel(g) && InUse(g, p + c) && NoDuplicates(p + c) && Topological(g, p + c)
    requires AllTight(g, front) && TightGroup(g, p) && TightGroup(g, c) && Whole(g, p) && Falling(g, front + [p])
    requires Settling(g, front + [p], c) && Higher(Total(g, c), Total(g, p)) && DependsOn(g, c, p)
    ensures Settling(g, front, p + c) && TightGroup(g, p + c)
  {
    hide Higher, Tight, Full, LowFrom, Rooted, NoDuplicates, DependsOn, Funnel, Topological;
    assert (front + [p])[|front|] == p;
    MergedRooted(g, p, c);
    MergedLow(g, p, c);
    NotBelowLower(g, p, c);
    SelfNotHigher(g, p);
    MergedNotBelow(g, p, c, p);
    LowFromHigher(g, p + c, p + c, p);
    if front != [] {
      assert (front + [p])[|front| - 1] == front[|front| - 1];
      LowFromHigher(g, p + c, front[|front| - 1], p);
    }
  }

  lemma SelfNotHigher(g: Graph, p: seq<nat>)
    ensures !Higher(Total(g, p), Total(g, p))
  {
  }

  lemma SettlingSwap(g: Graph, front: seq<seq<nat>>, p: seq<nat>, c: seq<nat>)
    requires AllTight(g, front) && TightGroup(g, p) && Falling(g, front + [p]) && Settling(g, front + [p], c)
    ensures Settling(g, front, c)
  {
    hide Higher, Tight, LowFrom, Rooted;
    assert (front + [p])[|front|] == p;
    if front != [] {
      assert (front + [p])[|front| - 1] == front[|front| - 1];
      LowFromHigher(g, c, front[|front| - 1], p);
    }
  }

  lemma {:induction false} SettleWhole(g: Graph, before: seq<seq<nat>>, c: seq<nat>, after: seq<seq<nat>>)
    requires g.Valid() && Funnel(g)
    requires var s := Joined(before, c, after); InUse(g, s) && NoDuplicates(s) && Topological(g, s)
    requires AllTight(g, before) && TightGroup(g, c) && Falling(g, before)
    requires AllWhole(g, before) && AllWhole(g, after) && Settling(g, before, c)
    ensures AllWhole(g, Settle(g, before, c, after))
    decreases |before|
  {
    hide Graph.Valid, Funnel, Higher, Total, Tight, AllSized, DependsOn, Joined, InUse, NoDuplicates, Topological, LowFrom, Full, Rooted;
    if before == [] || !Higher(Total(g, c), Total(g, before[|before| - 1])) {
      JoinedHas(before, c, after);
      FullFromLow(g, c);
    } else {
      var front, p := before[..|before| - 1], before[|before| - 1];
      assert before == front + [p];
      JoinedParts(g, front, p, c, after);
      FallingFront(g, front, p);
      if DependsOn(g, c, p) {
        SettlingMerge(g, front, p, c);
        JoinedMerge(front, p, c, after);
        SettleWhole(g, front, p + c, after);
      } else {
        SettlingSwap(g, front, p, c);
        SwappedFacts(g, front, p, c, after);
        SettleWhole(g, front, c, [p] + after);
      }
    }
  }

  lemma FallingFront(g: Graph, front: seq<seq<nat>>, p: seq<nat>)
    requires Falling(g, front + [p])
    ensures Falling(g, front)
  {
    hide Higher, Total;
    assert forall i | 0 <= i < |front| :: (front + [p])[i] == front[i];
  }

  lemma JoinedHas(before: seq<seq<nat>>, c: seq<nat>, after: seq<seq<nat>>)
    requires NoDuplicates(Joined(before, c, after))
    ensures NoDuplicates(c)
  {
    NoDuplicatesParts(Flatten(before) + c, Flatten(after));
    NoDuplicatesParts(Flatten(before), c);
  }

  lemma SwappedFacts(g: Graph, front: seq<seq<nat>>, p: seq<nat>, c: seq<nat>, after: seq<seq<nat>>)
    requires var s := Joined(front + [p], c, after); InUse(g, s) && NoDuplicates(s) && Topological(g, s)
    requires !DependsOn(g, c, p)
    ensures var s := Joined(front, c, [p] + after); InUse(g, s) && NoDuplicates(s) && Topological(g, s)
  {
    hide NoDuplicates, Topological, DependsOn, Flatten;
    JoinedSwap(front, p, c, after);
    var x, y := Flatten(front), Flatten(after);
    SwapTopological(g, x, p, c, y);
    assert multiset(x + p + c + y) == multiset(x + c + p + y);
    NoDuplicatesPermuted(x + p + c + y, x + c + p + y);
    SameElements(x + p + c + y, x + c + p + y);
  }

  lemma {:induction false} GroupsWhole(g: Graph, s: seq<nat>)
    requires g.Valid() && g.Sized() && Funnel(g) && InUse(g, s) && NoDuplicates(s) && Topological(g, s)
    ensures AllWhole(g, GroupsOf(g, s))
  {
    hide Graph.Valid, Funnel, Tight, LowFrom, Full, Rooted, Improves;
    if s != [] {
      var n := |s| - 1;
      var u, e := s[..n], s[n];
      assert s == u + [e] && e in s;
      PrefixFacts(g, u, e);
      GroupsWhole(g, u);
      GroupsImprove(g, u);
      GroupsFalling(g, u);
      SingleWhole(g, e);
      SingleSized(g, e);
      AppendedFacts(g, u, ForwardPass(g, u), e);
      FlattenNothing();
      assert Joined(GroupsOf(g, u), [e], []) == ForwardPass(g, u) + [e];
      SettleWhole(g, GroupsOf(g, u), [e], []);
    }
  }

  lemma PrefixFacts(g: Graph, u: seq<nat>, e: nat)
    requires g.Sized() && InUse(g, u + [e]) && NoDuplicates(u + [e]) && Topological(g, u + [e])
    ensures InUse(g, u) && NoDuplicates(u) && Topological(g, u) && AllSized(g, u) && e in g.used && g.FeeRate(e).size > 0
  {
    var s := u + [e];
    assert s[|u|] == e && e in s;
    assert forall i | 0 <= i < |u| :: s[i] == u[i] && s[i] in s;
  }

  lemma AppendedFacts(g: Graph, u: seq<nat>, r: seq<nat>, e: nat)
    requires InUse(g, u + [e]) && NoDuplicates(u + [e]) && Topological(g, u + [e]) && Improves(g, u, r)
    ensures InUse(g, r + [e]) && NoDuplicates(r + [e]) && Topological(g, r + [e])
  {
    AppendedStaysTopological(g, u, r, e);
    assert multiset(u + [e]) == multiset(r + [e]);
    NoDuplicatesPermuted(u + [e], r + [e]);
    SameElements(u + [e], r + [e]);
  }

  // ----- Such groups cannot be beaten -----

  /** Where a whole group is a gain, no closed part of it is a larger one. */
  lemma PartGain(g: Graph, c: seq<nat>, a: set<nat>, l: real)
    requires g.Valid() && g.Sized() && InUse(g, c) && NoDuplicates(c) && Full(g, c) && TightGroup(g, c)
    requires Inside(g, ToSet(c), a)
    ensures Gain(SetTotal(g, a), l) <= Max(0.0, Gain(Total(g, c), l))
  {
    hide Tight, NoDuplicates, SetTotal;
    TotalSized(g, c);
    var w := Total(g, c);
    if Gain(w, l) <= 0.0 {
      assert NoGain(g, a, l);
    } else {
      var s, r := ToSet(c), Rate(w);
      GainSign(w, l);
      GainSign(w, r);
      assert NoGain(g, a, r);
      TotalIsSetTotal(g, c);
      assert a + (s - a) == s;
      SplitGain(g, a, s - a, r);
      SplitGain(g, a, s - a, l);
      PartSized(g, s - a);
      hide Gain;
      GainSlope(SetTotal(g, s - a), l, r);
    }
  }

  /** No closed set of transactions gains more, at any slope, than the best of the groups. */
  lemma {:induction false} ClosedGain(g: Graph, groups: seq<seq<nat>>, a: set<nat>, l: real)
    requires g.Valid() && g.Sized() && InUse(g, Flatten(groups)) && NoDuplicates(Flatten(groups))
    requires AllTight(g, groups) && AllWhole(g, groups) && Falling(g, groups)
    requires a <= ToSet(Flatten(groups)) && forall x | x in a :: g.Ancestors(x) * ToSet(Flatten(groups)) <= a
    ensures Gain(SetTotal(g, a), l) <= Best(Totals(g, groups), l)
  {
    hide Tight, NoDuplicates, Gain, SetTotal, Higher, Full, Rooted;
    if groups == [] {
      assert a == {};
      EmptyNoGain(g, l);
    } else {
      var c, rest := groups[0], groups[1..];
      var s, w := ToSet(c), ToSet(Flatten(rest));
      NoDuplicatesParts(c, Flatten(rest));
      assert ToSet(Flatten(groups)) == s + w && s !! w;
      assert Inside(g, s + w, a);
      InsidePart(g, s + w, s, a);
      InsidePart(g, s + w, w, a);
      assert a == a * s + a * w;
      SplitGain(g, a * s, a * w, l);
      assert Whole(g, c) && TightGroup(g, c);
      PartGain(g, c, a * s, l);
      ClosedGain(g, rest, a * w, l);
      assert Totals(g, groups)[1..] == Totals(g, rest) && Totals(g, groups)[0] == Total(g, c);
      BestNonNegative(Totals(g, rest), l);
      if Gain(Total(g, c), l) <= 0.0 {
        AllLow(g, groups, l);
      }
    }
  }

  lemma {:induction false} AllLow(g: Graph, groups: seq<seq<nat>>, l: real)
    requires AllTight(g, groups) && Falling(g, groups) && groups != [] && Gain(Total(g, groups[0]), l) <= 0.0
    ensures Best(Totals(g, groups[1..]), l) == 0.0
  {
    hide Tight, Gain, Higher;
    if |groups| > 1 {
      var rest := groups[1..];
      assert TightGroup(g, groups[0]) && TightGroup(g, groups[1]) && !Higher(Total(g, groups[1]), Total(g, groups[0]));
      SteepFor(g, groups[0], groups[1], l);
      AllLow(g, rest, l);
      assert Totals(g, rest)[1..] == Totals(g, rest[1..]) && Totals(g, rest)[0] == Total(g, rest[0]);
    }
  }

  lemma ForwardOptimal(g: Graph, s: seq<nat>)
    requires g.Valid() && g.Sized() && Funnel(g) && IsLinearization(g, s)
    ensures Optimal(g, ForwardPass(g, s))
  {
    hide Graph.Valid, Graph.Sized, Funnel, Best, Improves;
    OrderSized(g, s);
    GroupsWhole(g, s);
    GroupsAreChunks(g, s);
    GroupsFalling(g, s);
    GroupsImprove(g, s);
    LinearizationPermuted(g, s, ForwardPass(g, s));
    var groups := GroupsOf(g, s);
    forall m, l: real | IsLinearization(g, m)
      ensures Best(Fees(g, ForwardPass(g, s)), l) >= Best(Fees(g, m), l)
    {
      ChunkingBest(g, ForwardPass(g, s), groups, l);
      PrefixesBeaten(g, groups, m, l);
    }
  }

  lemma OrderSized(g: Graph, s: seq<nat>)
    requires g.Sized() && IsLinearization(g, s)
    ensures InUse(g, s) && AllSized(g, s)
  {
    assert forall i | 0 <= i < |s| :: s[i] in s;
  }

  lemma PrefixesBeaten(g: Graph, groups: seq<seq<nat>>, m: seq<nat>, l: real)
    requires g.Valid() && g.Sized() && IsLinearization(g, Flatten(groups)) && IsLinearization(g, m)
    requires AllTight(g, groups) && AllWhole(g, groups) && Falling(g, groups)
    ensures Best(Fees(g, m), l) <= Best(Totals(g, groups), l)
  {
    hide Best, Gain, SetTotal, Higher, Tight, Full, Rooted, Falling;
    var k := BestAttained(Fees(g, m), l);
    assert Fees(g, m)[..k] == Fees(g, m[..k]);
    NoDuplicatesPrefix(m[..k], m);
    TotalIsSetTotal(g, m[..k]);
    PrefixIsClosed(g, m, k);
    assert ToSet(Flatten(groups)) == g.used;
    ClosedGain(g, groups, ToSet(m[..k]), l);
  }

  lemma PrefixIsClosed(g: Graph, m: seq<nat>, k: nat)
    requires g.Valid() && IsLinearization(g, m) && k <= |m|
    ensures ToSet(m[..k]) <= g.used && forall x | x in ToSet(m[..k]) :: g.Ancestors(x) <= ToSet(m[..k])
  {
    forall x, y | x in ToSet(m[..k]) && y in g.Ancestors(x)
      ensures y in ToSet(m[..k])
    {
      var i :| 0 <= i < k && m[i] == x;
      assert x in m && x in g.used && y in g.used && y in m;
      var j :| 0 <= j < |m| && m[j] == y;
      assert j <= i;
      assert y == m[..k][j];
    }
    assert forall i | 0 <= i < k :: m[..k][i] == m[i] && m[i] in m;
  }

  // ----- The reversed graph -----

  lemma ReversedValid(g: Graph)
    requires g.Valid() && g.Sized() && g.Acyclic()
    ensures var h := Reversed(g);
            && h.used == g.used && h.Valid() && h.Sized() && h.Acyclic()
            && (forall i | i in g.used :: h.Ancestors(i) == g.Descendants(i) && h.Descendants(i) == g.Ancestors(i))
  {
    var h := Reversed(g);
    assert |h.entries| == |g.entries| && h.used == g.used;
    forall i | i in g.used
      ensures h.Ancestors(i) == g.Descendants(i) && h.Descendants(i) == g.Ancestors(i) && h.FeeRate(i).size > 0
    {
      ReversedRate(g, i);
    }
    ReversedTransitive(g, h);
  }

  lemma ReversedTransitive(g: Graph, h: Graph)
    requires g.Valid() && h.used == g.used && forall i | i in g.used :: h.Ancestors(i) == g.Descendants(i)
    ensures h.Transitive()
  {
    forall i, j | i in h.used && j in h.Ancestors(i)
      ensures h.Ancestors(j) <= h.Ancestors(i)
    {
      forall k | k in h.Ancestors(j)
        ensures k in h.Ancestors(i)
      {
        assert j in g.used && k in g.used && i in g.Ancestors(j) && j in g.Ancestors(k);
      }
    }
  }

  lemma ReversedOneChild(g: Graph)
    requires g.Valid() && g.Sized() && g.Acyclic() && OneParent(g)
    ensures OneChild(Reversed(g))
  {
    var h := Reversed(g);
    ReversedValid(g);
    forall x, y | IsChild(h, x, y)
      ensures IsChild(g, y, x)
    {
      ChildReversed(g, h, x, y);
    }
  }

  lemma ChildReversed(g: Graph, h: Graph, x: nat, y: nat)
    requires g.Valid() && h.used == g.used && IsChild(h, x, y)
    requires forall i | i in g.used :: h.Ancestors(i) == g.Descendants(i)
    ensures IsChild(g, y, x)
  {
    forall z | z in g.used && z in g.Ancestors(x) && y in g.Ancestors(z)
      ensures z == y || z == x
    {
      assert z in h.Ancestors(y) && x in h.Ancestors(z);
    }
  }

  lemma ReversedLinearization(g: Graph, m: seq<nat>)
    requires g.Valid() && g.Sized() && g.Acyclic() && IsLinearization(g, m)
    ensures IsLinearization(Reversed(g), Reverse(m))
  {
    ReversedValid(g);
    ReverseTopological(g, m);
    ReverseMultiset(m);
    NoDuplicatesPermuted(m, Reverse(m));
    SameElements(m, Reverse(m));
  }

  lemma BackwardOptimal(g: Graph, s: seq<nat>)
    requires g.Valid() && g.Sized() && g.Acyclic() && OneParent(g) && IsLinearization(g, s)
    ensures Optimal(g, BackwardPass(g, s))
  {
    hide Graph.Valid, Graph.Sized, Graph.Acyclic, OneParent, OneChild, AtLeastAsGood, Mirror, ForwardPass, Reversed;
    var h, r := Reversed(g), Reverse(s);
    ReversedValid(g);
    ReversedOneChild(g);
    OneChildFunnel(h);
    ReversedLinearization(g, s);
    ForwardOptimal(h, r);
    var back := BackwardPass(g, s);
    assert Reverse(back) == ForwardPass(h, r);
    ReverseFees(g, back);
    forall m | IsLinearization(g, m)
      ensures AtLeastAsGood(Fees(g, back), Fees(g, m))
    {
      ReversedLinearization(g, m);
      ReverseFees(g, m);
      SameSum(g, s, m);
      MirrorKeepsComparison(Fees(g, back), Fees(g, m));
    }
  }

  lemma SameSum(g: Graph, s: seq<nat>, m: seq<nat>)
    requires g.Valid() && g.Sized() && IsLinearization(g, s) && IsLinearization(g, m)
    ensures Sum(Fees(g, BackwardPass(g, s))) == Sum(Fees(g, m))
  {
    OrderSized(g, s);
    BackwardImproves(g, s);
    SameTotal(g, s, BackwardPass(g, s));
    TotalIsSetTotal(g, s);
    TotalIsSetTotal(g, m);
    assert ToSet(s) == ToSet(m);
  }

  /** If every transaction has at most one child, or every one at most one parent, post-linearization gives
      an order at least as good as every other. */
  lemma TreeOptimal(g: Graph, s: seq<nat>)
    requires g.Valid() && g.Sized() && g.Acyclic() && IsLinearization(g, s)
    requires OneChild(g) || OneParent(g)
    ensures IsLinearization(g, PostLinearized(g, s)) && Optimal(g, PostLinearized(g, s))
  {
    hide Graph.Valid, Graph.Sized, Graph.Acyclic, OneParent, OneChild, AtLeastAsGood, ForwardPass, BackwardPass, Improves;
    var b := BackwardPass(g, s);
    OrderSized(g, s);
    BackwardImproves(g, s);
    LinearizationPermuted(g, s, b);
    PostLinearizeImproves(g, s);
    LinearizationPermuted(g, s, PostLinearized(g, s));
    if OneChild(g) {
      OneChildFunnel(g);
      ForwardOptimal(g, b);
    } else {
      BackwardOptimal(g, s);
      ForwardAfter(g, s);
      forall m | IsLinearization(g, m)
        ensures AtLeastAsGood(Fees(g, PostLinearized(g, s)), Fees(g, m))
      {
        AtLeastAsGoodTransitive(Fees(g, PostLinearized(g, s)), Fees(g, b), Fees(g, m));
      }
    }
  }
}
