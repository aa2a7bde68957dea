/** Improving a linearization by merging and swapping groups of transactions. */
module PostLinearization {
  import opened FeeRate
  import opened DepGraphs
  import opened Linearizations
  import opened Sequences
  import opened Topology

  // ----- One pass, on lists of groups -----

  /** Everything the transactions of a group depend on. */
  function DepsOf(g: Graph, group: seq<nat>): set<nat> {
    if group == [] then {} else g.Ancestors(group[0]) + DepsOf(g, group[1..])
  }

  ghost predicate DependsOn(g: Graph, c: seq<nat>, p: seq<nat>) {
    exists x :: x in DepsOf(g, c) && x in p
  }

  /** Move group `c`, standing between `before` and `after`, forward while the group before it has
      a lower feerate: past that group if `c` does not depend on it, else merged with it. */
  ghost function Settle(g: Graph, before: seq<seq<nat>>, c: seq<nat>, after: seq<seq<nat>>): seq<seq<nat>>
    decreases |before|
  {
    if before == [] || !Higher(Total(g, c), Total(g, before[|before| - 1])) then before + [c] + after
    else
      var front, p := before[..|before| - 1], before[|before| - 1];
      if DependsOn(g, c, p) then Settle(g, front, p + c, after) else Settle(g, front, c, [p] + after)
  }

  ghost function GroupsOf(g: Graph, s: seq<nat>): seq<seq<nat>> {
    if s == [] then []
    else Settle(g, GroupsOf(g, s[..|s| - 1]), [s[|s| - 1]], [])
  }

  /** The order after a pass from front to back. */
  ghost function ForwardPass(g: Graph, s: seq<nat>): seq<nat> {
    Flatten(GroupsOf(g, s))
  }

  // ----- What a step keeps -----

  ghost predicate AllTight(g: Graph, groups: seq<seq<nat>>) {
    forall i | 0 <= i < |groups| :: Tight(g, groups[i]) && AllSized(g, groups[i])
  }

  /** `b` is a rearrangement of `a` that keeps topological order and is at least as good. */
  ghost predicate Improves(g: Graph, a: seq<nat>, b: seq<nat>) {
    && multiset(b) == multiset(a)
    && (Topological(g, a) ==> Topological(g, b))
    && AtLeastAsGood(Fees(g, b), Fees(g, a))
  }

  lemma ImprovesTransitive(g: Graph, a: seq<nat>, b: seq<nat>, c: seq<nat>)
    requires Improves(g, a, b) && Improves(g, b, c)
    ensures Improves(g, a, c)
  {
    AtLeastAsGoodTransitive(Fees(g, c), Fees(g, b), Fees(g, a));
  }

  lemma {:induction false} DepsOfMember(g: Graph, group: seq<nat>, i: nat)
    requires i < |group|
    ensures g.Ancestors(group[i]) <= DepsOf(g, group)
  {
    if i > 0 {
      DepsOfMember(g, group[1..], i - 1);
    }
  }

  lemma {:induction false} DepsOfConcat(g: Graph, a: seq<nat>, b: seq<nat>)
    ensures DepsOf(g, a + b) == DepsOf(g, a) + DepsOf(g, b)
  {
    if a == [] {
      assert a + b == b;
    } else {
      assert (a + b)[1..] == a[1..] + b;
      DepsOfConcat(g, a[1..], b);
    }
  }

  lemma SwapTopological(g: Graph, x: seq<nat>, p: seq<nat>, c: seq<nat>, y: seq<nat>)
    requires Topological(g, x + p + c + y) && !DependsOn(g, c, p)
    ensures Topological(g, x + c + p + y)
  {
    var s, t := x + p + c + y, x + c + p + y;
    forall i, j | 0 <= i < j < |t| ensures t[j] !in g.Ancestors(t[i]) {
      var i', j' := Unswapped(x, p, c, i), Unswapped(x, p, c, j);
      assert t[i] == s[i'] && t[j] == s[j'];
      if i' > j' {
        // t[i] is in c and t[j] in p
        assert t[i] == c[i - |x|] && t[j] == p[j - |x| - |c|];
        DepsOfMember(g, c, i - |x|);
        assert t[j] in p;
      }
    }
  }

  /** Where the element at position `i` after the swap stood before it. */
  function Unswapped(x: seq<nat>, p: seq<nat>, c: seq<nat>, i: nat): nat {
    if |x| <= i < |x| + |c| then i + |p|
    else if |x| + |c| <= i < |x| + |c| + |p| then i - |c|
    else i
  }

  lemma SwapGain(bx: real, gx: real, bp: real, gp: real, bc: real, gc: real, rest: real)
    requires bp == Max(0.0, gp) && bc == Max(0.0, gc) && bx >= 0.0 && rest >= 0.0
    requires gp > 0.0 ==> gc >= 0.0
    ensures Max(bx, gx + Max(bc, gc + Max(bp, gp + rest))) >= Max(bx, gx + Max(bp, gp + Max(bc, gc + rest)))
  {
  }

  lemma SwapBest(g: Graph, x: seq<nat>, p: seq<nat>, c: seq<nat>, y: seq<nat>, l: real)
    ensures Best(Fees(g, x + p + c + y), l)
         == Max(Best(Fees(g, x), l), Gain(Total(g, x), l) + Max(Best(Fees(g, p), l), Gain(Total(g, p), l)
              + Max(Best(Fees(g, c), l), Gain(Total(g, c), l) + Best(Fees(g, y), l))))
  {
    hide Best, Gain;
    assert x + p + c + y == x + (p + (c + y));
    FeesConcat(g, x, p + (c + y));
    FeesConcat(g, p, c + y);
    FeesConcat(g, c, y);
    BestConcat(Fees(g, x), Fees(g, p + (c + y)), l);
    BestConcat(Fees(g, p), Fees(g, c + y), l);
    BestConcat(Fees(g, c), Fees(g, y), l);
  }

  /** Swapping a group before one of lower feerate. */
  lemma SwapImproves(g: Graph, x: seq<nat>, p: seq<nat>, c: seq<nat>, y: seq<nat>)
    requires Tight(g, p) && AllSized(g, p) && Tight(g, c) && AllSized(g, c)
    requires Higher(Total(g, c), Total(g, p)) && !DependsOn(g, c, p)
    ensures Improves(g, x + p + c + y, x + c + p + y)
  {
    if Topological(g, x + p + c + y) {
      SwapTopological(g, x, p, c, y);
    }
    forall l: real ensures Best(Fees(g, x + c + p + y), l) >= Best(Fees(g, x + p + c + y), l) {
      SwapBestImproves(g, x, p, c, y, l);
    }
  }

  lemma SwapBestImproves(g: Graph, x: seq<nat>, p: seq<nat>, c: seq<nat>, y: seq<nat>, l: real)
    requires Tight(g, p) && AllSized(g, p) && Tight(g, c) && AllSized(g, c)
    requires Higher(Total(g, c), Total(g, p))
    ensures Best(Fees(g, x + c + p + y), l) >= Best(Fees(g, x + p + c + y), l)
  {
    TightIsSolid(g, p);
    TightIsSolid(g, c);
    TotalSized(g, p);
    TotalSized(g, c);
    HigherIsRate(Total(g, c), Total(g, p));
    GainSign(Total(g, p), l);
    GainSign(Total(g, c), l);
    SwapBest(g, x, p, c, y, l);
    SwapBest(g, x, c, p, y, l);
    BestNonNegative(Fees(g, x), l);
    BestNonNegative(Fees(g, y), l);
    hide Best, Gain, Rate;
    SwapGain(Best(Fees(g, x), l), Gain(Total(g, x), l), Best(Fees(g, p), l), Gain(Total(g, p), l),
             Best(Fees(g, c), l), Gain(Total(g, c), l), Best(Fees(g, y), l));
  }

  /** The order of `before`, then group `c`, then `after`. */
  ghost function Joined(before: seq<seq<nat>>, c: seq<nat>, after: seq<seq<nat>>): seq<nat> {
    Flatten(before) + c + Flatten(after)
  }

  lemma FlattenAround(before: seq<seq<nat>>, c: seq<nat>, after: seq<seq<nat>>)
    ensures Flatten(before + [c] + after) == Joined(before, c, after)
  {
    FlattenLast(before, c);
    FlattenConcat(before + [c], after);
  }

  lemma JoinedMerge(front: seq<seq<nat>>, p: seq<nat>, c: seq<nat>, after: seq<seq<nat>>)
    ensures Joined(front + [p], c, after) == Joined(front, p + c, after)
  {
    FlattenLast(front, p);
    var f, a := Flatten(front), Flatten(after);
    assert f + p + c + a == f + (p + c) + a;
  }

  lemma JoinedSwap(front: seq<seq<nat>>, p: seq<nat>, c: seq<nat>, after: seq<seq<nat>>)
    ensures Joined(front + [p], c, after) == Flatten(front) + p + c + Flatten(after)
    ensures Joined(front, c, [p] + after) == Flatten(front) + c + p + Flatten(after)
  {
    FlattenLast(front, p);
    var f, a := Flatten(front), Flatten(after);
    assert ([p] + after)[1..] == after;
    assert Flatten([p] + after) == p + a;
    assert f + c + (p + a) == f + c + p + a;
  }

  lemma {:induction false} SettleImproves(g: Graph, before: seq<seq<nat>>, c: seq<nat>, after: seq<seq<nat>>)
    requires AllTight(g, before) && Tight(g, c) && AllSized(g, c) && AllTight(g, after)
    ensures AllTight(g, Settle(g, before, c, after))
    ensures Improves(g, Joined(before, c, after), Flatten(Settle(g, before, c, after)))
    decreases |before|
  {
    hide Improves, Higher, DependsOn, Joined, Flatten, Tight, AllSized, Total;
    if before == [] || !Higher(Total(g, c), Total(g, before[|before| - 1])) {
      FlattenAround(before, c, after);
      ImprovesSelf(g, Joined(before, c, after));
    } else {
      var front, p := before[..|before| - 1], before[|before| - 1];
      assert before == front + [p];
      if DependsOn(g, c, p) {
        MergeTight(g, p, c);
        SettleImproves(g, front, p + c, after);
        JoinedMerge(front, p, c, after);
      } else {
        SettleImproves(g, front, c, [p] + after);
        SwapImproves(g, Flatten(front), p, c, Flatten(after));
        JoinedSwap(front, p, c, after);
        ImprovesTransitive(g, Joined(before, c, after), Joined(front, c, [p] + after),
                           Flatten(Settle(g, before, c, after)));
      }
    }
  }

  lemma ImprovesSelf(g: Graph, a: seq<nat>)
    ensures Improves(g, a, a)
  {
  }

  lemma CancelElement(x: nat, a: multiset<nat>, b: multiset<nat>)
    requires multiset{x} + a == multiset{x} + b
    ensures a == b
  {
    forall y: nat ensures a[y] == b[y] {
      assert (multiset{x} + a)[y] == (multiset{x} + b)[y];
    }
  }

  lemma PullToFront(g: Graph, b: seq<nat>, k: nat)
    requires k < |b|
    ensures multiset(b) == multiset{b[k]} + multiset(b[..k] + b[k + 1..])
    ensures Total(g, b) == Plus(Total(g, [b[k]]), Total(g, b[..k] + b[k + 1..]))
  {
    assert b == b[..k] + ([b[k]] + b[k + 1..]);
    FeesConcat(g, b[..k], [b[k]] + b[k + 1..]);
    FeesConcat(g, [b[k]], b[k + 1..]);
    FeesConcat(g, b[..k], b[k + 1..]);
  }

  lemma {:induction false} SameTotal(g: Graph, a: seq<nat>, b: seq<nat>)
    requires multiset(a) == multiset(b)
    ensures Total(g, a) == Total(g, b)
  {
    if a == [] {
      assert |multiset(b)| == |b|;
    } else {
      SameElements(a, b);
      assert a[0] in a;
      var k :| 0 <= k < |b| && b[k] == a[0];
      PullToFront(g, a, 0);
      PullToFront(g, b, k);
      assert a[..0] + a[1..] == a[1..];
      CancelElement(a[0], multiset(a[1..]), multiset(b[..k] + b[k + 1..]));
      SameTotal(g, a[1..], b[..k] + b[k + 1..]);
    }
  }

  lemma AppendedStaysTopological(g: Graph, a: seq<nat>, b: seq<nat>, t: nat)
    requires Topological(g, a + [t]) && (Topological(g, a) ==> Topological(g, b)) && multiset(a) == multiset(b)
    ensures Topological(g, b + [t])
  {
    SameElements(a, b);
    forall i, j | 0 <= i < j < |a| ensures a[j] !in g.Ancestors(a[i]) {
      assert (a + [t])[i] == a[i] && (a + [t])[j] == a[j];
    }
    forall i | 0 <= i < |b| ensures t !in g.Ancestors(b[i]) {
      assert b[i] in b;
      var k :| 0 <= k < |a| && a[k] == b[i];
      assert (a + [t])[k] == a[k] && (a + [t])[|a|] == t;
    }
  }

  lemma ImprovesAppend(g: Graph, a: seq<nat>, b: seq<nat>, t: nat)
    requires Improves(g, a, b)
    ensures Improves(g, a + [t], b + [t])
  {
    FeesConcat(g, a, [t]);
    FeesConcat(g, b, [t]);
    SameTotal(g, a, b);
    if Topological(g, a + [t]) {
      AppendedStaysTopological(g, a, b, t);
    }
    forall l: real ensures Best(Fees(g, b + [t]), l) >= Best(Fees(g, a + [t]), l) {
      BestConcat(Fees(g, a), Fees(g, [t]), l);
      BestConcat(Fees(g, b), Fees(g, [t]), l);
    }
  }

  lemma {:induction false} GroupsImprove(g: Graph, s: seq<nat>)
    requires AllSized(g, s)
    ensures AllTight(g, GroupsOf(g, s))
    ensures Improves(g, s, ForwardPass(g, s))
  {
    if s == [] {
      assert Fees(g, s) == [];
    } else {
      var n := |s| - 1;
      var groups := GroupsOf(g, s[..n]);
      GroupsImprove(g, s[..n]);
      SingletonTight(g, s[n]);
      assert s == s[..n] + [s[n]];
      ImprovesAppend(g, s[..n], Flatten(groups), s[n]);
      SettleImproves(g, groups, [s[n]], []);
      assert Joined(groups, [s[n]], []) == Flatten(groups) + [s[n]];
      ImprovesTransitive(g, s, Flatten(groups) + [s[n]], ForwardPass(g, s));
    }
  }

  lemma {:induction false} SettlePermutes(g: Graph, before: seq<seq<nat>>, c: seq<nat>, after: seq<seq<nat>>)
    ensures multiset(Flatten(Settle(g, before, c, after))) == multiset(Joined(before, c, after))
    decreases |before|
  {
    hide Higher, DependsOn, Joined, Flatten, Total;
    if before == [] || !Higher(Total(g, c), Total(g, before[|before| - 1])) {
      FlattenAround(before, c, after);
    } else {
      var front, p := before[..|before| - 1], before[|before| - 1];
      assert before == front + [p];
      if DependsOn(g, c, p) {
        SettlePermutes(g, front, p + c, after);
        JoinedMerge(front, p, c, after);
      } else {
        SettlePermutes(g, front, c, [p] + after);
        JoinedSwap(front, p, c, after);
      }
    }
  }

  /** A pass rearranges, whatever the fees. */
  lemma {:induction false} PassPermutes(g: Graph, s: seq<nat>)
    ensures multiset(ForwardPass(g, s)) == multiset(s)
  {
    if s != [] {
      var n := |s| - 1;
      PassPermutes(g, s[..n]);
      SettlePermutes(g, GroupsOf(g, s[..n]), [s[n]], []);
      assert s == s[..n] + [s[n]];
    }
  }

  // ----- The pass from back to front -----

  /** Parents and children exchanged, fees negated. */
  function Reversed(g: Graph): Graph {
    g.(entries := seq(|g.entries|, i requires 0 <= i < |g.entries| =>
      Entry(Negated(g.entries[i].feerate), g.entries[i].descendants, g.entries[i].ancestors)))
  }

  lemma {:induction false} ReverseMultiset(s: seq<nat>)
    ensures multiset(Reverse(s)) == multiset(s)
  {
    if s != [] {
      ReverseMultiset(s[1..]);
      assert Reverse(s) == Reverse(s[1..]) + [s[0]];
      assert s == [s[0]] + s[1..];
    }
  }

  lemma ReversedRate(g: Graph, i: nat)
    ensures Reversed(g).FeeRate(i) == Negated(g.FeeRate(i))
  {
  }

  lemma {:induction false} ReverseFees(g: Graph, s: seq<nat>)
    ensures Fees(Reversed(g), Reverse(s)) == Mirror(Fees(g, s))
  {
    if s != [] {
      ReversedRate(g, s[0]);
      hide Reversed, Graph.FeeRate, Negated;
      ReverseFees(g, s[1..]);
      assert Reverse(s) == Reverse(s[1..]) + [s[0]];
      FeesConcat(Reversed(g), Reverse(s[1..]), [s[0]]);
      assert Fees(g, s)[1..] == Fees(g, s[1..]);
      assert Fees(Reversed(g), [s[0]]) == [Reversed(g).FeeRate(s[0])];
    }
  }

  lemma ReverseTopological(g: Graph, s: seq<nat>)
    requires g.Valid() && InUse(g, s)
    ensures Topological(g, s) <==> Topological(Reversed(g), Reverse(s))
  {
    var r, h := Reverse(s), Reversed(g);
    forall x, y | x in g.used && y in g.used ensures y in h.Ancestors(x) <==> x in g.Ancestors(y) {
    }
    forall i, j | 0 <= i < j < |s|
      ensures s[j] in g.Ancestors(s[i]) <==> r[|s| - 1 - i] in h.Ancestors(r[|s| - 1 - j])
    {
      assert s[i] in s && s[j] in s;
    }
    if Topological(g, s) {
      forall i, j | 0 <= i < j < |r| ensures r[j] !in h.Ancestors(r[i]) {
        var a, b := |s| - 1 - j, |s| - 1 - i;
        assert s[b] !in g.Ancestors(s[a]);
      }
    }
    if Topological(h, r) {
      forall i, j | 0 <= i < j < |s| ensures s[j] !in g.Ancestors(s[i]) {
        assert r[|s| - 1 - i] !in h.Ancestors(r[|s| - 1 - j]);
      }
    }
  }

  /** The order after a pass from back to front. */
  ghost function BackwardPass(g: Graph, s: seq<nat>): seq<nat> {
    Reverse(ForwardPass(Reversed(g), Reverse(s)))
  }

  lemma BackwardImproves(g: Graph, s: seq<nat>)
    requires g.Valid() && g.Sized() && InUse(g, s)
    ensures Improves(g, s, BackwardPass(g, s))
  {
    var h, r, b := Reversed(g), Reverse(s), BackwardPass(g, s);
    var f := ForwardPass(h, r);
    forall i | 0 <= i < |r| ensures h.FeeRate(r[i]).size > 0 {
      assert r[i] == s[|s| - 1 - i] && r[i] in s;
    }
    GroupsImprove(h, r);
    ReverseMultiset(s);
    ReverseMultiset(f);
    assert Reverse(b) == f;
    SameElements(s, b);
    ReverseTopological(g, s);
    ReverseTopological(g, b);
    ReverseFees(g, s);
    ReverseFees(g, b);
    SameTotal(g, s, b);
    MirrorKeepsComparison(Fees(g, b), Fees(g, s));
  }

  /** What the two passes produce. */
  ghost function PostLinearized(g: Graph, s: seq<nat>): seq<nat> {
    ForwardPass(g, BackwardPass(g, s))
  }

  /** Post-linearization returns a topological rearrangement whose diagram is nowhere below. */
  lemma PostLinearizeImproves(g: Graph, s: seq<nat>)
    requires g.Valid() && g.Sized() && InUse(g, s)
    ensures Improves(g, s, PostLinearized(g, s))
  {
    var b := BackwardPass(g, s);
    BackwardImproves(g, s);
    SameElements(s, b);
    forall i | 0 <= i < |b| ensures g.FeeRate(b[i]).size > 0 {
      assert b[i] in b;
    }
    GroupsImprove(g, b);
    ImprovesTransitive(g, s, b, PostLinearized(g, s));
  }
}
