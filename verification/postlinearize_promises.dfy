/**
 * What post-linearization promises beyond never being worse: connected chunks, and no loss when a
 * transaction without descendants was moved to the end.
 */
module PostLinearizePromises {
  import opened FeeRate
  import opened DepGraphs
  import opened Linearizations
  import opened Sequences
  import opened Topology
  import opened Chunking
  import opened Subsets
  import opened PostLinearization

  // ----- The groups of a pass are the chunks of its result -----

  /** No group has a higher feerate than the one before it. */
  ghost predicate Falling(g: Graph, groups: seq<seq<nat>>) {
    forall i | 0 < i < |groups| :: !Higher(Total(g, groups[i]), Total(g, groups[i - 1]))
  }

  ghost predicate TightGroup(g: Graph, c: seq<nat>) {
    Tight(g, c) && AllSized(g, c)
  }

  lemma NotHigherTransitive(g: Graph, a: seq<nat>, b: seq<nat>, c: seq<nat>)
    requires TightGroup(g, a) && TightGroup(g, b) && TightGroup(g, c)
    requires !Higher(Total(g, b), Total(g, a)) && !Higher(Total(g, c), Total(g, b))
    ensures !Higher(Total(g, c), Total(g, a))
  {
    TotalSized(g, a);
    TotalSized(g, b);
    TotalSized(g, c);
    HigherIsRate(Total(g, b), Total(g, a));
    HigherIsRate(Total(g, c), Total(g, b));
    HigherIsRate(Total(g, c), Total(g, a));
  }

  /** A merged group still beats what the lower part was not below. */
  lemma MergedNotBelow(g: Graph, p: seq<nat>, c: seq<nat>, q: seq<nat>)
    requires TightGroup(g, p) && TightGroup(g, c) && TightGroup(g, q)
    requires Higher(Total(g, c), Total(g, p)) && !Higher(Total(g, q), Total(g, p))
    ensures TightGroup(g, p + c) && !Higher(Total(g, q), Total(g, p + c))
  {
    MergeTight(g, p, c);
    TotalSized(g, p);
    TotalSized(g, c);
    TotalSized(g, q);
    TotalSized(g, p + c);
    HigherIsRate(Total(g, c), Total(g, p));
    HigherIsRate(Total(g, q), Total(g, p));
    HigherIsRate(Total(g, q), Total(g, p + c));
    AverageRate(Total(g, p), Total(g, c));
    assert Plus(Total(g, c), Total(g, p)) == Plus(Total(g, p), Total(g, c));
  }

  lemma NotBelowLower(g: Graph, p: seq<nat>, c: seq<nat>)
    requires TightGroup(g, p) && TightGroup(g, c) && Higher(Total(g, c), Total(g, p))
    ensures !Higher(Total(g, p), Total(g, c))
  {
    TotalSized(g, p);
    TotalSized(g, c);
    HigherIsRate(Total(g, c), Total(g, p));
    HigherIsRate(Total(g, p), Total(g, c));
  }

  lemma {:induction false} SettleFalling(g: Graph, before: seq<seq<nat>>, c: seq<nat>, after: seq<seq<nat>>)
    requires AllTight(g, before) && TightGroup(g, c) && AllTight(g, after) && Falling(g, before + after)
    requires after != [] ==> !Higher(Total(g, after[0]), Total(g, c))
    ensures Falling(g, Settle(g, before, c, after))
    decreases |before|
  {
    hide Higher, Total, Tight, AllSized, DependsOn;
    if before == [] || !Higher(Total(g, c), Total(g, before[|before| - 1])) {
      FallingAround(g, before, c, after);
    } else {
      var front, p := before[..|before| - 1], before[|before| - 1];
      assert before == front + [p];
      FallingParts(g, front, p, after);
      if DependsOn(g, c, p) {
        if after == [] {
          MergeTight(g, p, c);
        } else {
          MergedNotBelow(g, p, c, after[0]);
        }
        SettleFalling(g, front, p + c, after);
      } else {
        NotBelowLower(g, p, c);
        assert front + ([p] + after) == before + after;
        SettleFalling(g, front, c, [p] + after);
      }
    }
  }

  lemma FallingAround(g: Graph, before: seq<seq<nat>>, c: seq<nat>, after: seq<seq<nat>>)
    requires Falling(g, before + after)
    requires after != [] ==> !Higher(Total(g, after[0]), Total(g, c))
    requires before != [] ==> !Higher(Total(g, c), Total(g, before[|before| - 1]))
    ensures Falling(g, before + [c] + after)
  {
    hide Higher, Total;
    var r, s, n := before + [c] + after, before + after, |before|;
    forall i | 0 < i < |r|
      ensures !Higher(Total(g, r[i]), Total(g, r[i - 1]))
    {
      if i < n {
        assert r[i] == s[i] && r[i - 1] == s[i - 1];
      } else if i > n + 1 {
        assert r[i] == s[i - 1] && r[i - 1] == s[i - 2];
      }
    }
  }

  /** Taking the last group out of the front leaves the groups around it in order. */
  lemma FallingParts(g: Graph, front: seq<seq<nat>>, p: seq<nat>, after: seq<seq<nat>>)
    requires AllTight(g, front + [p]) && AllTight(g, after) && Falling(g, front + [p] + after)
    ensures AllTight(g, front) && TightGroup(g, p) && AllTight(g, [p] + after) && Falling(g, front + after)
    ensures after != [] ==> !Higher(Total(g, after[0]), Total(g, p)) && TightGroup(g, after[0])
  {
    hide Higher, Total, Tight, AllSized;
    var s, r, n := front + [p] + after, front + after, |front|;
    assert (front + [p])[n] == p;
    assert forall i | 0 <= i < n :: (front + [p])[i] == front[i];
    if after != [] {
      assert s[n + 1] == after[0] && s[n] == p;
    }
    forall i | 0 < i < |r|
      ensures !Higher(Total(g, r[i]), Total(g, r[i - 1]))
    {
      if i < n {
        assert r[i] == s[i] && r[i - 1] == s[i - 1];
      } else if i > n {
        assert r[i] == s[i + 1] && r[i - 1] == s[i];
      } else {
        assert s[n - 1] == front[n - 1] && !Higher(Total(g, s[n]), Total(g, s[n - 1]));
        NotHigherTransitive(g, front[n - 1], p, after[0]);
      }
    }
  }

  lemma {:induction false} GroupsFalling(g: Graph, s: seq<nat>)
    requires AllSized(g, s)
    ensures Falling(g, GroupsOf(g, s))
  {
    if s != [] {
      var n := |s| - 1;
      var groups := GroupsOf(g, s[..n]);
      GroupsFalling(g, s[..n]);
      GroupsImprove(g, s[..n]);
      SingletonTight(g, s[n]);
      assert groups + [] == groups;
      SettleFalling(g, groups, [s[n]], []);
    }
  }

  /** A pass from front to back leaves exactly its groups as chunks. */
  lemma GroupsAreChunks(g: Graph, s: seq<nat>)
    requires AllSized(g, s)
    ensures IsChunking(g, ForwardPass(g, s), GroupsOf(g, s))
    ensures AllSized(g, ForwardPass(g, s)) && Chunks(g, ForwardPass(g, s)) == GroupsOf(g, s)
  {
    hide Higher, Total, Tight;
    GroupsImprove(g, s);
    GroupsFalling(g, s);
    SizedPermuted(g, s, ForwardPass(g, s));
    ChunksIsChunking(g, ForwardPass(g, s));
    ChunkingUnique(g, ForwardPass(g, s), Chunks(g, ForwardPass(g, s)), GroupsOf(g, s));
  }

  lemma SizedPermuted(g: Graph, a: seq<nat>, b: seq<nat>)
    requires AllSized(g, a) && multiset(b) == multiset(a)
    ensures AllSized(g, b)
  {
    SameElements(a, b);
    forall i | 0 <= i < |b|
      ensures g.FeeRate(b[i]).size > 0
    {
      assert b[i] in b;
      var k :| 0 <= k < |a| && a[k] == b[i];
    }
  }

  // ----- Chunks are connected -----

  predicate Related(g: Graph, x: nat, y: nat) {
    x in g.Ancestors(y) || y in g.Ancestors(x)
  }

  /** However the transactions are split in two, some dependency crosses. */
  ghost predicate Connected(g: Graph, s: set<nat>) {
    forall a: set<nat> | a < s && a != {} :: Crosses(g, a, s - a)
  }

  ghost predicate Crosses(g: Graph, a: set<nat>, b: set<nat>) {
    exists x, y :: x in a && y in b && Related(g, x, y)
  }

  lemma CrossesMore(g: Graph, a: set<nat>, b: set<nat>, more: set<nat>, others: set<nat>)
    requires Crosses(g, a, b) && a <= more && b <= others
    ensures Crosses(g, more, others)
  {
    hide Related;
    var x, y :| x in a && y in b && Related(g, x, y);
    assert x in more && y in others;
  }

  lemma {:induction false} DepsOfHas(g: Graph, group: seq<nat>, x: nat) returns (y: nat)
    requires x in DepsOf(g, group)
    ensures y in group && x in g.Ancestors(y)
  {
    if x in g.Ancestors(group[0]) {
      y := group[0];
    } else {
      y := DepsOfHas(g, group[1..], x);
    }
  }

  lemma MergedConnected(g: Graph, p: seq<nat>, c: seq<nat>)
    requires Connected(g, ToSet(p)) && Connected(g, ToSet(c)) && DependsOn(g, c, p)
    ensures Connected(g, ToSet(p + c))
  {
    var x :| x in DepsOf(g, c) && x in p;
    var y := DepsOfHas(g, c, x);
    var s, v, w := ToSet(p + c), ToSet(p), ToSet(c);
    assert s == v + w;
    forall a: set<nat> | a < s && a != {}
      ensures Crosses(g, a, s - a)
    {
      CutCrosses(g, v, w, a, x, y);
    }
  }

  lemma CutCrosses(g: Graph, v: set<nat>, w: set<nat>, a: set<nat>, x: nat, y: nat)
    requires Connected(g, v) && Connected(g, w) && x in v && y in w && Related(g, x, y)
    requires a < v + w && a != {}
    ensures Crosses(g, a, v + w - a)
  {
    hide Related;
    if a * v != {} && a * v != v {
      CrossesMore(g, a * v, v - a * v, a, v + w - a);
    } else if a * w != {} && a * w != w {
      CrossesMore(g, a * w, w - a * w, a, v + w - a);
    } else {
      assert (x in a * v <==> x in a) && (y in a * w <==> y in a);
      assert a == a * v + a * w;
      assert x in a <==> y !in a;
      RelatedSymmetric(g, x, y);
    }
  }

  lemma RelatedSymmetric(g: Graph, x: nat, y: nat)
    ensures Related(g, x, y) == Related(g, y, x)
  {
  }

  ghost predicate AllConnected(g: Graph, groups: seq<seq<nat>>) {
    forall i | 0 <= i < |groups| :: Connected(g, ToSet(groups[i]))
  }

  lemma {:induction false} SettleConnected(g: Graph, before: seq<seq<nat>>, c: seq<nat>, after: seq<seq<nat>>)
    requires AllConnected(g, before) && Connected(g, ToSet(c)) && AllConnected(g, after)
    ensures AllConnected(g, Settle(g, before, c, after))
    decreases |before|
  {
    hide Higher, DependsOn, Connected, ToSet, Total;
    if before != [] && Higher(Total(g, c), Total(g, before[|before| - 1])) {
      var front, p := before[..|before| - 1], before[|before| - 1];
      if DependsOn(g, c, p) {
        MergedConnected(g, p, c);
        SettleConnected(g, front, p + c, after);
      } else {
        SettleConnected(g, front, c, [p] + after);
      }
    }
  }

  lemma {:induction false} GroupsConnected(g: Graph, s: seq<nat>)
    ensures AllConnected(g, GroupsOf(g, s))
  {
    if s != [] {
      var n := |s| - 1;
      GroupsConnected(g, s[..n]);
      SingleConnected(g, s[n]);
      hide Connected;
      SettleConnected(g, GroupsOf(g, s[..n]), [s[n]], []);
    }
  }

  lemma SingleConnected(g: Graph, t: nat)
    ensures Connected(g, ToSet([t]))
  {
    var s := ToSet([t]);
    assert s == {t};
    forall a: set<nat> | a < s
      ensures a == {}
    {
      assert forall x | x in a :: x == t;
    }
  }

  /** The chunks of a post-linearized order are connected. */
  lemma ChunksConnected(g: Graph, s: seq<nat>)
    requires g.Valid() && g.Sized() && InUse(g, s)
    ensures AllSized(g, PostLinearized(g, s)) && AllConnected(g, Chunks(g, PostLinearized(g, s)))
  {
    hide Connected, Improves;
    BackwardSized(g, s);
    GroupsAreChunks(g, BackwardPass(g, s));
    GroupsConnected(g, BackwardPass(g, s));
  }

  lemma BackwardSized(g: Graph, s: seq<nat>)
    requires g.Valid() && g.Sized() && InUse(g, s)
    ensures AllSized(g, BackwardPass(g, s)) && InUse(g, BackwardPass(g, s))
  {
    BackwardImproves(g, s);
    SameElements(s, BackwardPass(g, s));
    SizedPermuted(g, s, BackwardPass(g, s));
  }

  // ----- A transaction moved to the end is made up for -----

  /** No transaction of the groups depends on `t`. */
  ghost predicate FreeOf(g: Graph, groups: seq<seq<nat>>, t: nat) {
    forall i | 0 <= i < |groups| :: t !in DepsOf(g, groups[i])
  }

  /** No group has a higher feerate than `t` alone. */
  ghost predicate NoneHigher(g: Graph, groups: seq<seq<nat>>, t: nat) {
    forall i | 0 <= i < |groups| :: !Higher(Total(g, groups[i]), Total(g, [t]))
  }

  /** Tight groups that do not depend on `t`. */
  ghost predicate Plain(g: Graph, groups: seq<seq<nat>>, t: nat) {
    AllTight(g, groups) && FreeOf(g, groups, t)
  }

  lemma {:induction false} SettleAfter(g: Graph, before: seq<seq<nat>>, c: seq<nat>, after: seq<seq<nat>>, more: seq<seq<nat>>)
    ensures Settle(g, before, c, after + more) == Settle(g, before, c, after) + more
    decreases |before|
  {
    hide Higher, DependsOn, Total;
    if before == [] || !Higher(Total(g, c), Total(g, before[|before| - 1])) {
      assert before + [c] + (after + more) == before + [c] + after + more;
    } else {
      var front, p := before[..|before| - 1], before[|before| - 1];
      if DependsOn(g, c, p) {
        SettleAfter(g, front, p + c, after, more);
      } else {
        assert [p] + (after + more) == [p] + after + more;
        SettleAfter(g, front, c, [p] + after, more);
      }
    }
  }

  lemma {:induction false} SettlePlain(g: Graph, before: seq<seq<nat>>, c: seq<nat>, after: seq<seq<nat>>, t: nat)
    requires FreeOf(g, before, t) && t !in DepsOf(g, c) && FreeOf(g, after, t)
    ensures FreeOf(g, Settle(g, before, c, after), t)
    decreases |before|
  {
    hide Higher, DependsOn, Total, DepsOf;
    if before != [] && Higher(Total(g, c), Total(g, before[|before| - 1])) {
      var front, p := before[..|before| - 1], before[|before| - 1];
      if DependsOn(g, c, p) {
        DepsOfConcat(g, p, c);
        SettlePlain(g, front, p + c, after, t);
      } else {
        SettlePlain(g, front, c, [p] + after, t);
      }
    }
  }

  lemma ImprovesAppendAll(g: Graph, a: seq<nat>, b: seq<nat>, c: seq<nat>)
    requires Improves(g, a, b)
    ensures Improves(g, a + c, b + c)
    decreases |c|
  {
    hide Improves;
    if c == [] {
      assert a + c == a && b + c == b;
    } else {
      ImprovesAppend(g, a, b, c[0]);
      ImprovesAppendAll(g, a + [c[0]], b + [c[0]], c[1..]);
      assert a + [c[0]] + c[1..] == a + c && b + [c[0]] + c[1..] == b + c;
    }
  }

  /** One more group settles in a list that has `t` as a group of its own, which it does not depend on:
      without `t` that is an improvement, and what stays behind `t` is not of higher feerate. */
  lemma {:induction false} SettleAround(g: Graph, x: seq<seq<nat>>, t: nat, y: seq<seq<nat>>, c: seq<nat>, z: seq<seq<nat>>)
    returns (x': seq<seq<nat>>, y': seq<seq<nat>>)
    requires Plain(g, x, t) && Plain(g, y, t) && Plain(g, z, t) && TightGroup(g, c) && t !in DepsOf(g, c)
    requires NoneHigher(g, y, t) && NoneHigher(g, z, t) && g.FeeRate(t).size > 0
    ensures Settle(g, x + [[t]] + y, c, z) == x' + [[t]] + y'
    ensures Plain(g, x', t) && Plain(g, y', t) && NoneHigher(g, y', t)
    ensures Improves(g, Joined(x + y, c, z), Flatten(x' + y'))
    decreases |y|
  {
    hide Higher, Total, Tight, AllSized, DepsOf, Improves, Joined, Flatten, DependsOn;
    var all := x + [[t]] + y;
    if y == [] {
      assert all[..|all| - 1] == x && all[|all| - 1] == [t] && x + y == x;
      x', y' := SettleAtFront(g, x, t, c, z);
    } else {
      var rest, p := y[..|y| - 1], y[|y| - 1];
      assert y == rest + [p];
      assert all[..|all| - 1] == x + [[t]] + rest && all[|all| - 1] == p;
      assert x + y == x + rest + [p];
      if !Higher(Total(g, c), Total(g, p)) {
        x', y' := x, y + [c] + z;
        SingleSized(g, t);
        NotHigherTransitive(g, [t], p, c);
        assert all + [c] + z == x' + [[t]] + y' && x' + y' == (x + y) + [c] + z;
        FlattenAround(x + y, c, z);
        ImprovesSelf(g, Joined(x + y, c, z));
      } else if DependsOn(g, c, p) {
        MergeTight(g, p, c);
        DepsOfConcat(g, p, c);
        x', y' := SettleAround(g, x, t, rest, p + c, z);
        JoinedMerge(x + rest, p, c, z);
      } else {
        x', y' := SettleAround(g, x, t, rest, c, [p] + z);
        SwapImproves(g, Flatten(x + rest), p, c, Flatten(z));
        JoinedSwap(x + rest, p, c, z);
        ImprovesTransitive(g, Joined(x + y, c, z), Joined(x + rest, c, [p] + z), Flatten(x' + y'));
      }
    }
  }

  lemma SingleSized(g: Graph, t: nat)
    requires g.FeeRate(t).size > 0
    ensures TightGroup(g, [t])
  {
    SingletonTight(g, t);
  }

  lemma NotDependentOnOne(g: Graph, c: seq<nat>, t: nat)
    requires t !in DepsOf(g, c)
    ensures !DependsOn(g, c, [t])
  {
  }

  /** The case of SettleAround with nothing between `t` and the settling group. */
  lemma SettleAtFront(g: Graph, x: seq<seq<nat>>, t: nat, c: seq<nat>, z: seq<seq<nat>>)
    returns (x': seq<seq<nat>>, y': seq<seq<nat>>)
    requires Plain(g, x, t) && Plain(g, z, t) && TightGroup(g, c) && t !in DepsOf(g, c)
    requires NoneHigher(g, z, t)
    ensures Settle(g, x + [[t]], c, z) == x' + [[t]] + y'
    ensures Plain(g, x', t) && Plain(g, y', t) && NoneHigher(g, y', t)
    ensures Improves(g, Joined(x, c, z), Flatten(x' + y'))
  {
    hide Higher, Total, Tight, AllSized, DepsOf, Improves, Flatten, DependsOn;
    var all := x + [[t]];
    assert all[..|all| - 1] == x && all[|all| - 1] == [t];
    if !Higher(Total(g, c), Total(g, [t])) {
      x', y' := x, [c] + z;
      assert all + [c] + z == x' + [[t]] + y' && x' + y' == x + [c] + z;
      FlattenAround(x, c, z);
      ImprovesSelf(g, Joined(x, c, z));
    } else {
      NotDependentOnOne(g, c, t);
      x', y' := Settle(g, x, c, []), z;
      assert [] + ([[t]] + z) == [[t]] + z;
      SettleAfter(g, x, c, [], [[t]] + z);
      assert x' + ([[t]] + z) == x' + [[t]] + z;
      SettlePlain(g, x, c, [], t);
      SettleImproves(g, x, c, []);
      FlattenConcat(x', z);
      FlattenNothing();
      assert Joined(x, c, []) == Flatten(x) + c;
      ImprovesAppendAll(g, Flatten(x) + c, Flatten(x'), Flatten(z));
    }
  }

  lemma FlattenNothing()
    ensures Flatten([]) == []
  {
  }

  /** The groups of an order in front of which stands a `t` that none of it depends on. */
  lemma {:induction false} GroupsAround(g: Graph, t: nat, a: seq<nat>) returns (x: seq<seq<nat>>, y: seq<seq<nat>>)
    requires AllSized(g, [t] + a) && forall i | 0 <= i < |a| :: t !in g.Ancestors(a[i])
    ensures GroupsOf(g, [t] + a) == x + [[t]] + y
    ensures Plain(g, x, t) && Plain(g, y, t) && NoneHigher(g, y, t)
    ensures Improves(g, a, Flatten(x + y))
    decreases |a|
  {
    hide Higher, Total, Tight, Improves, Flatten;
    assert ([t] + a)[0] == t;
    if a == [] {
      x, y := [], [];
      assert [t] + a == [t] && [t][..0] == [];
      FlattenNothing();
      assert x + y == [] && Flatten(x + y) == a;
      ImprovesSelf(g, a);
    } else {
      var n := |a| - 1;
      var e := a[n];
      assert ([t] + a)[..n + 1] == [t] + a[..n] && ([t] + a)[n + 1] == e && a == a[..n] + [e];
      SizedPrefix(g, t, a, n);
      var v, w := GroupsAround(g, t, a[..n]);
      SingleSized(g, e);
      SingleDeps(g, e);
      x, y := SettleAround(g, v, t, w, [e], []);
      ImprovesAppend(g, a[..n], Flatten(v + w), e);
      FlattenNothing();
      assert Joined(v + w, [e], []) == Flatten(v + w) + [e];
      ImprovesTransitive(g, a, Flatten(v + w) + [e], Flatten(x + y));
    }
  }

  lemma SizedPrefix(g: Graph, t: nat, a: seq<nat>, n: nat)
    requires AllSized(g, [t] + a) && n < |a|
    ensures AllSized(g, [t] + a[..n]) && g.FeeRate(a[n]).size > 0 && g.FeeRate(t).size > 0
  {
    assert ([t] + a)[0] == t && ([t] + a)[n + 1] == a[n];
    forall i | 0 <= i < n + 1
      ensures g.FeeRate(([t] + a[..n])[i]).size > 0
    {
      assert ([t] + a[..n])[i] == ([t] + a)[i];
    }
  }

  lemma SingleDeps(g: Graph, e: nat)
    ensures DepsOf(g, [e]) == g.Ancestors(e)
  {
    assert [e][1..] == [];
  }

  /** Going on with a pass improves the groups so far followed by the rest of the order. */
  lemma {:induction false} PassGoesOn(g: Graph, a: seq<nat>, b: seq<nat>)
    requires AllSized(g, a + b)
    ensures Improves(g, ForwardPass(g, a) + b, ForwardPass(g, a + b))
    decreases |b|
  {
    hide Improves, Tight;
    if b == [] {
      assert a + b == a && ForwardPass(g, a) + b == ForwardPass(g, a);
      ImprovesSelf(g, ForwardPass(g, a));
    } else {
      var n := |b| - 1;
      var u, e := a + b[..n], b[n];
      assert a + b == u + [e] && (u + [e])[..|u|] == u;
      SizedPart(g, u, [e]);
      PassGoesOn(g, a, b[..n]);
      ImprovesAppend(g, ForwardPass(g, a) + b[..n], ForwardPass(g, u), e);
      assert ForwardPass(g, a) + b[..n] + [e] == ForwardPass(g, a) + b;
      GroupsImprove(g, u);
      SingletonTight(g, e);
      SettleImproves(g, GroupsOf(g, u), [e], []);
      FlattenNothing();
      assert Joined(GroupsOf(g, u), [e], []) == ForwardPass(g, u) + [e];
      ImprovesTransitive(g, ForwardPass(g, a) + b, ForwardPass(g, u) + [e], ForwardPass(g, a + b));
    }
  }

  lemma SizedPart(g: Graph, a: seq<nat>, b: seq<nat>)
    requires AllSized(g, a + b)
    ensures AllSized(g, a) && AllSized(g, b)
  {
    assert forall i | 0 <= i < |a| :: (a + b)[i] == a[i];
    assert forall i | 0 <= i < |b| :: (a + b)[|a| + i] == b[i];
  }

  /** A pass over an order that starts with `t` is at least as good as the order that has `t` anywhere
      before the first transaction that depends on it. */
  lemma FrontMakesUp(g: Graph, t: nat, a: seq<nat>, b: seq<nat>)
    requires AllSized(g, [t] + a + b) && forall i | 0 <= i < |a| :: t !in g.Ancestors(a[i])
    ensures AtLeastAsGood(Fees(g, ForwardPass(g, [t] + a + b)), Fees(g, a + [t] + b))
  {
    hide Improves, Tight, Higher, Best, Gain;
    SizedPart(g, [t] + a, b);
    SizedPart(g, [t], a);
    var x, y := GroupsAround(g, t, a);
    PassGoesOn(g, [t] + a, b);
    GroupsImprove(g, [t] + a + b);
    var r := ForwardPass(g, [t] + a + b);
    FlattenAround(x, [t], y);
    forall l: real
      ensures Best(Fees(g, r), l) >= Best(Fees(g, a + [t] + b), l)
    {
      FrontMakesUpAt(g, t, a, b, x, y, r, l);
    }
  }

  lemma ImprovesBest(g: Graph, a: seq<nat>, b: seq<nat>, l: real)
    requires Improves(g, a, b)
    ensures Best(Fees(g, b), l) >= Best(Fees(g, a), l) && Total(g, a) == Total(g, b)
  {
    SameTotal(g, a, b);
  }

  /** Best gain and total of an order in two and three parts. */
  lemma BestTwo(g: Graph, a: seq<nat>, b: seq<nat>, l: real)
    ensures Best(Fees(g, a + b), l) == Max(Best(Fees(g, a), l), Gain(Total(g, a), l) + Best(Fees(g, b), l))
    ensures Gain(Total(g, a + b), l) == Gain(Total(g, a), l) + Gain(Total(g, b), l)
    ensures Best(Fees(g, a), l) >= 0.0 && Best(Fees(g, a), l) >= Gain(Total(g, a), l)
  {
    FeesConcat(g, a, b);
    BestConcat(Fees(g, a), Fees(g, b), l);
    GainPlus(Total(g, a), Total(g, b), l);
    BestNonNegative(Fees(g, a), l);
    BestAtLeast(Fees(g, a), |a|, l);
    assert Fees(g, a)[..|a|] == Fees(g, a);
  }

  lemma BestOne(g: Graph, t: nat, l: real)
    ensures Best(Fees(g, [t]), l) == Max(0.0, Gain(Total(g, [t]), l))
  {
    SingletonTight(g, t);
    assert Fees(g, [t]) == [g.FeeRate(t)];
    BestSingle(g.FeeRate(t), l);
  }

  lemma {:induction false} LowGroups(g: Graph, y: seq<seq<nat>>, t: nat, l: real)
    requires AllTight(g, y) && NoneHigher(g, y, t) && g.FeeRate(t).size > 0 && Gain(Total(g, [t]), l) <= 0.0
    ensures Best(Fees(g, Flatten(y)), l) == 0.0
  {
    hide Tight, Gain, Best;
    SingleSized(g, t);
    TotalSized(g, [t]);
    GainSign(Total(g, [t]), l);
    var cs := Totals(g, y);
    forall i | 0 <= i < |y|
      ensures Solid(g, y[i]) && cs[i].size > 0 && Rate(cs[i]) <= l
    {
      TightIsSolid(g, y[i]);
      TotalSized(g, y[i]);
      HigherIsRate(cs[i], Total(g, [t]));
    }
    BestOfGroups(g, y, l);
    BestOfSteep(cs, l);
  }

  lemma FrontMakesUpAt(g: Graph, t: nat, a: seq<nat>, b: seq<nat>, x: seq<seq<nat>>, y: seq<seq<nat>>, r: seq<nat>, l: real)
    requires Improves(g, a, Flatten(x + y)) && Improves(g, Joined(x, [t], y) + b, r) && Improves(g, [t] + a + b, r)
    requires AllTight(g, y) && NoneHigher(g, y, t) && g.FeeRate(t).size > 0
    ensures Best(Fees(g, r), l) >= Best(Fees(g, a + [t] + b), l)
  {
    hide *;
    var fx, fy := Flatten(x), Flatten(y);
    FlattenConcat(x, y);
    JoinedIs(x, [t], y);
    ImprovesBest(g, a, fx + fy, l);
    ImprovesBest(g, fx + [t] + fy + b, r, l);
    ImprovesBest(g, [t] + a + b, r, l);
    BestTwo(g, a + [t], b, l);
    BestTwo(g, a, [t], l);
    BestTwo(g, [t] + a, b, l);
    BestTwo(g, [t], a, l);
    BestTwo(g, fx, fy, l);
    BestTwo(g, fx + [t] + fy, b, l);
    BestTwo(g, fx + [t], fy, l);
    BestTwo(g, fx, [t], l);
    BestTwo(g, b, [], l);
    BestOne(g, t, l);
    if Gain(Total(g, [t]), l) <= 0.0 {
      LowGroups(g, y, t, l);
    }
    FrontArithmetic(Best(Fees(g, r), l), Best(Fees(g, a), l), Gain(Total(g, a), l), Gain(Total(g, [t]), l), Best(Fees(g, b), l),
                    Best(Fees(g, fx), l), Gain(Total(g, fx), l), Best(Fees(g, fy), l), Gain(Total(g, fy), l));
  }

  /** `a` and `ga` stand for the best and the whole gain of an order, and so on; `r` beats `x`, `t`, `y`, `b`
      as well as `t`, `a`, `b`. */
  lemma FrontArithmetic(r: real, a: real, ga: real, gt: real, b: real, x: real, gx: real, y: real, gy: real)
    requires ga == gx + gy && a >= ga && a >= 0.0 && b >= 0.0 && x >= gx && Max(x, gx + y) >= a
    requires r >= Max(Max(Max(x, gx + Max(0.0, gt)), gx + gt + y), gx + gt + gy + b)
    requires r >= Max(Max(Max(0.0, gt), gt + a), gt + ga + b)
    requires gt <= 0.0 ==> y == 0.0
    ensures r >= Max(Max(a, ga + Max(0.0, gt)), ga + gt + b)
  {
  }

  lemma JoinedIs(before: seq<seq<nat>>, c: seq<nat>, after: seq<seq<nat>>)
    ensures Joined(before, c, after) == Flatten(before) + c + Flatten(after)
  {
  }

  lemma ReverseParts(a: seq<nat>, t: nat, b: seq<nat>)
    ensures Reverse(a + b + [t]) == [t] + Reverse(b) + Reverse(a)
    ensures Reverse(a + [t] + b) == Reverse(b) + [t] + Reverse(a)
  {
  }

  /** A pass from back to front makes up for moving a transaction to the end. */
  lemma BackwardMakesUp(g: Graph, a: seq<nat>, t: nat, b: seq<nat>)
    requires g.Valid() && g.Sized() && InUse(g, a + [t] + b) && Topological(g, a + [t] + b)
    ensures AtLeastAsGood(Fees(g, BackwardPass(g, a + b + [t])), Fees(g, a + [t] + b))
  {
    hide AtLeastAsGood, Mirror, ForwardPass, Graph.Valid, Graph.Sized, Reversed, Reverse;
    var h, m, s := Reversed(g), a + b + [t], a + [t] + b;
    ReverseParts(a, t, b);
    ReversedFacts(g, a, t, b);
    FrontMakesUp(h, t, Reverse(b), Reverse(a));
    var back := BackwardPass(g, m);
    assert Reverse(back) == ForwardPass(h, Reverse(m));
    ReverseFees(g, back);
    ReverseFees(g, s);
    MovedPermutes(g, a, t, b);
    MirrorKeepsComparison(Fees(g, back), Fees(g, s));
  }

  lemma ReversedFacts(g: Graph, a: seq<nat>, t: nat, b: seq<nat>)
    requires g.Valid() && g.Sized() && InUse(g, a + [t] + b) && Topological(g, a + [t] + b)
    ensures var h := Reversed(g);
            && AllSized(h, [t] + Reverse(b) + Reverse(a))
            && forall i | 0 <= i < |b| :: t !in h.Ancestors(Reverse(b)[i])
  {
    var h, s, r := Reversed(g), a + [t] + b, [t] + Reverse(b) + Reverse(a);
    assert s[|a|] == t && t in s;
    forall i | 0 <= i < |r|
      ensures h.FeeRate(r[i]).size > 0
    {
      assert r[i] in s;
      ReversedRate(g, r[i]);
    }
    forall i | 0 <= i < |b|
      ensures t !in h.Ancestors(Reverse(b)[i])
    {
      var k := |b| - 1 - i;
      assert s[|a| + 1 + k] == b[k] && b[k] in s;
      assert b[k] !in g.Ancestors(t);
    }
  }

  lemma MovedPermutes(g: Graph, a: seq<nat>, t: nat, b: seq<nat>)
    requires g.Valid() && g.Sized() && InUse(g, a + [t] + b)
    ensures Sum(Fees(g, BackwardPass(g, a + b + [t]))) == Sum(Fees(g, a + [t] + b))
    ensures InUse(g, a + b + [t])
  {
    var m, s := a + b + [t], a + [t] + b;
    assert multiset(m) == multiset(s);
    SameElements(m, s);
    PassPermutes(Reversed(g), Reverse(m));
    ReverseMultiset(m);
    ReverseMultiset(ForwardPass(Reversed(g), Reverse(m)));
    SameTotal(g, BackwardPass(g, m), s);
  }

  /** The graph with another fee for one transaction. */
  function WithFee(g: Graph, t: nat, fee: int): Graph
    requires t < |g.entries|
  {
    g.(entries := g.entries[t := g.entries[t].(feerate := FeeFrac(fee, g.entries[t].feerate.size))])
  }

  lemma WithFeeFacts(g: Graph, t: nat, fee: int)
    requires t < |g.entries|
    ensures var h := WithFee(g, t, fee);
            && h.used == g.used && (forall i: nat :: h.Ancestors(i) == g.Ancestors(i))
            && (forall i: nat :: h.FeeRate(i) == if i == t then FeeFrac(fee, g.FeeRate(t).size) else g.FeeRate(i))
            && (g.Valid() ==> h.Valid()) && (g.Sized() ==> h.Sized())
            && (forall lin :: Topological(h, lin) <==> Topological(g, lin))
  {
    var h := WithFee(g, t, fee);
    assert forall i: nat :: h.Ancestors(i) == g.Ancestors(i) && h.Descendants(i) == g.Descendants(i);
  }

  /** More fee is at least as good. */
  lemma {:induction false} MoreFeeBest(g: Graph, h: Graph, lin: seq<nat>, l: real)
    requires forall i: nat :: h.FeeRate(i).size == g.FeeRate(i).size && h.FeeRate(i).fee >= g.FeeRate(i).fee
    ensures Best(Fees(h, lin), l) >= Best(Fees(g, lin), l)
  {
    if lin != [] {
      MoreFeeBest(g, h, lin[1..], l);
      assert Fees(h, lin)[1..] == Fees(h, lin[1..]) && Fees(g, lin)[1..] == Fees(g, lin[1..]);
      assert Gain(h.FeeRate(lin[0]), l) >= Gain(g.FeeRate(lin[0]), l);
    }
  }

  lemma MoreFee(g: Graph, t: nat, fee: int, lin: seq<nat>)
    requires t < |g.entries| && fee >= g.FeeRate(t).fee
    ensures AtLeastAsGood(Fees(WithFee(g, t, fee), lin), Fees(g, lin))
  {
    hide Best;
    var h := WithFee(g, t, fee);
    WithFeeFacts(g, t, fee);
    forall l: real
      ensures Best(Fees(h, lin), l) >= Best(Fees(g, lin), l)
    {
      MoreFeeBest(g, h, lin, l);
    }
  }

  /** Dropping a transaction that nothing depends on, appending it again with the same or a higher fee, and
      post-linearizing gives a linearization at least as good as the one before. */
  lemma MovedLeaf(g: Graph, a: seq<nat>, t: nat, b: seq<nat>, fee: int)
    requires g.Valid() && g.Sized() && IsLinearization(g, a + [t] + b)
    requires t < |g.entries| && g.Descendants(t) == {t} && fee >= g.FeeRate(t).fee
    ensures var h := WithFee(g, t, fee);
            var r := PostLinearized(h, a + b + [t]);
            IsLinearization(h, r) && AtLeastAsGood(Fees(h, r), Fees(g, a + [t] + b))
  {
    hide AtLeastAsGood, Graph.Valid, Graph.Sized, PostLinearized, BackwardPass;
    var h, m, s := WithFee(g, t, fee), a + b + [t], a + [t] + b;
    WithFeeFacts(g, t, fee);
    MovedTopological(g, a, t, b);
    BackwardMakesUp(h, a, t, b);
    MovedPermutes(h, a, t, b);
    ForwardAfter(h, m);
    MoreFee(g, t, fee, s);
    AtLeastAsGoodTransitive(Fees(h, PostLinearized(h, m)), Fees(h, BackwardPass(h, m)), Fees(h, s));
    AtLeastAsGoodTransitive(Fees(h, PostLinearized(h, m)), Fees(h, s), Fees(g, s));
    PostLinearizeImproves(h, m);
    LinearizationPermuted(h, m, PostLinearized(h, m));
  }

  lemma ForwardAfter(g: Graph, s: seq<nat>)
    requires g.Valid() && g.Sized() && InUse(g, s)
    ensures AtLeastAsGood(Fees(g, PostLinearized(g, s)), Fees(g, BackwardPass(g, s)))
  {
    BackwardSized(g, s);
    GroupsImprove(g, BackwardPass(g, s));
  }

  lemma MovedTopological(g: Graph, a: seq<nat>, t: nat, b: seq<nat>)
    requires g.Valid() && IsLinearization(g, a + [t] + b) && g.Descendants(t) == {t}
    ensures IsLinearization(g, a + b + [t]) && InUse(g, a + [t] + b)
  {
    var m, s := a + b + [t], a + [t] + b;
    assert s[|a|] == t && t in s;
    assert multiset(m) == multiset(s);
    SameElements(m, s);
    NoDuplicatesPermuted(s, m);
    forall i, j | 0 <= i < j < |m|
      ensures m[j] !in g.Ancestors(m[i])
    {
      assert m[i] in m;
      var i' := if i < |a| then i else i + 1;
      assert m[i] == s[i'] && m[i] != t;
      if j < |m| - 1 {
        var j' := if j < |a| then j else j + 1;
        assert m[j] == s[j'];
      }
    }
  }

  lemma LinearizationPermuted(g: Graph, a: seq<nat>, b: seq<nat>)
    requires IsLinearization(g, a) && Improves(g, a, b)
    ensures IsLinearization(g, b)
  {
    NoDuplicatesPermuted(a, b);
    SameElements(a, b);
  }
}
