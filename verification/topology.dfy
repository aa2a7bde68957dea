/** Topological orders: making them, repairing them, and rearranging them. */
module Topology {
  import opened DepGraphs
  import opened Sequences

  /** No transaction comes before one of its own ancestors. */
  ghost predicate Topological(g: Graph, lin: seq<nat>) {
    forall i, j | 0 <= i < j < |lin| :: lin[j] !in g.Ancestors(lin[i])
  }

  ghost predicate InUse(g: Graph, lin: seq<nat>) {
    forall x | x in lin :: x in g.used
  }

  /** An order of exactly the transactions `s`, each once. */
  ghost predicate OrderOf(lin: seq<nat>, s: set<nat>) {
    NoDuplicates(lin) && forall x :: x in lin <==> x in s
  }

  /** A linearization of the whole graph. */
  ghost predicate IsLinearization(g: Graph, lin: seq<nat>) {
    OrderOf(lin, g.used) && Topological(g, lin)
  }

  lemma NoDuplicatesPrefix(p: seq<nat>, s: seq<nat>)
    requires p <= s && NoDuplicates(s)
    ensures NoDuplicates(p)
  {
    forall i, j | 0 <= i < j < |p| ensures p[i] != p[j] {
      assert s[i] == p[i] && s[j] == p[j];
    }
  }

  /** No duplicates: every element occurs at most once. */
  lemma {:induction false} NoDuplicatesCount(s: seq<nat>)
    ensures NoDuplicates(s) <==> forall x: nat :: multiset(s)[x] <= 1
  {
    if s != [] {
      var t := s[1..];
      assert s == [s[0]] + t;
      NoDuplicatesCount(t);
      assert multiset(s) == multiset{s[0]} + multiset(t);
      if NoDuplicates(s) {
        assert s[0] !in t;
        assert NoDuplicates(t);
      }
      if forall x: nat :: multiset(s)[x] <= 1 {
        var ms: multiset<nat>, mt: multiset<nat> := multiset(s), multiset(t);
        forall x: nat ensures mt[x] <= 1 {
          assert ms[x] <= 1;
        }
        assert multiset(s)[s[0]] == 1 + multiset(t)[s[0]];
        assert s[0] !in t;
      }
    }
  }

  /** Rearranging keeps the absence of duplicates. */
  lemma NoDuplicatesPermuted(a: seq<nat>, b: seq<nat>)
    requires multiset(a) == multiset(b) && NoDuplicates(a)
    ensures NoDuplicates(b)
  {
    NoDuplicatesCount(a);
    NoDuplicatesCount(b);
  }

  /** The two parts of an order without duplicates. */
  lemma NoDuplicatesParts(a: seq<nat>, b: seq<nat>)
    requires NoDuplicates(a + b)
    ensures NoDuplicates(a) && NoDuplicates(b) && forall x | x in a :: x !in b
  {
    var s := a + b;
    forall i | 0 <= i < |a| ensures s[i] == a[i] { }
    forall j | 0 <= j < |b| ensures s[|a| + j] == b[j] { }
    forall x | x in a ensures x !in b {
      var i :| 0 <= i < |a| && a[i] == x;
      forall j | 0 <= j < |b| ensures b[j] != x {
        assert s[i] != s[|a| + j];
      }
    }
    NoDuplicatesPrefix(a, s);
    forall i, j | 0 <= i < j < |b| ensures b[i] != b[j] {
      assert s[|a| + i] != s[|a| + j];
    }
  }

  lemma ProperSubsetSmaller(a: set<nat>, b: set<nat>)
    requires a <= b
    ensures |a| <= |b|
    ensures a != b ==> |a| < |b|
  {
    assert |b| == |a| + |b - a| by {
      assert b == a + (b - a);
    }
    if a != b {
      assert b - a != {};
    }
  }

  // ----- AppendTopo: sorting a set of transactions by number of ancestors -----

  /** The comparison AppendTopo sorts by. */
  predicate Before(g: Graph, a: nat, b: nat) {
    |g.Ancestors(a)| < |g.Ancestors(b)| || (|g.Ancestors(a)| == |g.Ancestors(b)| && a < b)
  }

  ghost predicate SortedByAncestors(g: Graph, s: seq<nat>) {
    forall i, j | 0 <= i < j < |s| :: Before(g, s[i], s[j])
  }

  lemma FewerAncestors(g: Graph, a: nat, b: nat)
    requires g.Valid() && g.Acyclic() && a in g.used && b in g.Ancestors(a) && a != b
    ensures |g.Ancestors(b)| < |g.Ancestors(a)|
  {
    assert g.Ancestors(b) <= g.Ancestors(a);
    assert a in g.Ancestors(b) ==> {a, b} <= g.Ancestors(a) * g.Descendants(a);
    ProperSubsetSmaller(g.Ancestors(b), g.Ancestors(a));
  }

  /** Sorting by number of ancestors is topological on an acyclic graph. */
  lemma SortedIsTopological(g: Graph, s: seq<nat>)
    requires g.Valid() && g.Acyclic() && InUse(g, s) && SortedByAncestors(g, s)
    ensures Topological(g, s) && NoDuplicates(s)
  {
    forall i, j | 0 <= i < j < |s| ensures s[j] !in g.Ancestors(s[i]) && s[i] != s[j] {
      assert Before(g, s[i], s[j]);
      if s[j] in g.Ancestors(s[i]) && s[i] != s[j] {
        FewerAncestors(g, s[i], s[j]);
      }
    }
  }

  /** Append the transactions of `select` to `list`, sorted by number of ancestors. */
  method AppendTopo(g: Graph, list: seq<nat>, select: set<nat>) returns (r: seq<nat>, ghost added: seq<nat>)
    ensures r == list + added
    ensures SortedByAncestors(g, added) && forall x :: x in added <==> x in select
  {
    var sorted: seq<nat> := [];
    var todo := select;
    while todo != {}
      invariant todo <= select
      invariant SortedByAncestors(g, sorted)
      invariant forall x :: x in sorted <==> x in select - todo
      decreases todo
    {
      var i :| i in todo;
      sorted := InsertSorted(g, sorted, i);
      todo := todo - {i};
    }
    r, added := list + sorted, sorted;
  }

  method InsertSorted(g: Graph, s: seq<nat>, x: nat) returns (r: seq<nat>)
    requires SortedByAncestors(g, s) && x !in s
    ensures SortedByAncestors(g, r) && forall y :: y in r <==> y in s || y == x
  {
    var k := 0;
    while k < |s| && Before(g, s[k], x)
      invariant 0 <= k <= |s| && forall i | 0 <= i < k :: Before(g, s[i], x)
    {
      k := k + 1;
    }
    r := s[..k] + [x] + s[k..];
    assert s == s[..k] + s[k..];
    InsertKeepsSorted(g, s, k, x);
  }

  lemma InsertKeepsSorted(g: Graph, s: seq<nat>, k: nat, x: nat)
    requires SortedByAncestors(g, s) && k <= |s| && x !in s
    requires forall i | 0 <= i < k :: Before(g, s[i], x)
    requires k < |s| ==> !Before(g, s[k], x)
    ensures SortedByAncestors(g, s[..k] + [x] + s[k..])
  {
    forall i | k <= i < |s| ensures Before(g, x, s[i]) {
      assert i > k ==> Before(g, s[k], s[i]);
    }
    hide Before;
    var r := s[..k] + [x] + s[k..];
    forall i, j | 0 <= i < j < |r| ensures Before(g, r[i], r[j]) {
      var a := if i < k then i else i - 1;
      var b := if j < k then j else j - 1;
      assert i != k ==> r[i] == s[a];
      assert j != k ==> r[j] == s[b];
    }
  }

  // ----- FixLinearization: move every element back past its last ancestor -----

  /** Length of the shortest prefix of `t` that holds every ancestor of `e` in `t`. */
  function AncestorsEnd(g: Graph, e: nat, t: seq<nat>): (k: nat)
    ensures k <= |t|
    ensures forall i | k <= i < |t| :: t[i] !in g.Ancestors(e)
    ensures k > 0 ==> t[k - 1] in g.Ancestors(e)
  {
    if t == [] then 0
    else if t[|t| - 1] in g.Ancestors(e) then |t|
    else AncestorsEnd(g, e, t[..|t| - 1])
  }

  function Place(g: Graph, e: nat, t: seq<nat>): (r: seq<nat>)
    ensures |r| == |t| + 1
  {
    var k := AncestorsEnd(g, e, t);
    t[..k] + [e] + t[k..]
  }

  function Fixed(g: Graph, s: seq<nat>): (r: seq<nat>)
    ensures |r| == |s|
  {
    if s == [] then [] else Place(g, s[0], Fixed(g, s[1..]))
  }

  lemma InsertMultiset(t: seq<nat>, k: nat, e: nat)
    requires k <= |t|
    ensures multiset(t[..k] + [e] + t[k..]) == multiset{e} + multiset(t)
  {
    assert t == t[..k] + t[k..];
  }

  lemma {:induction false} FixedPermutation(g: Graph, s: seq<nat>)
    ensures multiset(Fixed(g, s)) == multiset(s)
  {
    if s != [] {
      var t := Fixed(g, s[1..]);
      var k := AncestorsEnd(g, s[0], t);
      FixedPermutation(g, s[1..]);
      InsertMultiset(t, k, s[0]);
      assert s == [s[0]] + s[1..];
    }
  }

  lemma SameElements(a: seq<nat>, b: seq<nat>)
    requires multiset(a) == multiset(b)
    ensures forall x :: x in a <==> x in b
  {
    forall x ensures x in a <==> x in b {
      assert x in a <==> x in multiset(a);
      assert x in b <==> x in multiset(b);
    }
  }

  lemma {:induction false} FixedNoDuplicates(g: Graph, s: seq<nat>)
    requires NoDuplicates(s)
    ensures NoDuplicates(Fixed(g, s))
  {
    if s != [] {
      var t, r := Fixed(g, s[1..]), Fixed(g, s);
      var k := AncestorsEnd(g, s[0], t);
      FixedNoDuplicates(g, s[1..]);
      FixedPermutation(g, s[1..]);
      SameElements(t, s[1..]);
      assert s[0] !in s[1..];
      forall i, j | 0 <= i < j < |r| ensures r[i] != r[j] {
        var x := if i < k then i else i - 1;
        var y := if j < k then j else j - 1;
        assert i != k ==> r[i] == t[x];
        assert j != k ==> r[j] == t[y];
      }
    }
  }

  /** What stands before one of e's ancestors does not depend on e. */
  lemma BeforeAncestor(g: Graph, e: nat, t: seq<nat>, i: nat, m: nat)
    requires g.Valid() && g.Acyclic() && e in g.used && InUse(g, t)
    requires Topological(g, t) && e !in t
    requires i <= m < |t| && t[m] in g.Ancestors(e)
    ensures e !in g.Ancestors(t[i])
  {
    var y := t[i];
    assert e in g.Ancestors(y) ==> g.Ancestors(e) <= g.Ancestors(y);
    if i < m {
      assert t[m] !in g.Ancestors(y);
    } else {
      assert e in g.Ancestors(y) ==> {e, y} <= g.Ancestors(e) * g.Descendants(e);
    }
  }

  lemma PlaceTopological(g: Graph, e: nat, t: seq<nat>)
    requires g.Valid() && g.Acyclic() && e in g.used && InUse(g, t)
    requires Topological(g, t) && e !in t
    ensures Topological(g, Place(g, e, t))
  {
    var k := AncestorsEnd(g, e, t);
    var r := Place(g, e, t);
    forall i | 0 <= i < k ensures e !in g.Ancestors(t[i]) {
      BeforeAncestor(g, e, t, i, k - 1);
    }
    forall i, j | 0 <= i < j < |r| ensures r[j] !in g.Ancestors(r[i]) {
      var x := if i < k then i else i - 1;
      var y := if j < k then j else j - 1;
      assert i != k ==> r[i] == t[x];
      assert j != k ==> r[j] == t[y];
    }
  }

  /** On an acyclic graph any order of distinct transactions becomes topological. */
  lemma {:induction false} FixedTopological(g: Graph, s: seq<nat>)
    requires g.Valid() && g.Acyclic() && InUse(g, s) && NoDuplicates(s)
    ensures Topological(g, Fixed(g, s))
  {
    if s != [] {
      assert forall x | x in s[1..] :: x in s;
      FixedTopological(g, s[1..]);
      FixedPermutation(g, s[1..]);
      SameElements(Fixed(g, s[1..]), s[1..]);
      PlaceTopological(g, s[0], Fixed(g, s[1..]));
    }
  }

  /** A topological order is left as it is. */
  lemma {:induction false} FixedUnchanged(g: Graph, s: seq<nat>)
    requires Topological(g, s)
    ensures Fixed(g, s) == s
  {
    if s != [] {
      var t := s[1..];
      FixedUnchanged(g, t);
      forall j | 0 <= j < |t| ensures t[j] !in g.Ancestors(s[0]) {
        assert t[j] == s[j + 1];
      }
      assert s == [s[0]] + t;
    }
  }

  /** Make an order topological in place, from back to front. */
  method FixLinearization(g: Graph, lin: array<nat>)
    requires NoDuplicates(lin[..])
    modifies lin
    ensures lin[..] == Fixed(g, old(lin[..]))
  {
    ghost var s := lin[..];
    var done: set<nat> := {};
    var n := lin.Length;
    var i := 0;
    while i < n
      invariant 0 <= i <= n
      invariant lin[..] == s[..n - i] + Fixed(g, s[n - i..])
      invariant forall x :: x in done <==> x in Fixed(g, s[n - i..])
    {
      var elem := lin[n - 1 - i];
      ghost var t := Fixed(g, s[n - i..]);
      FixedNoDuplicates(g, s[n - i..]);
      assert s[..n - i] == s[..n - 1 - i] + [elem];
      MoveBack(g, lin, i, done * g.Ancestors(elem), s[..n - 1 - i], t);
      assert s[n - 1 - i..][1..] == s[n - i..];
      PlaceElements(g, elem, t);
      done := done + {elem};
      i := i + 1;
    }
  }

  lemma PlaceElements(g: Graph, e: nat, t: seq<nat>)
    ensures forall x :: x in Place(g, e, t) <==> x == e || x in t
  {
    var k := AncestorsEnd(g, e, t);
    assert t == t[..k] + t[k..];
  }

  /** `left` are the ancestors of `e` among the elements of `t` from position `p` on. */
  ghost predicate Pending(g: Graph, e: nat, t: seq<nat>, p: nat, left: set<nat>) {
    p <= |t| && p <= AncestorsEnd(g, e, t) && forall x :: x in left <==> x in t[p..] && x in g.Ancestors(e)
  }

  lemma PendingStep(g: Graph, e: nat, t: seq<nat>, p: nat, left: set<nat>)
    requires Pending(g, e, t, p, left) && left != {} && NoDuplicates(t)
    ensures p < |t| && Pending(g, e, t, p + 1, left - {t[p]})
  {
    var w :| w in left;
    var m :| 0 <= m < |t[p..]| && t[p..][m] == w;
    assert t[p + m] == w;
    assert t[p..] == [t[p]] + t[p + 1..];
  }

  lemma PendingDone(g: Graph, e: nat, t: seq<nat>, p: nat)
    requires Pending(g, e, t, p, {})
    ensures p == AncestorsEnd(g, e, t)
  {
    assert forall m | p <= m < |t| :: t[m] in t[p..];
  }

  /** `front`, then `t` with `x` put in at position `p`. */
  ghost function Gap(front: seq<nat>, t: seq<nat>, p: nat, x: nat): seq<nat>
    requires p <= |t|
  {
    front + (t[..p] + [x] + t[p..])
  }

  lemma GapStart(g: Graph, front: seq<nat>, e: nat, t: seq<nat>, ancestors: set<nat>)
    requires forall x :: x in ancestors <==> x in t && x in g.Ancestors(e)
    ensures Pending(g, e, t, 0, ancestors) && Gap(front, t, 0, e) == front + [e] + t
  {
    assert t[0..] == t;
  }

  lemma ShiftGap(front: seq<nat>, t: seq<nat>, p: nat, x: nat)
    requires p < |t|
    ensures |Gap(front, t, p, x)| == |front| + |t| + 1
    ensures Gap(front, t, p, x)[|front| + p + 1] == t[p]
    ensures Gap(front, t, p, x)[|front| + p := t[p]] == Gap(front, t, p + 1, t[p])
  {
  }

  lemma FillGap(front: seq<nat>, t: seq<nat>, p: nat, x: nat, e: nat)
    requires p <= |t|
    ensures |Gap(front, t, p, x)| == |front| + |t| + 1
    ensures Gap(front, t, p, x)[|front| + p := e] == Gap(front, t, p, e)
  {
  }

  /** Move the element in front of the last `i` (which are `t`) back, until no ancestor of it is
      after it; `ancestors` are its ancestors among those. */
  method MoveBack(g: Graph, lin: array<nat>, i: nat, ancestors: set<nat>, ghost front: seq<nat>, ghost t: seq<nat>)
    requires i < lin.Length && |front| == lin.Length - 1 - i
    requires lin[..] == front + [lin[lin.Length - 1 - i]] + t && NoDuplicates(t)
    requires forall x :: x in ancestors <==> x in t && x in g.Ancestors(lin[lin.Length - 1 - i])
    modifies lin
    ensures lin[..] == front + Place(g, old(lin[lin.Length - 1 - i]), t)
  {
    hide *;
    var n := lin.Length;
    var elem := lin[n - 1 - i];
    var placeBefore := ancestors;
    var j := i;
    ghost var hole := elem;
    GapStart(g, front, elem, t, ancestors);
    assert |t| == i;
    PlaceIsGap(g, front, elem, t);
    while placeBefore != {}
      invariant 0 <= j <= i && |t| == i && |front| == n - 1 - i
      invariant Pending(g, elem, t, i - j, placeBefore)
      invariant lin[..] == Gap(front, t, i - j, hole)
      decreases j
    {
      PendingStep(g, elem, t, i - j, placeBefore);
      ShiftGap(front, t, i - j, hole);
      ghost var before := lin[..];
      var toSwap := lin[n - 1 - (j - 1)];
      assert toSwap == before[|front| + (i - j) + 1];
      placeBefore := placeBefore - {toSwap};
      lin[n - 1 - j] := toSwap;
      assert lin[..] == before[n - 1 - j := toSwap];
      hole := toSwap;
      j := j - 1;
    }
    PendingDone(g, elem, t, i - j);
    FillGap(front, t, i - j, hole, elem);
    ghost var before := lin[..];
    lin[n - 1 - j] := elem;
    assert lin[..] == before[n - 1 - j := elem];
  }

  lemma PlaceIsGap(g: Graph, front: seq<nat>, e: nat, t: seq<nat>)
    ensures Gap(front, t, AncestorsEnd(g, e, t), e) == front + Place(g, e, t)
  {
  }
}
