/** Dependency graphs of transactions, kept transitively closed. */
module DepGraphs {
  import opened FeeRate

  /** One transaction: its own fee and size, and its ancestors and descendants (itself included). */
  datatype Entry = Entry(feerate: FeeFrac, ancestors: set<nat>, descendants: set<nat>)

  /** The contents of a dependency graph: `entries` by position, and which positions are in use. */
  datatype Graph = Graph(entries: seq<Entry>, used: set<nat>) {

    function FeeRate(i: nat): FeeFrac {
      FeeFrac(if i < |entries| then entries[i].feerate.fee else 0,
              if i < |entries| then entries[i].feerate.size else 0)
    }

    function Ancestors(i: nat): set<nat> {
      if i < |entries| then entries[i].ancestors else {}
    }

    function Descendants(i: nat): set<nat> {
      if i < |entries| then entries[i].descendants else {}
    }

    /** Positions in use lie inside `entries`, and no unused entry trails. */
    ghost predicate InBounds() {
      && (forall i | i in used :: i < |entries|)
      && (|entries| > 0 ==> |entries| - 1 in used)
    }

    /** On the positions in use the ancestor relation is reflexive and transitive, relates only
        positions in use, and the descendant sets are its converse. */
    ghost predicate Closed() {
      Reflexive() && Confined() && Converse() && Transitive()
    }

    ghost predicate Reflexive() {
      forall i | i in used :: i in Ancestors(i)
    }

    ghost predicate Confined() {
      forall i | i in used :: Ancestors(i) <= used && Descendants(i) <= used
    }

    ghost predicate Converse() {
      forall i, j | i in used && j in used :: j in Ancestors(i) <==> i in Descendants(j)
    }

    ghost predicate Transitive() {
      forall i, j | i in used && j in Ancestors(i) :: Ancestors(j) <= Ancestors(i)
    }

    ghost predicate Valid() {
      InBounds() && Closed()
    }

    /** No two distinct transactions depend on each other. */
    ghost predicate Acyclic() {
      forall i | i in used :: Ancestors(i) * Descendants(i) == {i}
    }

    /** Every transaction has a positive size. */
    ghost predicate Sized() {
      forall i | i in used :: FeeRate(i).size > 0
    }
  }

  // ----- Operations on graph contents -----

  /** Lowest position at or after `i` that is not in use. */
  function FirstFree(g: Graph, i: nat): (r: nat)
    requires g.InBounds()
    ensures i <= r && r !in g.used && (forall j | i <= j < r :: j in g.used)
    ensures i <= |g.entries| ==> r <= |g.entries|
    decreases |g.entries| - i
  {
    if i in g.used then FirstFree(g, i + 1) else i
  }

  function WithTransaction(g: Graph, f: FeeFrac): (r: Graph)
    requires g.InBounds()
    ensures r.used == g.used + {FirstFree(g, 0)}
  {
    var idx := FirstFree(g, 0);
    var e := Entry(f, {idx}, {idx});
    Graph(if idx == |g.entries| then g.entries + [e] else g.entries[idx := e], g.used + {idx})
  }

  /** Drop the trailing entries whose positions are not in use. */
  function Trim(es: seq<Entry>, used: set<nat>): (r: seq<Entry>)
    ensures r <= es && (r != [] ==> |r| - 1 in used)
    ensures forall i: nat | |r| <= i < |es| :: i !in used
  {
    if es == [] || |es| - 1 in used then es else Trim(es[..|es| - 1], used)
  }

  function Mask(es: seq<Entry>, used: set<nat>): (r: seq<Entry>)
    ensures |r| == |es|
  {
    seq(|es|, i requires 0 <= i < |es| =>
      es[i].(ancestors := es[i].ancestors * used, descendants := es[i].descendants * used))
  }

  function WithoutTransactions(g: Graph, del: set<nat>): Graph {
    var used := g.used - del;
    Graph(Mask(Trim(g.entries, used), used), used)
  }

  /** Ancestors of the given parents that `child` does not have yet. */
  function NewAncestors(g: Graph, parents: set<nat>, child: nat): set<nat> {
    (set p, a | p in parents - g.Ancestors(child) && a in g.Ancestors(p) :: a) - g.Ancestors(child)
  }

  /** Make everything in `anc` an ancestor of everything in `des`. */
  function Linked(es: seq<Entry>, anc: set<nat>, des: set<nat>): (r: seq<Entry>)
    ensures |r| == |es|
  {
    seq(|es|, i requires 0 <= i < |es| =>
      es[i].(ancestors := es[i].ancestors + (if i in des then anc else {}),
             descendants := es[i].descendants + (if i in anc then des else {})))
  }

  function WithDependencies(g: Graph, parents: set<nat>, child: nat): Graph {
    g.(entries := Linked(g.entries, NewAncestors(g, parents, child), g.Descendants(child)))
  }

  // ----- What the operations mean -----

  lemma WithTransactionMeaning(g: Graph, f: FeeFrac)
    requires g.Valid()
    ensures var r := WithTransaction(g, f);
            var idx := FirstFree(g, 0);
            && r.Valid()
            && r.FeeRate(idx) == f && r.Ancestors(idx) == {idx}
            && forall i | i in g.used ::
                 r.FeeRate(i) == g.FeeRate(i) && r.Ancestors(i) == g.Ancestors(i)
  {
    var r, idx := WithTransaction(g, f), FirstFree(g, 0);
    assert r.entries[idx] == Entry(f, {idx}, {idx});
    forall i | i in g.used
      ensures i < |g.entries| && i < |r.entries| && r.entries[i] == g.entries[i]
    {
    }
    UnrelatedToNew(g, idx);
    assert r.Closed();
  }

  lemma UnrelatedToNew(g: Graph, idx: nat)
    requires g.Valid() && idx !in g.used
    ensures forall i | i in g.used :: idx !in g.Ancestors(i) && idx !in g.Descendants(i)
  {
  }

  /** Removal restricts the relation to what remains: a grandparent stays an ancestor even when
      the parent between them is removed. */
  lemma WithoutTransactionsMeaning(g: Graph, del: set<nat>)
    requires g.Valid()
    ensures var r := WithoutTransactions(g, del);
            && r.Valid() && r.used == g.used - del
            && forall i | i in r.used ::
                 r.FeeRate(i) == g.FeeRate(i) && r.Ancestors(i) == g.Ancestors(i) - del
  {
    var r := WithoutTransactions(g, del);
    forall i | i in r.used
      ensures i < |r.entries|
      ensures r.FeeRate(i) == g.FeeRate(i) && r.Ancestors(i) == g.Ancestors(i) - del
      ensures r.Descendants(i) == g.Descendants(i) - del
    {
      assert g.Ancestors(i) * r.used == g.Ancestors(i) - del;
      assert g.Descendants(i) * r.used == g.Descendants(i) - del;
    }
  }

  ghost predicate DependsVia(g: Graph, parents: set<nat>, child: nat, i: nat, a: nat) {
    child in g.Ancestors(i) && exists p :: p in parents && a in g.Ancestors(p)
  }

  /** The new relation adds exactly: ancestors of the parents become ancestors of the child's
      descendants. */
  lemma WithDependenciesMeaning(g: Graph, parents: set<nat>, child: nat)
    requires g.Valid() && child in g.used && parents <= g.used
    ensures var r := WithDependencies(g, parents, child);
            && r.used == g.used
            && (forall i: nat :: r.FeeRate(i) == g.FeeRate(i))
            && (forall i, a: nat | i in g.used ::
                 a in r.Ancestors(i) <==> a in g.Ancestors(i) || DependsVia(g, parents, child, i, a))
  {
    var r := WithDependencies(g, parents, child);
    var anc := NewAncestors(g, parents, child);
    forall i, a: nat | i in g.used
      ensures a in r.Ancestors(i) <==> a in g.Ancestors(i) || DependsVia(g, parents, child, i, a)
    {
      if DependsVia(g, parents, child, i, a) {
        var p :| p in parents && a in g.Ancestors(p);
        assert i in g.Descendants(child);
        if p in g.Ancestors(child) {
          assert a in g.Ancestors(child);
          assert a in g.Ancestors(i);
        }
      }
    }
  }

  lemma WithDependenciesValid(g: Graph, parents: set<nat>, child: nat)
    requires g.Valid() && child in g.used && parents <= g.used
    ensures WithDependencies(g, parents, child).Valid()
  {
    NewAncestorsClosed(g, parents, child);
    LinkedClosed(g, NewAncestors(g, parents, child), child);
  }

  /** `r` is `g` with everything in `anc` made an ancestor of the descendants of `child`. */
  ghost predicate LinkedTo(g: Graph, anc: set<nat>, child: nat, r: Graph) {
    && r.used == g.used
    && (forall i | i in g.used ::
         r.Ancestors(i) == g.Ancestors(i) + (if i in g.Descendants(child) then anc else {}))
    && (forall i | i in g.used ::
         r.Descendants(i) == g.Descendants(i) + (if i in anc then g.Descendants(child) else {}))
  }

  lemma LinkedIsLinkedTo(g: Graph, anc: set<nat>, child: nat)
    requires g.InBounds()
    ensures LinkedTo(g, anc, child, g.(entries := Linked(g.entries, anc, g.Descendants(child))))
    ensures g.(entries := Linked(g.entries, anc, g.Descendants(child))).InBounds()
  {
  }

  /** Linking keeps the relation closed when, with the child's own ancestors, `anc` is closed. */
  lemma LinkedClosed(g: Graph, anc: set<nat>, child: nat)
    requires g.Valid() && child in g.used && anc <= g.used
    requires forall j | j in anc :: g.Ancestors(j) <= anc + g.Ancestors(child)
    ensures g.(entries := Linked(g.entries, anc, g.Descendants(child))).Valid()
  {
    hide LinkedTo, Linked, Graph.InBounds, Graph.Ancestors;
    LinkedIsLinkedTo(g, anc, child);
    var r := g.(entries := Linked(g.entries, anc, g.Descendants(child)));
    LinkedConverse(g, anc, child, r);
    LinkedTransitive(g, anc, child, r);
  }

  lemma LinkedConverse(g: Graph, anc: set<nat>, child: nat, r: Graph)
    requires g.Closed() && child in g.used && anc <= g.used && LinkedTo(g, anc, child, r)
    ensures r.Reflexive() && r.Confined() && r.Converse()
  {
    hide Graph.Ancestors, Graph.Descendants;
    forall i, j | i in r.used && j in r.used
      ensures j in r.Ancestors(i) <==> i in r.Descendants(j)
    {
      assert j in g.Ancestors(i) <==> i in g.Descendants(j);
    }
  }

  lemma LinkedTransitive(g: Graph, anc: set<nat>, child: nat, r: Graph)
    requires g.Closed() && child in g.used && anc <= g.used && LinkedTo(g, anc, child, r)
    requires forall k | k in anc :: g.Ancestors(k) <= anc + g.Ancestors(child)
    ensures r.Transitive()
  {
    hide Graph.Ancestors, Graph.Descendants;
    var des := g.Descendants(child);
    forall i, j | i in r.used && j in r.Ancestors(i) ensures r.Ancestors(j) <= r.Ancestors(i) {
      assert j in g.used;
      assert i in des ==> g.Ancestors(child) <= g.Ancestors(i);
      assert j in g.Ancestors(i) && j in des ==> child in g.Ancestors(i);
    }
  }

  /** NewAncestors together with the child's own ancestors is closed under ancestors. */
  lemma NewAncestorsClosed(g: Graph, parents: set<nat>, child: nat)
    requires g.Valid() && child in g.used && parents <= g.used
    ensures NewAncestors(g, parents, child) <= g.used
    ensures child !in NewAncestors(g, parents, child)
    ensures forall j | j in NewAncestors(g, parents, child) ::
              g.Ancestors(j) <= NewAncestors(g, parents, child) + g.Ancestors(child)
  {
    var anc := NewAncestors(g, parents, child);
    forall j | j in anc
      ensures j in g.used && g.Ancestors(j) <= anc + g.Ancestors(child)
    {
      var p :| p in parents - g.Ancestors(child) && j in g.Ancestors(p);
      assert g.Ancestors(j) <= g.Ancestors(p);
    }
  }

  lemma NothingNew(g: Graph, parents: set<nat>, child: nat)
    requires NewAncestors(g, parents, child) == {}
    ensures WithDependencies(g, parents, child) == g
  {
    var r := WithDependencies(g, parents, child);
    forall i | 0 <= i < |g.entries| ensures r.entries[i] == g.entries[i] {
      assert g.entries[i].ancestors + {} == g.entries[i].ancestors;
      assert g.entries[i].descendants + {} == g.entries[i].descendants;
    }
    assert r.entries == g.entries;
  }

  /** The result is the smallest closed relation containing the old one and the new edges. */
  lemma WithDependenciesLeast(g: Graph, parents: set<nat>, child: nat, h: Graph)
    requires g.Valid() && child in g.used && parents <= g.used
    requires h.Closed() && h.used == g.used
    requires forall i | i in g.used :: g.Ancestors(i) <= h.Ancestors(i)
    requires parents <= h.Ancestors(child)
    ensures forall i | i in g.used :: WithDependencies(g, parents, child).Ancestors(i) <= h.Ancestors(i)
  {
    WithDependenciesMeaning(g, parents, child);
    var r := WithDependencies(g, parents, child);
    forall i, a | i in g.used && a in r.Ancestors(i)
      ensures a in h.Ancestors(i)
    {
      if a !in g.Ancestors(i) {
        assert DependsVia(g, parents, child, i, a);
        var p :| p in parents && a in g.Ancestors(p);
        assert child in h.Ancestors(i);
        assert p in h.Ancestors(child);
        assert a in h.Ancestors(p);
      }
    }
  }

  // ----- Whole runs -----

  datatype Op =
    | AddTx(feerate: FeeFrac)
    | RemoveTxs(del: set<nat>)
    | AddDeps(parents: set<nat>, child: nat)

  /** What the caller owes: dependencies only between transactions in the graph. */
  predicate Allowed(g: Graph, op: Op) {
    op.AddDeps? ==> op.child in g.used && op.parents <= g.used
  }

  function Apply(g: Graph, op: Op): Graph
    requires g.InBounds()
  {
    match op
    case AddTx(f) => WithTransaction(g, f)
    case RemoveTxs(del) => WithoutTransactions(g, del)
    case AddDeps(parents, child) => WithDependencies(g, parents, child)
  }

  /** `g` is reached from the empty graph by the operations `ops`, each allowed when made. */
  ghost predicate Reached(ops: seq<Op>, g: Graph) {
    if ops == [] then g == Graph([], {})
    else exists h: Graph :: Reached(ops[..|ops| - 1], h) && h.InBounds()
           && Allowed(h, ops[|ops| - 1]) && g == Apply(h, ops[|ops| - 1])
  }

  lemma ApplyValid(g: Graph, op: Op)
    requires g.Valid() && Allowed(g, op)
    ensures Apply(g, op).Valid()
  {
    match op
    case AddTx(f) => WithTransactionMeaning(g, f);
    case RemoveTxs(del) => WithoutTransactionsMeaning(g, del);
    case AddDeps(parents, child) => WithDependenciesValid(g, parents, child);
  }

  /** Every run of the three operations keeps ancestors and descendants mutually converse,
      reflexive and transitive. */
  lemma {:induction false} RunValid(ops: seq<Op>, g: Graph)
    requires Reached(ops, g)
    ensures g.Valid()
  {
    if ops != [] {
      var h: Graph :| Reached(ops[..|ops| - 1], h) && h.InBounds()
        && Allowed(h, ops[|ops| - 1]) && g == Apply(h, ops[|ops| - 1]);
      RunValid(ops[..|ops| - 1], h);
      ApplyValid(h, ops[|ops| - 1]);
    }
  }

  // ----- The mutable graph -----

  /** A dependency graph over at most `capacity` positions, updated in place. */
  class DepGraph {
    const capacity: nat
    var entries: seq<Entry>
    var used: set<nat>

    ghost function Value(): Graph
      reads this
    {
      Graph(entries, used)
    }

    ghost predicate Valid()
      reads this
    {
      Value().Valid()
    }

    constructor (capacity: nat)
      ensures Valid() && Value() == Graph([], {}) && this.capacity == capacity
    {
      this.capacity := capacity;
      entries, used := [], {};
    }

    /** Add an unconnected transaction in the first available position. */
    method AddTransaction(f: FeeFrac) returns (idx: nat)
      requires Valid()
      requires exists p: nat :: p < capacity && p !in used
      modifies this
      ensures Valid() && idx < capacity && idx == FirstFree(old(Value()), 0)
      ensures Value() == WithTransaction(old(Value()), f)
    {
      idx := 0;
      while idx in used
        invariant idx <= |entries| && forall j: nat | j < idx :: j in used
        decreases |entries| - idx
      {
        idx := idx + 1;
      }
      WithTransactionMeaning(Value(), f);
      if idx == |entries| {
        entries := entries + [Entry(f, {idx}, {idx})];
      } else {
        entries := entries[idx := Entry(f, {idx}, {idx})];
      }
      used := used + {idx};
    }

    method RemoveTransactions(del: set<nat>)
      requires Valid()
      modifies this
      ensures Valid() && Value() == WithoutTransactions(old(Value()), del)
    {
      WithoutTransactionsMeaning(Value(), del);
      used := used - del;
      while |entries| > 0 && |entries| - 1 !in used
        invariant used == old(used) - del
        invariant Trim(entries, used) == Trim(old(entries), used)
      {
        entries := entries[..|entries| - 1];
      }
      ghost var trimmed := entries;
      var i := 0;
      while i < |entries|
        invariant 0 <= i <= |entries| == |trimmed|
        invariant used == old(used) - del
        invariant forall k | 0 <= k < i :: entries[k] == Mask(trimmed, used)[k]
        invariant forall k | i <= k < |entries| :: entries[k] == trimmed[k]
      {
        var e := entries[i];
        entries := entries[i := e.(ancestors := e.ancestors * used, descendants := e.descendants * used)];
        i := i + 1;
      }
      assert entries == Mask(trimmed, used);
    }

    method AddDependencies(parents: set<nat>, child: nat)
      requires Valid() && child in used && parents <= used
      modifies this
      ensures Valid() && Value() == WithDependencies(old(Value()), parents, child)
    {
      ghost var g := Value();
      WithDependenciesValid(g, parents, child);
      NewAncestorsClosed(g, parents, child);
      var parAnc := CollectAncestors(parents, child);
      hide NewAncestors, Linked;
      if parAnc == {} {
        NothingNew(g, parents, child);
      } else {
        Link(parAnc, entries[child].descendants);
        assert Value() == WithDependencies(g, parents, child);
      }
    }

    /** Make everything in `anc` an ancestor of everything in `des`, in both directions. */
    method Link(anc: set<nat>, des: set<nat>)
      requires forall i | i in anc :: i < |entries|
      requires forall i | i in des :: i < |entries|
      modifies this`entries
      ensures entries == Linked(old(entries), anc, des)
    {
      SpreadDescendants(anc, des);
      SpreadAncestors(des, anc);
    }

    /** The ancestors of the parents that are not already ancestors of the child. */
    method CollectAncestors(parents: set<nat>, child: nat) returns (parAnc: set<nat>)
      requires Valid() && child in used && parents <= used
      ensures parAnc == NewAncestors(Value(), parents, child)
    {
      parAnc := {};
      var todo := parents - entries[child].ancestors;
      while todo != {}
        invariant todo <= parents - entries[child].ancestors
        invariant parAnc == set p, a | p in parents - Value().Ancestors(child) - todo
                                       && a in Value().Ancestors(p) :: a
        decreases todo
      {
        var par :| par in todo;
        parAnc := parAnc + entries[par].ancestors;
        todo := todo - {par};
      }
      parAnc := parAnc - entries[child].ancestors;
    }

    /** To each transaction in `anc`, add the descendants `des`. */
    method SpreadDescendants(anc: set<nat>, des: set<nat>)
      requires forall i | i in anc :: i < |entries|
      modifies this`entries
      ensures |entries| == |old(entries)|
      ensures forall i | 0 <= i < |entries| :: entries[i] == old(entries)[i].(descendants :=
                old(entries)[i].descendants + if i in anc then des else {})
    {
      var todo := anc;
      while todo != {}
        invariant todo <= anc && |entries| == |old(entries)|
        invariant forall i | 0 <= i < |entries| :: entries[i] == old(entries)[i].(descendants :=
                    old(entries)[i].descendants + if i in anc - todo then des else {})
        decreases todo
      {
        var a :| a in todo;
        entries := entries[a := entries[a].(descendants := entries[a].descendants + des)];
        todo := todo - {a};
      }
    }

    /** To each transaction in `des`, add the ancestors `anc`. */
    method SpreadAncestors(des: set<nat>, anc: set<nat>)
      requires forall i | i in des :: i < |entries|
      modifies this`entries
      ensures |entries| == |old(entries)|
      ensures forall i | 0 <= i < |entries| :: entries[i] == old(entries)[i].(ancestors :=
                old(entries)[i].ancestors + if i in des then anc else {})
    {
      var todo := des;
      while todo != {}
        invariant todo <= des && |entries| == |old(entries)|
        invariant forall i | 0 <= i < |entries| :: entries[i] == old(entries)[i].(ancestors :=
                    old(entries)[i].ancestors + if i in des - todo then anc else {})
        decreases todo
      {
        var d :| d in todo;
        entries := entries[d := entries[d].(ancestors := entries[d].ancestors + anc)];
        todo := todo - {d};
      }
    }
  }
}
