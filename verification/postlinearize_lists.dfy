/** Post-linearization as the source runs it: groups kept as linked lists inside one array.

    entries[0] is the sentinel and entries[t + 1] belongs to transaction t. A group is a chain of
    `prevTx` references from its last transaction to its first; the groups form a circular list of
    `prevGroup` references from the sentinel to the last group and on to the first. */
module PostLinearizeLists {
  import opened FeeRate
  import opened DepGraphs
  import opened Linearizations
  import opened Sequences
  import opened Topology
  import opened PostLinearization

  datatype TxEntry = TxEntry(
    prevTx: nat,        // previous transaction in the group, 0 for the first
    firstTx: nat,       // first transaction of the group (tails only, like the rest)
    prevGroup: nat,     // tail of the previous group, 0 for the first group
    group: set<nat>,
    deps: set<nat>,
    feerate: FeeFrac)

  // ----- What the array represents -----

  function Tail(group: seq<nat>): nat
    requires group != []
  {
    group[|group| - 1] + 1
  }

  ghost predicate Chained(es: seq<TxEntry>, group: seq<nat>) {
    forall k | 0 <= k < |group| ::
      group[k] + 1 < |es| && es[group[k] + 1].prevTx == if k == 0 then 0 else group[k - 1] + 1
  }

  ghost predicate Described(g: Graph, e: TxEntry, group: seq<nat>)
    requires group != []
  {
    && e.firstTx == group[0] + 1
    && (forall x :: x in e.group <==> x in group)
    && e.deps == DepsOf(g, group) && e.feerate == Total(g, group)
  }

  /** `group` is stored in the array, with `prev` the tail of the group before it. */
  ghost predicate GroupAt(g: Graph, es: seq<TxEntry>, group: seq<nat>, prev: nat) {
    && group != [] && Chained(es, group) && Tail(group) < |es|
    && Described(g, es[Tail(group)], group) && es[Tail(group)].prevGroup == prev
  }

  /** Following `prevGroup` from `tail` to the front of the list gives `groups`, last first. */
  ghost predicate ListEndingAt(g: Graph, es: seq<TxEntry>, groups: seq<seq<nat>>, tail: nat) {
    if groups == [] then tail == 0
    else
      var front, last := groups[..|groups| - 1], groups[|groups| - 1];
      && last != [] && tail == Tail(last) && tail < |es|
      && GroupAt(g, es, last, es[tail].prevGroup)
      && ListEndingAt(g, es, front, es[tail].prevGroup)
  }

  /** The groups after one whose tail is `prev`, the last of them referred to by the sentinel. */
  ghost predicate ListAfter(g: Graph, es: seq<TxEntry>, groups: seq<seq<nat>>, prev: nat) {
    if groups == [] then |es| > 0 && es[0].prevGroup == prev
    else GroupAt(g, es, groups[0], prev) && ListAfter(g, es, groups[1..], Tail(groups[0]))
  }

  ghost predicate Agree(es: seq<TxEntry>, fs: seq<TxEntry>, on: seq<nat>) {
    |es| == |fs| && forall x | x in on && x + 1 < |es| :: fs[x + 1] == es[x + 1]
  }

  lemma AgreeParts(es: seq<TxEntry>, fs: seq<TxEntry>, a: seq<nat>, b: seq<nat>)
    requires Agree(es, fs, a + b)
    ensures Agree(es, fs, a) && Agree(es, fs, b)
  {
    assert forall x | x in a || x in b :: x in a + b;
  }

  lemma GroupUntouched(g: Graph, es: seq<TxEntry>, fs: seq<TxEntry>, group: seq<nat>, prev: nat)
    requires GroupAt(g, es, group, prev) && Agree(es, fs, group)
    ensures GroupAt(g, fs, group, prev)
  {
    forall k | 0 <= k < |group| ensures fs[group[k] + 1] == es[group[k] + 1] {
      assert group[k] in group;
    }
  }

  /** Changing only the back reference of a group's tail. */
  lemma GroupRelinked(g: Graph, es: seq<TxEntry>, fs: seq<TxEntry>, group: seq<nat>, prev: nat, prev': nat)
    requires GroupAt(g, es, group, prev) && |fs| == |es|
    requires fs[Tail(group)] == es[Tail(group)].(prevGroup := prev')
    requires forall x | x in group && x + 1 < |es| && x + 1 != Tail(group) :: fs[x + 1] == es[x + 1]
    ensures GroupAt(g, fs, group, prev')
  {
    forall k | 0 <= k < |group| ensures fs[group[k] + 1].prevTx == es[group[k] + 1].prevTx {
      assert group[k] in group;
    }
  }

  lemma {:induction false} EndingUntouched(g: Graph, es: seq<TxEntry>, fs: seq<TxEntry>, groups: seq<seq<nat>>, tail: nat)
    requires ListEndingAt(g, es, groups, tail) && Agree(es, fs, Flatten(groups))
    ensures ListEndingAt(g, fs, groups, tail)
    decreases |groups|
  {
    if groups != [] {
      var front, last := groups[..|groups| - 1], groups[|groups| - 1];
      assert groups == front + [last];
      FlattenLast(front, last);
      AgreeParts(es, fs, Flatten(front), last);
      assert last[|last| - 1] in last;
      GroupUntouched(g, es, fs, last, es[tail].prevGroup);
      EndingUntouched(g, es, fs, front, es[tail].prevGroup);
    }
  }

  lemma {:induction false} AfterUntouched(g: Graph, es: seq<TxEntry>, fs: seq<TxEntry>, groups: seq<seq<nat>>, prev: nat)
    requires ListAfter(g, es, groups, prev) && Agree(es, fs, Flatten(groups))
    requires |es| > 0 && fs[0].prevGroup == es[0].prevGroup
    ensures ListAfter(g, fs, groups, prev)
  {
    if groups != [] {
      AgreeParts(es, fs, groups[0], Flatten(groups[1..]));
      GroupUntouched(g, es, fs, groups[0], prev);
      AfterUntouched(g, es, fs, groups[1..], Tail(groups[0]));
    }
  }

  /** Index of the entry that refers back to the group before `after`. */
  ghost function Next(after: seq<seq<nat>>): nat {
    if after == [] || after[0] == [] then 0 else Tail(after[0])
  }

  lemma AfterRelinked(g: Graph, es: seq<TxEntry>, fs: seq<TxEntry>, after: seq<seq<nat>>, prev: nat, prev': nat)
    requires ListAfter(g, es, after, prev) && |es| == |fs| && Next(after) < |es|
    requires NoDuplicates(Flatten(after))
    requires fs[Next(after)] == es[Next(after)].(prevGroup := prev')
    requires forall x | x in Flatten(after) && x + 1 < |es| && x + 1 != Next(after) :: fs[x + 1] == es[x + 1]
    requires after != [] ==> fs[0] == es[0]
    ensures ListAfter(g, fs, after, prev')
  {
    if after != [] {
      var head, rest := after[0], Flatten(after[1..]);
      assert Flatten(after) == head + rest;
      assert forall x | x in head || x in rest :: x in Flatten(after);
      GroupRelinked(g, es, fs, head, prev, prev');
      NoDuplicatesParts(head, rest);
      assert head[|head| - 1] in head;
      AfterUntouched(g, es, fs, after[1..], Tail(head));
    }
  }

  lemma {:induction false} JoinLists(g: Graph, es: seq<TxEntry>, before: seq<seq<nat>>, after: seq<seq<nat>>, tail: nat)
    requires ListEndingAt(g, es, before, tail) && ListAfter(g, es, after, tail)
    ensures ListEndingAt(g, es, before + after, es[0].prevGroup)
    decreases |after|
  {
    if after == [] {
      assert before + after == before;
    } else {
      var more := before + [after[0]];
      assert more[..|more| - 1] == before;
      JoinLists(g, es, more, after[1..], Tail(after[0]));
      assert more + after[1..] == before + after;
    }
  }

  /** The list `before`, then the current group `c`, then `after`; nothing stored twice. */
  ghost predicate Around(g: Graph, es: seq<TxEntry>, before: seq<seq<nat>>, c: seq<nat>, after: seq<seq<nat>>, prev: nat) {
    && |es| > 0 && es[0].feerate.fee == 0 && es[0].feerate.size == 0
    && ListEndingAt(g, es, before, prev) && GroupAt(g, es, c, prev) && ListAfter(g, es, after, Tail(c))
    && NoDuplicates(Flatten(before) + c + Flatten(after))
  }

  /** A whole list, as found between insertions. */
  ghost predicate Whole(g: Graph, es: seq<TxEntry>, groups: seq<seq<nat>>) {
    && |es| > 0 && es[0].feerate.fee == 0 && es[0].feerate.size == 0
    && ListEndingAt(g, es, groups, es[0].prevGroup) && NoDuplicates(Flatten(groups))
  }

  lemma AroundIsWhole(g: Graph, es: seq<TxEntry>, before: seq<seq<nat>>, c: seq<nat>, after: seq<seq<nat>>, prev: nat)
    requires Around(g, es, before, c, after, prev)
    ensures Whole(g, es, before + [c] + after)
  {
    var more := before + [c];
    assert more[..|more| - 1] == before;
    JoinLists(g, es, more, after, Tail(c));
    FlattenAround(before, c, after);
  }

  // ----- Appending a group -----

  function Appended(g: Graph, es: seq<TxEntry>, idx: nat): seq<TxEntry>
    requires idx + 1 < |es|
  {
    es[idx + 1 := TxEntry(0, idx + 1, es[0].prevGroup, {idx}, g.Ancestors(idx), g.FeeRate(idx))]
      [0 := es[0].(prevGroup := idx + 1)]
  }

  lemma AppendAround(g: Graph, es: seq<TxEntry>, groups: seq<seq<nat>>, idx: nat)
    requires Whole(g, es, groups) && idx + 1 < |es| && idx !in Flatten(groups)
    ensures Around(g, Appended(g, es, idx), groups, [idx], [], es[0].prevGroup)
  {
    var fs := Appended(g, es, idx);
    EndingUntouched(g, es, fs, groups, es[0].prevGroup);
    SingletonTight(g, idx);
    assert DepsOf(g, [idx]) == g.Ancestors(idx) + DepsOf(g, [idx][1..]);
    assert Flatten(groups) + [idx] + Flatten([]) == Flatten(groups) + [idx];
  }

  // ----- Swapping with the group before -----

  function Swapped(es: seq<TxEntry>, prev: nat, cur: nat, next: nat): seq<TxEntry>
    requires prev < |es| && cur < |es| && next < |es|
  {
    var preprev := es[prev].prevGroup;
    var es1 := es[next := es[next].(prevGroup := prev)];
    var es2 := es1[prev := es1[prev].(prevGroup := cur)];
    es2[cur := es2[cur].(prevGroup := preprev)]
  }

  ghost predicate Apart(a: seq<nat>, b: seq<nat>) {
    forall x | x in a :: x !in b
  }

  /** Four consecutive parts of an order without duplicates are pairwise disjoint. */
  lemma FourParts(f: seq<nat>, p: seq<nat>, c: seq<nat>, a: seq<nat>)
    requires NoDuplicates(f + p + c + a)
    ensures NoDuplicates(a) && NoDuplicates(c)
    ensures Apart(f, p) && Apart(f, c) && Apart(f, a) && Apart(p, c) && Apart(p, a) && Apart(c, a)
  {
    NoDuplicatesParts(f + p + c, a);
    NoDuplicatesParts(f + p, c);
    NoDuplicatesParts(f, p);
    hide NoDuplicates;
    assert forall x | x in f || x in p :: x in f + p && x in f + p + c;
    assert forall x | x in c :: x in f + p + c;
  }

  lemma Rearranged(f: seq<nat>, p: seq<nat>, c: seq<nat>, a: seq<nat>)
    requires NoDuplicates(f + p + c + a)
    ensures NoDuplicates(f + c + (p + a)) && NoDuplicates(f + (p + c) + a)
  {
    assert f + (p + c) + a == f + p + c + a;
    NoDuplicatesPermuted(f + p + c + a, f + c + (p + a));
  }

  lemma AroundParts(g: Graph, es: seq<TxEntry>, front: seq<seq<nat>>, p: seq<nat>, c: seq<nat>, after: seq<seq<nat>>, prev: nat)
    requires Around(g, es, front + [p], c, after, prev)
    ensures p != [] && prev == Tail(p) && prev < |es| && c != [] && Tail(c) < |es|
    ensures GroupAt(g, es, p, es[prev].prevGroup) && ListEndingAt(g, es, front, es[prev].prevGroup)
    ensures NoDuplicates(Flatten(front) + p + c + Flatten(after))
  {
    var before := front + [p];
    assert before[..|before| - 1] == front;
    FlattenLast(front, p);
  }

  /** Where the next group's tail is, in terms of its transactions. */
  lemma NextIndex(g: Graph, es: seq<TxEntry>, after: seq<seq<nat>>, prev: nat)
    requires ListAfter(g, es, after, prev)
    ensures Next(after) < |es|
    ensures after == [] ==> Next(after) == 0
    ensures after != [] ==> Next(after) > 0 && Next(after) - 1 in Flatten(after)
  {
    if after != [] {
      var t := after[0];
      assert t[|t| - 1] in t + Flatten(after[1..]);
    }
  }

  lemma SwappedEntries(es: seq<TxEntry>, prev: nat, cur: nat, next: nat)
    requires prev < |es| && cur < |es| && next < |es| && prev != cur && prev != next && cur != next
    ensures var fs := Swapped(es, prev, cur, next);
            && |fs| == |es|
            && fs[next] == es[next].(prevGroup := prev) && fs[prev] == es[prev].(prevGroup := cur)
            && fs[cur] == es[cur].(prevGroup := es[prev].prevGroup)
            && forall i | 0 <= i < |es| && i != prev && i != cur && i != next :: fs[i] == es[i]
  {
  }

  lemma SwapAround(g: Graph, es: seq<TxEntry>, front: seq<seq<nat>>, p: seq<nat>, c: seq<nat>, after: seq<seq<nat>>, prev: nat)
    requires Around(g, es, front + [p], c, after, prev)
    ensures p != [] && c != [] && prev == Tail(p) && prev < |es| && Tail(c) < |es| && Next(after) < |es|
    ensures Around(g, Swapped(es, prev, Tail(c), Next(after)), front, c, [p] + after, es[prev].prevGroup)
  {
    hide ListEndingAt, GroupAt;
    AroundParts(g, es, front, p, c, after, prev);
    var preprev, fa := es[prev].prevGroup, Flatten(after);
    NextIndex(g, es, after, Tail(c));
    FourParts(Flatten(front), p, c, fa);
    Rearranged(Flatten(front), p, c, fa);
    hide NoDuplicates;
    SwapLists(g, es, front, p, c, after, preprev);
    var more := [p] + after;
    assert more[1..] == after && more[0] == p;
    assert Flatten(more) == p + fa;
    SwappedSentinel(es, prev, Tail(c), Next(after));
  }

  lemma SwappedSentinel(es: seq<TxEntry>, prev: nat, cur: nat, next: nat)
    requires prev < |es| && cur < |es| && next < |es|
    ensures |Swapped(es, prev, cur, next)| == |es|
    ensures Swapped(es, prev, cur, next)[0].feerate == es[0].feerate
  {
  }

  /** Agreement on an order that avoids the (at most three) changed entries. */
  lemma AgreeOff(es: seq<TxEntry>, fs: seq<TxEntry>, on: seq<nat>, i1: nat, i2: nat, i3: nat)
    requires |es| == |fs| && forall i | 0 <= i < |es| && i != i1 && i != i2 && i != i3 :: fs[i] == es[i]
    requires (i1 > 0 ==> i1 - 1 !in on) && (i2 > 0 ==> i2 - 1 !in on) && (i3 > 0 ==> i3 - 1 !in on)
    ensures Agree(es, fs, on)
  {
  }

  lemma SwapLists(g: Graph, es: seq<TxEntry>, front: seq<seq<nat>>, p: seq<nat>, c: seq<nat>, after: seq<seq<nat>>, preprev: nat)
    requires GroupAt(g, es, p, preprev) && GroupAt(g, es, c, Tail(p))
    requires ListEndingAt(g, es, front, preprev) && ListAfter(g, es, after, Tail(c))
    requires Next(after) < |es|
    requires var f, a := Flatten(front), Flatten(after);
             && Apart(f, p) && Apart(f, c) && Apart(f, a) && Apart(p, c) && Apart(p, a) && Apart(c, a) && NoDuplicates(a)
    ensures var fs := Swapped(es, Tail(p), Tail(c), Next(after));
            && ListEndingAt(g, fs, front, preprev) && GroupAt(g, fs, c, preprev)
            && GroupAt(g, fs, p, Tail(c)) && ListAfter(g, fs, after, Tail(p))
  {
    hide Chained, Described, Flatten;
    var next := Next(after);
    var fs := Swapped(es, Tail(p), Tail(c), next);
    NextIndex(g, es, after, Tail(c));
    assert p[|p| - 1] in p && c[|c| - 1] in c;
    assert es[Tail(p)].prevGroup == preprev;
    SwappedEntries(es, Tail(p), Tail(c), next);
    SwapGroups(g, es, fs, p, c, preprev, next);
    hide Swapped, Next, NoDuplicates, GroupAt;
    AgreeOff(es, fs, Flatten(front), Tail(p), Tail(c), next);
    EndingUntouched(g, es, fs, front, preprev);
    hide ListEndingAt;
    AfterRelinked(g, es, fs, after, Tail(c), Tail(p));
  }

  lemma SwapGroups(g: Graph, es: seq<TxEntry>, fs: seq<TxEntry>, p: seq<nat>, c: seq<nat>, preprev: nat, next: nat)
    requires GroupAt(g, es, p, preprev) && GroupAt(g, es, c, Tail(p)) && |es| == |fs|
    requires Apart(p, c) && (next > 0 ==> next - 1 !in p && next - 1 !in c)
    requires fs[Tail(p)] == es[Tail(p)].(prevGroup := Tail(c)) && fs[Tail(c)] == es[Tail(c)].(prevGroup := preprev)
    requires forall i | 0 <= i < |es| && i != Tail(p) && i != Tail(c) && i != next :: fs[i] == es[i]
    ensures GroupAt(g, fs, c, preprev) && GroupAt(g, fs, p, Tail(c))
  {
    assert p[|p| - 1] in p && c[|c| - 1] in c;
    GroupRelinked(g, es, fs, p, preprev, Tail(c));
    GroupRelinked(g, es, fs, c, Tail(p), preprev);
  }

  // ----- Merging with the group before -----

  function Merged(es: seq<TxEntry>, prev: nat, cur: nat): seq<TxEntry>
    requires prev < |es| && cur < |es| && es[cur].firstTx < |es|
  {
    var es1 := es[cur := es[cur].(group := es[cur].group + es[prev].group,
                                  deps := es[cur].deps + es[prev].deps,
                                  feerate := Plus(es[cur].feerate, es[prev].feerate))];
    var first := es1[cur].firstTx;
    var es2 := es1[first := es1[first].(prevTx := prev)];
    es2[cur := es2[cur].(firstTx := es2[prev].firstTx, prevGroup := es2[prev].prevGroup)]
  }

  lemma MergedEntries(es: seq<TxEntry>, prev: nat, cur: nat)
    requires prev < |es| && cur < |es| && es[cur].firstTx < |es| && prev != cur && prev != es[cur].firstTx
    ensures var fs, e, p := Merged(es, prev, cur), es[cur], es[prev];
            && |fs| == |es|
            && fs[cur] == TxEntry(if e.firstTx == cur then prev else e.prevTx, p.firstTx, p.prevGroup,
                                  e.group + p.group, e.deps + p.deps, Plus(e.feerate, p.feerate))
            && (e.firstTx != cur ==> fs[e.firstTx] == es[e.firstTx].(prevTx := prev))
            && forall i | 0 <= i < |es| && i != cur && i != e.firstTx :: fs[i] == es[i]
  {
  }

  lemma MergeAround(g: Graph, es: seq<TxEntry>, front: seq<seq<nat>>, p: seq<nat>, c: seq<nat>, after: seq<seq<nat>>, prev: nat)
    requires Around(g, es, front + [p], c, after, prev)
    ensures p != [] && c != [] && prev == Tail(p) && prev < |es| && Tail(c) < |es| && es[Tail(c)].firstTx < |es|
    ensures prev != Tail(c) && prev != es[Tail(c)].firstTx
    ensures Around(g, Merged(es, prev, Tail(c)), front, p + c, after, es[prev].prevGroup)
  {
    AroundParts(g, es, front, p, c, after, prev);
    var preprev, fa := es[prev].prevGroup, Flatten(after);
    assert es[Tail(c)].firstTx == c[0] + 1 < |es|;
    FourParts(Flatten(front), p, c, fa);
    Rearranged(Flatten(front), p, c, fa);
    assert p[|p| - 1] in p && c[|c| - 1] in c && c[0] in c;
    hide NoDuplicates, GroupAt, ListEndingAt, Merged;
    MergeGroup(g, es, p, c, preprev);
    MergeLists(g, es, front, p, c, after, preprev);
  }

  lemma MergeLists(g: Graph, es: seq<TxEntry>, front: seq<seq<nat>>, p: seq<nat>, c: seq<nat>, after: seq<seq<nat>>, preprev: nat)
    requires GroupAt(g, es, p, preprev) && GroupAt(g, es, c, Tail(p)) && es[Tail(c)].firstTx < |es|
    requires ListEndingAt(g, es, front, preprev) && ListAfter(g, es, after, Tail(c)) && |es| > 0
    requires var f, a := Flatten(front), Flatten(after); Apart(f, c) && Apart(c, a) && Apart(p, c)
    ensures var fs := Merged(es, Tail(p), Tail(c));
            && ListEndingAt(g, fs, front, preprev) && ListAfter(g, fs, after, Tail(c))
            && |fs| == |es| && fs[0] == es[0]
  {
    hide Chained, Flatten;
    var fs := Merged(es, Tail(p), Tail(c));
    assert p[|p| - 1] in p && c[|c| - 1] in c && c[0] in c;
    MergedEntries(es, Tail(p), Tail(c));
    var first := es[Tail(c)].firstTx;
    assert first == c[0] + 1;
    hide Merged, GroupAt;
    AgreeOff(es, fs, Flatten(front), Tail(c), first, first);
    AgreeOff(es, fs, Flatten(after), Tail(c), first, first);
    EndingUntouched(g, es, fs, front, preprev);
    AfterUntouched(g, es, fs, after, Tail(c));
  }

  lemma MergeGroup(g: Graph, es: seq<TxEntry>, p: seq<nat>, c: seq<nat>, preprev: nat)
    requires GroupAt(g, es, p, preprev) && GroupAt(g, es, c, Tail(p)) && es[Tail(c)].firstTx < |es|
    requires Apart(p, c) && NoDuplicates(c)
    ensures GroupAt(g, Merged(es, Tail(p), Tail(c)), p + c, preprev)
  {
    var fs := Merged(es, Tail(p), Tail(c));
    assert p[|p| - 1] in p && c[|c| - 1] in c && c[0] in c;
    MergedEntries(es, Tail(p), Tail(c));
    hide Merged;
    MergeChained(es, fs, p, c);
    DepsOfConcat(g, p, c);
    FeesConcat(g, p, c);
    hide Chained;
    var w := p + c;
    assert Tail(w) == Tail(c) && w[0] == p[0];
    assert forall x :: x in w <==> x in p || x in c;
  }

  lemma MergeChained(es: seq<TxEntry>, fs: seq<TxEntry>, p: seq<nat>, c: seq<nat>)
    requires p != [] && c != [] && Chained(es, p) && Chained(es, c) && Apart(p, c) && NoDuplicates(c)
    requires |es| == |fs| && c[0] + 1 < |es| && fs[c[0] + 1].prevTx == Tail(p)
    requires Tail(c) < |es| && (|c| > 1 ==> fs[Tail(c)].prevTx == es[Tail(c)].prevTx)
    requires forall i | 0 <= i < |es| && i != Tail(c) && i != c[0] + 1 :: fs[i] == es[i]
    ensures Chained(fs, p + c)
  {
    var w := p + c;
    forall k | 0 <= k < |w|
      ensures w[k] + 1 < |fs| && fs[w[k] + 1].prevTx == if k == 0 then 0 else w[k - 1] + 1
    {
      if k < |p| {
        ChainedAt(es, p, k);
        assert w[k] == p[k] && p[k] in p && c[0] in c && c[|c| - 1] in c;
        assert fs[p[k] + 1] == es[p[k] + 1];
      } else if k == |p| {
        assert w[k] == c[0] && w[k - 1] == p[|p| - 1];
      } else {
        ChainedAt(es, c, k - |p|);
        assert w[k] == c[k - |p|] && w[k - 1] == c[k - |p| - 1] && c[k - |p|] != c[0];
      }
    }
  }

  // ----- Inserting one transaction -----

  /** The graph a pass works on: even passes exchange parents and children and negate fees. */
  function Directed(g: Graph, rev: bool): Graph {
    if rev then Reversed(g) else g
  }

  lemma DirectedFields(g: Graph, rev: bool, i: nat)
    ensures Directed(g, rev).Ancestors(i) == if rev then g.Descendants(i) else g.Ancestors(i)
    ensures Directed(g, rev).FeeRate(i) == if rev then Negated(g.FeeRate(i)) else g.FeeRate(i)
  {
  }

  /** What the merge/swap loop sees of the list. */
  lemma AroundView(g: Graph, es: seq<TxEntry>, before: seq<seq<nat>>, c: seq<nat>, after: seq<seq<nat>>, prev: nat)
    requires Around(g, es, before, c, after, prev)
    ensures c != [] && Tail(c) < |es| && prev < |es| && Next(after) < |es|
    ensures es[Tail(c)].prevGroup == prev && es[Tail(c)].firstTx < |es|
    ensures es[Tail(c)].feerate == Total(g, c) && es[Tail(c)].deps == DepsOf(g, c)
    ensures before == [] ==> prev == 0 && !Higher(es[Tail(c)].feerate, es[prev].feerate)
    ensures before != [] ==>
              var p := before[|before| - 1];
              && p != [] && prev == Tail(p) && es[prev].feerate == Total(g, p)
              && (es[Tail(c)].deps * es[prev].group != {} <==> DependsOn(g, c, p))
  {
    assert c[0] + 1 < |es|;
    NextIndex(g, es, after, Tail(c));
    if before != [] {
      var p := before[|before| - 1];
      assert GroupAt(g, es, p, es[prev].prevGroup);
      var both := es[Tail(c)].deps * es[prev].group;
      assert forall x :: x in both <==> x in DepsOf(g, c) && x in p;
    }
  }

  /** Insert one transaction as a group of its own and let it settle. */
  method InsertTx(g: Graph, rev: bool, entries: array<TxEntry>, idx: nat, ghost groups: seq<seq<nat>>)
    requires WholeIn(entries, Directed(g, rev), groups)
    requires idx + 1 < entries.Length && idx !in Flatten(groups)
    modifies entries
    ensures WholeIn(entries, Directed(g, rev), Settle(Directed(g, rev), groups, [idx], []))
  {
    ghost var h := Directed(g, rev);
    DirectedFields(g, rev, idx);
    AppendAround(h, entries[..], groups, idx);
    ghost var es := entries[..];
    var cur := idx + 1;
    entries[cur] := TxEntry(0, cur, entries[0].prevGroup, {idx},
                            if rev then g.Descendants(idx) else g.Ancestors(idx),
                            if rev then Negated(g.FeeRate(idx)) else g.FeeRate(idx));
    entries[0] := entries[0].(prevGroup := cur);
    assert entries[..] == Appended(h, es, idx);
    var next: nat, prev: nat := 0, entries[cur].prevGroup;
    ghost var before, c, after := groups, [idx], [];
    hide Around, Whole, Directed, Swapped, Merged, Settle, Total;
    AroundView(h, entries[..], before, c, after, prev);
    while Higher(entries[cur].feerate, entries[prev].feerate)
      invariant prev < entries.Length && cur < entries.Length
      invariant Around(h, entries[..], before, c, after, prev)
      invariant c != [] && cur == Tail(c) && next == Next(after)
      invariant Settle(h, before, c, after) == Settle(h, groups, [idx], [])
      decreases |before|
    {
      before, c, after, prev, next := SettleStep(g, rev, entries, before, c, after, prev, cur, next);
      AroundView(h, entries[..], before, c, after, prev);
    }
    AroundView(h, entries[..], before, c, after, prev);
    SettleDone(h, before, c, after);
    AroundIsWhole(h, entries[..], before, c, after, prev);
  }

  lemma SettleDone(g: Graph, before: seq<seq<nat>>, c: seq<nat>, after: seq<seq<nat>>)
    requires before != [] ==> !Higher(Total(g, c), Total(g, before[|before| - 1]))
    ensures Settle(g, before, c, after) == before + [c] + after
  {
  }

  lemma SettleMore(g: Graph, front: seq<seq<nat>>, p: seq<nat>, c: seq<nat>, after: seq<seq<nat>>)
    requires Higher(Total(g, c), Total(g, p))
    ensures Settle(g, front + [p], c, after)
         == if DependsOn(g, c, p) then Settle(g, front, p + c, after) else Settle(g, front, c, [p] + after)
  {
    var before := front + [p];
    assert before[..|before| - 1] == front && before[|before| - 1] == p;
  }

  /** Merge the previous group into the current one. */
  method MergeEntries(entries: array<TxEntry>, prev: nat, cur: nat) returns (preprev: nat)
    requires prev < entries.Length && cur < entries.Length && entries[cur].firstTx < entries.Length
    requires prev != cur && prev != entries[cur].firstTx
    modifies entries
    ensures entries[..] == Merged(old(entries[..]), prev, cur)
    ensures preprev == old(entries[prev].prevGroup)
  {
    ghost var es := entries[..];
    var p := entries[prev];
    entries[cur] := entries[cur].(group := entries[cur].group + p.group, deps := entries[cur].deps + p.deps,
                                  feerate := Plus(entries[cur].feerate, p.feerate));
    // The first of the current group now follows the tail of the previous group.
    var first := entries[cur].firstTx;
    entries[first] := entries[first].(prevTx := prev);
    // The first of the previous group becomes the first of the merged group.
    entries[cur] := entries[cur].(firstTx := entries[prev].firstTx);
    preprev := entries[prev].prevGroup;
    entries[cur] := entries[cur].(prevGroup := preprev);
    assert entries[..] == Merged(es, prev, cur);
  }

  /** Exchange the previous and the current group: [PP, P, C, N] becomes [PP, C, P, N]. */
  method SwapEntries(entries: array<TxEntry>, prev: nat, cur: nat, next: nat) returns (preprev: nat)
    requires prev < entries.Length && cur < entries.Length && next < entries.Length
    modifies entries
    ensures entries[..] == Swapped(old(entries[..]), prev, cur, next)
    ensures preprev == old(entries[prev].prevGroup)
  {
    ghost var es := entries[..];
    preprev := entries[prev].prevGroup;
    entries[next] := entries[next].(prevGroup := prev);
    entries[prev] := entries[prev].(prevGroup := cur);
    entries[cur] := entries[cur].(prevGroup := preprev);
    assert entries[..] == Swapped(es, prev, cur, next);
  }

  /** One turn of the loop: merge the group before into the current one, or swap the two. */
  method SettleStep(g: Graph, rev: bool, entries: array<TxEntry>, ghost before: seq<seq<nat>>, ghost c: seq<nat>,
                    ghost after: seq<seq<nat>>, prev: nat, cur: nat, next: nat)
    returns (ghost before': seq<seq<nat>>, ghost c': seq<nat>, ghost after': seq<seq<nat>>, prev': nat, next': nat)
    requires Around(Directed(g, rev), entries[..], before, c, after, prev)
    requires c != [] && cur == Tail(c) && next == Next(after) && cur < entries.Length && prev < entries.Length
    requires Higher(entries[cur].feerate, entries[prev].feerate)
    modifies entries
    ensures |before'| < |before|
    ensures Around(Directed(g, rev), entries[..], before', c', after', prev')
    ensures c' != [] && cur == Tail(c') && next' == Next(after')
    ensures Settle(Directed(g, rev), before', c', after') == Settle(Directed(g, rev), before, c, after)
  {
    StepFacts(Directed(g, rev), entries[..], before, c, after, prev);
    ghost var front, p := before[..|before| - 1], before[|before| - 1];
    hide *;
    if entries[cur].deps * entries[prev].group != {} {
      prev' := MergeEntries(entries, prev, cur);
      next' := next;
      before', c', after' := front, p + c, after;
    } else {
      prev' := SwapEntries(entries, prev, cur, next);
      next' := prev;
      before', c', after' := front, c, [p] + after;
    }
  }

  lemma StepFacts(g: Graph, es: seq<TxEntry>, before: seq<seq<nat>>, c: seq<nat>, after: seq<seq<nat>>, prev: nat)
    requires Around(g, es, before, c, after, prev)
    requires c != [] && Tail(c) < |es| && prev < |es| && Higher(es[Tail(c)].feerate, es[prev].feerate)
    ensures before != [] && Next(after) < |es| && es[Tail(c)].firstTx < |es|
    ensures prev != Tail(c) && prev != es[Tail(c)].firstTx
    ensures var front, p := before[..|before| - 1], before[|before| - 1];
            if es[Tail(c)].deps * es[prev].group != {} then
              && p + c != [] && Tail(p + c) == Tail(c)
              && Around(g, Merged(es, prev, Tail(c)), front, p + c, after, es[prev].prevGroup)
              && Settle(g, before, c, after) == Settle(g, front, p + c, after)
            else
              && Next([p] + after) == prev
              && Around(g, Swapped(es, prev, Tail(c), Next(after)), front, c, [p] + after, es[prev].prevGroup)
              && Settle(g, before, c, after) == Settle(g, front, c, [p] + after)
  {
    AroundView(g, es, before, c, after, prev);
    var front, p := before[..|before| - 1], before[|before| - 1];
    assert before == front + [p];
    SettleMore(g, front, p, c, after);
    MergeAround(g, es, front, p, c, after, prev);
    SwapAround(g, es, front, p, c, after, prev);
  }

  // ----- Writing the list back -----

  /** The part of the result written so far: `w`, at the back or, reversed, at the front. */
  ghost predicate Written(ls: seq<nat>, rev: bool, w: seq<nat>) {
    && |w| <= |ls|
    && if rev then ls[..|w|] == Reverse(w) else ls[|ls| - |w|..] == w
  }

  lemma WriteStep(ls: seq<nat>, rev: bool, group: seq<nat>, w: seq<nat>, k: nat)
    requires k < |group| && |group| + |w| <= |ls| && Written(ls, rev, WithRest(group, w, k + 1))
    ensures var done := |group| - (k + 1) + |w|;
            var at := if rev then done else |ls| - 1 - done;
            0 <= at < |ls| && Written(ls[at := group[k]], rev, WithRest(group, w, k))
  {
    var now := WithRest(group, w, k + 1);
    assert WithRest(group, w, k) == [group[k]] + now;
    assert Reverse([group[k]] + now) == Reverse(now) + [group[k]];
  }

  ghost predicate WrittenIn(lin: array<nat>, rev: bool, w: seq<nat>)
    reads lin
  {
    Written(lin[..], rev, w)
  }

  ghost predicate ChainedIn(entries: array<TxEntry>, group: seq<nat>)
    reads entries
  {
    Chained(entries[..], group)
  }

  /** Write one transaction next to those already written. */
  method WriteOne(lin: array<nat>, rev: bool, t: nat, done: nat, ghost group: seq<nat>, ghost w: seq<nat>, ghost k: nat)
    requires k < |group| && t == group[k] && |group| + |w| <= lin.Length && done == |group| - (k + 1) + |w|
    requires WrittenIn(lin, rev, WithRest(group, w, k + 1))
    modifies lin
    ensures WrittenIn(lin, rev, WithRest(group, w, k))
  {
    ghost var ls := lin[..];
    WriteStep(ls, rev, group, w, k);
    hide *;
    var at := if rev then done else lin.Length - 1 - done;
    lin[at] := t;
    assert lin[..] == ls[at := t];
    WrittenNow(lin, rev, WithRest(group, w, k));
  }

  lemma WrittenNow(lin: array<nat>, rev: bool, w: seq<nat>)
    ensures Written(lin[..], rev, w) <==> WrittenIn(lin, rev, w)
  {
  }

  /** The entry before position `k` of a chained group. */
  lemma ChainedEntry(entries: array<TxEntry>, group: seq<nat>, k: nat)
    requires ChainedIn(entries, group) && k < |group|
    ensures group[k] + 1 < entries.Length
    ensures entries[group[k] + 1].prevTx == if k == 0 then 0 else group[k - 1] + 1
  {
    ChainedAt(entries[..], group, k);
  }

  /** Write one group, from its last transaction to its first. */
  method WriteGroup(entries: array<TxEntry>, lin: array<nat>, rev: bool, tail: nat, start: nat,
                    ghost group: seq<nat>, ghost w: seq<nat>) returns (done: nat)
    requires group != [] && ChainedIn(entries, group) && tail == Tail(group)
    requires WrittenIn(lin, rev, w) && start == |w| && |group| + |w| <= lin.Length
    modifies lin
    ensures done == |group| + |w| && WrittenIn(lin, rev, group + w)
  {
    var tx: nat := tail;
    done := start;
    ghost var k := |group|;
    assert WithRest(group, w, |group|) == w && WithRest(group, w, 0) == group + w;
    hide *;
    while tx != 0
      invariant 0 <= k <= |group| && ChainedIn(entries, group)
      invariant tx == if k == 0 then 0 else group[k - 1] + 1
      invariant done == |group| - k + |w| && WrittenIn(lin, rev, WithRest(group, w, k))
      decreases k
    {
      k := k - 1;
      WriteOne(lin, rev, tx - 1, done, group, w, k);
      done := done + 1;
      ChainedEntry(entries, group, k);
      tx := entries[tx].prevTx;
    }
  }

  /** What is written of a group and of the `w` after it, from position `k` of the group on. */
  ghost function WithRest(group: seq<nat>, w: seq<nat>, k: nat): seq<nat>
    requires k <= |group|
  {
    group[k..] + w
  }

  lemma ChainedAt(es: seq<TxEntry>, group: seq<nat>, k: nat)
    requires Chained(es, group) && k < |group|
    ensures group[k] + 1 < |es| && es[group[k] + 1].prevTx == if k == 0 then 0 else group[k - 1] + 1
  {
  }

  ghost predicate WholeIn(entries: array<TxEntry>, g: Graph, groups: seq<seq<nat>>)
    reads entries
  {
    Whole(g, entries[..], groups)
  }

  ghost predicate ListIn(entries: array<TxEntry>, g: Graph, groups: seq<seq<nat>>, tail: nat)
    reads entries
  {
    ListEndingAt(g, entries[..], groups, tail)
  }

  /** Turn the groups back into an order: in place, last group first. */
  method WriteBack(entries: array<TxEntry>, lin: array<nat>, rev: bool, ghost g: Graph, ghost groups: seq<seq<nat>>)
    requires WholeIn(entries, g, groups) && |Flatten(groups)| == lin.Length
    modifies lin
    ensures lin[..] == PassOrder(Flatten(groups), rev)
  {
    var cur: nat := entries[0].prevGroup;
    var done := 0;
    ghost var left: seq<seq<nat>>, w: seq<nat> := groups, [];
    assert WrittenIn(lin, rev, w) && Flatten(groups) == Flatten(left) + w;
    EndingInBounds(g, entries[..], left, cur);
    hide *;
    while cur != 0
      invariant cur < entries.Length && ListIn(entries, g, left, cur) && (cur == 0 <==> left == [])
      invariant Flatten(groups) == Flatten(left) + w && done == |w|
      invariant WrittenIn(lin, rev, w)
      decreases |left|
    {
      LastInList(entries, g, left, cur, w);
      done := WriteGroup(entries, lin, rev, cur, done, left[|left| - 1], w);
      LastInList(entries, g, left, cur, w);
      cur := entries[cur].prevGroup;
      left, w := left[..|left| - 1], left[|left| - 1] + w;
    }
    WrittenNow(lin, rev, w);
    WrittenAll(lin[..], rev, groups, w);
  }

  lemma LastInList(entries: array<TxEntry>, g: Graph, groups: seq<seq<nat>>, tail: nat, w: seq<nat>)
    requires ListIn(entries, g, groups, tail) && groups != []
    ensures var front, last := groups[..|groups| - 1], groups[|groups| - 1];
            && last != [] && ChainedIn(entries, last) && tail == Tail(last) && tail < entries.Length
            && ListIn(entries, g, front, entries[tail].prevGroup)
            && entries[tail].prevGroup < entries.Length && (entries[tail].prevGroup == 0 <==> front == [])
            && Flatten(groups) + w == Flatten(front) + (last + w)
            && |last| + |w| <= |Flatten(groups) + w|
  {
    LastOfList(g, entries[..], groups, tail, w);
  }

  lemma WrittenAll(ls: seq<nat>, rev: bool, groups: seq<seq<nat>>, w: seq<nat>)
    requires Flatten(groups) == Flatten([]) + w && |w| == |ls| && Written(ls, rev, w)
    ensures ls == PassOrder(Flatten(groups), rev)
  {
    assert Flatten(groups) == w;
    assert ls == ls[..|w|] == ls[|ls| - |w|..];
  }

  /** The last group of a list, and the list without it. */
  lemma LastOfList(g: Graph, es: seq<TxEntry>, groups: seq<seq<nat>>, tail: nat, w: seq<nat>)
    requires ListEndingAt(g, es, groups, tail) && groups != []
    ensures var front, last := groups[..|groups| - 1], groups[|groups| - 1];
            && last != [] && Chained(es, last) && tail == Tail(last) && tail < |es|
            && ListEndingAt(g, es, front, es[tail].prevGroup)
            && es[tail].prevGroup < |es| && (es[tail].prevGroup == 0 <==> front == [])
            && Flatten(groups) + w == Flatten(front) + (last + w)
            && |Flatten(groups) + w| == |Flatten(front)| + |last| + |w|
  {
    var front, last := groups[..|groups| - 1], groups[|groups| - 1];
    assert groups == front + [last];
    FlattenLast(front, last);
    EndingInBounds(g, es, front, es[tail].prevGroup);
  }

  lemma EndingInBounds(g: Graph, es: seq<TxEntry>, groups: seq<seq<nat>>, tail: nat)
    requires ListEndingAt(g, es, groups, tail) && |es| > 0
    ensures tail < |es| && (tail == 0 <==> groups == [])
  {
  }

  // ----- The passes -----

  ghost function PassResult(g: Graph, s: seq<nat>, rev: bool): seq<nat> {
    if rev then BackwardPass(g, s) else ForwardPass(g, s)
  }

  lemma GroupsStep(g: Graph, s: seq<nat>, i: nat)
    requires i < |s|
    ensures GroupsOf(g, s[..i + 1]) == Settle(g, GroupsOf(g, s[..i]), [s[i]], [])
  {
    assert s[..i + 1][..i] == s[..i];
  }

  lemma NextNotListed(g: Graph, s: seq<nat>, i: nat)
    requires NoDuplicates(s) && i < |s|
    ensures s[i] !in Flatten(GroupsOf(g, s[..i]))
  {
    PassPermutes(g, s[..i]);
    SameElements(ForwardPass(g, s[..i]), s[..i]);
  }

  /** One pass over the linearization, from back to front if `rev`, else from front to back. */
  method RunPass(g: Graph, entries: array<TxEntry>, lin: array<nat>, rev: bool)
    requires entries.Length == |g.entries| + 1
    requires entries[0].feerate.fee == 0 && entries[0].feerate.size == 0
    requires NoDuplicates(lin[..]) && forall x | x in lin[..] :: x < |g.entries|
    modifies entries, lin
    ensures lin[..] == PassResult(g, old(lin[..]), rev)
    ensures entries[0].feerate.fee == 0 && entries[0].feerate.size == 0
  {
    BuildGroups(g, entries, lin, rev, lin[..]);
    ghost var h, s := Directed(g, rev), PassOrder(lin[..], rev);
    PassOrderFacts(lin[..], rev);
    PassLength(h, s);
    PassResultIs(g, lin[..], rev);
    hide *;
    WriteBack(entries, lin, rev, h, GroupsOf(h, s));
    WholeSentinel(entries, h, GroupsOf(h, s));
  }

  /** Insert the transactions of the linearization one by one. */
  method BuildGroups(g: Graph, entries: array<TxEntry>, lin: array<nat>, rev: bool, ghost s: seq<nat>)
    requires entries.Length == |g.entries| + 1
    requires entries[0].feerate.fee == 0 && entries[0].feerate.size == 0
    requires s == lin[..] && NoDuplicates(s) && forall x | x in s :: x < |g.entries|
    modifies entries
    ensures WholeIn(entries, Directed(g, rev), GroupsOf(Directed(g, rev), PassOrder(s, rev)))
  {
    ghost var h, r := Directed(g, rev), PassOrder(s, rev);
    PassOrderFacts(s, rev);
    entries[0] := entries[0].(prevGroup := 0);
    assert r[..0] == [];
    assert WholeIn(entries, h, GroupsOf(h, r[..0]));
    hide *;
    var i := 0;
    while i < lin.Length
      invariant 0 <= i <= lin.Length == |r|
      invariant WholeIn(entries, h, GroupsOf(h, r[..i]))
    {
      var idx := lin[if rev then lin.Length - 1 - i else i];
      assert idx == r[i] && r[i] in r;
      NextNotListed(h, r, i);
      GroupsStep(h, r, i);
      InsertTx(g, rev, entries, idx, GroupsOf(h, r[..i]));
      i := i + 1;
    }
    assert r[..i] == r;
  }

  /** The order in which a pass takes the transactions. */
  ghost function PassOrder(s: seq<nat>, rev: bool): seq<nat> {
    if rev then Reverse(s) else s
  }

  lemma PassOrderFacts(s: seq<nat>, rev: bool)
    requires NoDuplicates(s)
    ensures var r := PassOrder(s, rev);
            && |r| == |s| && NoDuplicates(r) && (forall x :: x in r <==> x in s)
            && forall i | 0 <= i < |s| :: r[i] == s[if rev then |s| - 1 - i else i]
  {
    ReverseMultiset(s);
    NoDuplicatesPermuted(s, PassOrder(s, rev));
    SameElements(s, PassOrder(s, rev));
  }

  lemma PassResultIs(g: Graph, s: seq<nat>, rev: bool)
    ensures PassResult(g, s, rev) == PassOrder(Flatten(GroupsOf(Directed(g, rev), PassOrder(s, rev))), rev)
  {
  }

  lemma WholeSentinel(entries: array<TxEntry>, g: Graph, groups: seq<seq<nat>>)
    requires WholeIn(entries, g, groups)
    ensures entries.Length > 0 && entries[0].feerate.fee == 0 && entries[0].feerate.size == 0
  {
  }

  lemma SameLength(a: seq<nat>, b: seq<nat>)
    requires multiset(a) == multiset(b)
    ensures |a| == |b|
  {
    assert |multiset(a)| == |a| && |multiset(b)| == |b|;
  }

  lemma PassLength(g: Graph, s: seq<nat>)
    ensures |Flatten(GroupsOf(g, s))| == |s|
  {
    PassPermutes(g, s);
    SameLength(ForwardPass(g, s), s);
  }

  lemma PassKeeps(g: Graph, s: seq<nat>, rev: bool)
    ensures multiset(PassResult(g, s, rev)) == multiset(s)
  {
    if rev {
      ReverseMultiset(s);
      PassPermutes(Reversed(g), Reverse(s));
      ReverseMultiset(ForwardPass(Reversed(g), Reverse(s)));
    } else {
      PassPermutes(g, s);
    }
  }

  /** The order after the first `n` passes; even ones run from the back. */
  ghost function AfterPasses(g: Graph, s: seq<nat>, n: nat): seq<nat> {
    if n == 0 then s else PassResult(g, AfterPasses(g, s, n - 1), (n - 1) % 2 == 0)
  }

  lemma {:induction false} AfterPassesFacts(g: Graph, s: seq<nat>, n: nat)
    requires NoDuplicates(s) && forall x | x in s :: x < |g.entries|
    ensures NoDuplicates(AfterPasses(g, s, n)) && forall x | x in AfterPasses(g, s, n) :: x < |g.entries|
  {
    if n > 0 {
      AfterPassesFacts(g, s, n - 1);
      var before := AfterPasses(g, s, n - 1);
      PassKeeps(g, before, (n - 1) % 2 == 0);
      NoDuplicatesPermuted(before, AfterPasses(g, s, n));
      SameElements(before, AfterPasses(g, s, n));
    }
  }

  lemma TwoPasses(g: Graph, s: seq<nat>)
    ensures AfterPasses(g, s, 0) == s && AfterPasses(g, s, 2) == PostLinearized(g, s)
  {
    assert AfterPasses(g, s, 1) == PassResult(g, s, true);
    assert AfterPasses(g, s, 2) == PassResult(g, AfterPasses(g, s, 1), false);
  }

  lemma NextPass(g: Graph, s: seq<nat>, n: nat)
    ensures AfterPasses(g, s, n + 1) == PassResult(g, AfterPasses(g, s, n), n % 2 == 0)
  {
  }

  /** Improve a linearization in place: a pass from the back, then one from the front. */
  method PostLinearize(g: Graph, lin: array<nat>)
    requires NoDuplicates(lin[..]) && forall x | x in lin[..] :: x < |g.entries|
    modifies lin
    ensures lin[..] == PostLinearized(g, old(lin[..]))
  {
    var entries := new TxEntry[|g.entries| + 1](_ => TxEntry(0, 0, 0, {}, {}, FeeFrac(0, 0)));
    ghost var s := lin[..];
    TwoPasses(g, s);
    hide *;
    var pass := 0;
    while pass < 2
      invariant 0 <= pass <= 2 && fresh(entries) && entries.Length == |g.entries| + 1
      invariant entries[0].feerate.fee == 0 && entries[0].feerate.size == 0
      invariant lin[..] == AfterPasses(g, s, pass)
    {
      AfterPassesFacts(g, s, pass);
      NextPass(g, s, pass);
      RunPass(g, entries, lin, pass % 2 == 0);
      pass := pass + 1;
    }
  }
}
