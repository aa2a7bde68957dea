/** Moving transactions to the front without making a linearization worse, and merging two
    linearizations that way. */
module Merging {
  import opened FeeRate
  import opened DepGraphs
  import opened Linearizations
  import opened Sequences
  import opened Chunking
  import opened Topology
  import opened Subsets
  import opened LinearizationChunkings

  // ----- Moving a set to the front -----

  /** At every slope below the first chunk's feerate, what `t` has outside the first j >= 1 chunks
      does not lose. */
  ghost predicate SafeFront(g: Graph, cs: seq<seq<nat>>, t: set<nat>)
    requires cs != [] && Total(g, cs[0]).size > 0
  {
    forall j: nat, l: real | 1 <= j <= |cs| && Rate(Total(g, cs[0])) > l ::
      Gain(SetTotal(g, t - PrefixSet(cs, j)), l) >= 0.0
  }

  lemma EmptyGain(g: Graph, l: real)
    ensures Gain(SetTotal(g, {}), l) == 0.0
  {
    SumBelowEmpty(g, |g.entries|);
    LineAtZero(l);
  }

  /** A part of the first chunk is safe to move. */
  lemma SubsetOfFirstSafe(g: Graph, cs: seq<seq<nat>>, t: set<nat>)
    requires cs != [] && Total(g, cs[0]).size > 0 && t <= ToSet(cs[0])
    ensures SafeFront(g, cs, t)
  {
    forall j: nat, l: real | 1 <= j <= |cs| && Rate(Total(g, cs[0])) > l
      ensures Gain(SetTotal(g, t - PrefixSet(cs, j)), l) >= 0.0
    {
      assert cs[..j] == [cs[0]] + cs[1..j];
      FlattenConcat([cs[0]], cs[1..j]);
      assert Flatten([cs[0]]) == cs[0] + Flatten([]) == cs[0];
      assert t - PrefixSet(cs, j) == {};
      EmptyGain(g, l);
    }
  }

  /** An intersection with prefixes of a set that is at least as good as the first chunk is safe. */
  lemma IntersectionSafe(g: Graph, cs: seq<seq<nat>>, s: set<nat>, t: set<nat>, k: nat)
    requires g.Valid() && g.Sized() && cs != [] && Total(g, cs[0]).size > 0
    requires s <= g.used && t != {} && IsIntersection(g, cs, s, t, k)
    requires !Lower(SetTotal(g, s), Total(g, cs[0]))
    ensures SafeFront(g, cs, t)
  {
    forall j: nat, l: real | 1 <= j <= |cs| && Rate(Total(g, cs[0])) > l
      ensures Gain(SetTotal(g, t - PrefixSet(cs, j)), l) >= 0.0
    {
      if t - PrefixSet(cs, j) == {} {
        EmptyGain(g, l);
      } else {
        RestGains(g, cs, s, t, k, j, l);
      }
    }
  }

  lemma {:induction false} PrefixSetMonotone(cs: seq<seq<nat>>, j: nat, k: nat)
    requires j <= k <= |cs|
    ensures PrefixSet(cs, j) <= PrefixSet(cs, k)
    decreases k - j
  {
    if j < k {
      PrefixSetMonotone(cs, j, k - 1);
      PrefixSetStep(cs, k - 1);
    }
  }

  lemma RestGains(g: Graph, cs: seq<seq<nat>>, s: set<nat>, t: set<nat>, k: nat, j: nat, l: real)
    requires g.Valid() && g.Sized() && cs != [] && Total(g, cs[0]).size > 0
    requires s <= g.used && t != {} && IsIntersection(g, cs, s, t, k)
    requires !Lower(SetTotal(g, s), Total(g, cs[0]))
    requires 1 <= j <= |cs| && Rate(Total(g, cs[0])) > l
    requires t - PrefixSet(cs, j) != {}
    ensures Gain(SetTotal(g, t - PrefixSet(cs, j)), l) > 0.0
  {
    hide Rate, Lower, Higher, Gain, SetTotal;
    var p := PrefixSet(cs, j);
    assert j < k by {
      if k <= j { PrefixSetMonotone(cs, k, j); }
    }
    PrefixSetMonotone(cs, j, k);
    var inside, rest := t * p, t - p;
    assert inside == s * p;
    var fs, ft, fr := SetTotal(g, s), SetTotal(g, t), SetTotal(g, rest);
    SetTotalSized(g, s);
    SetTotalSized(g, t);
    SetTotalSized(g, rest);
    HigherIsRate(fs, Total(g, cs[0]));
    HigherIsRate(ft, fs);
    GainSign(fr, l);
    if inside == {} {
      assert t == inside + rest && rest == t;
    } else {
      assert t == inside + rest;
      SetTotalSplit(g, inside, rest);
      SetTotalSized(g, inside);
      var fi := SetTotal(g, inside);
      assert Lower(fi, fs);
      HigherIsRate(fi, fs);
      RemainderRate(fi, fr, ft);
    }
  }

  /** Moving a safe set to the front, in any internal order, never lowers the diagram. */
  lemma SafeFrontMove(g: Graph, rem: seq<nat>, cs: seq<seq<nat>>, t: set<nat>, ord: seq<nat>)
    requires IsChunking(g, rem, cs) && NoDuplicates(rem) && cs != [] && Total(g, cs[0]).size > 0
    requires t <= ToSet(rem) && OrderOf(ord, t) && SafeFront(g, cs, t)
    ensures AtLeastAsGood(Fees(g, ord + Without(rem, t)), Fees(g, rem))
  {
    forall l: real ensures Best(Fees(g, ord + Without(rem, t)), l) >= Best(Fees(g, rem), l) {
      SafeFrontGain(g, rem, cs, t, ord, l);
    }
  }

  lemma SafeFrontGain(g: Graph, rem: seq<nat>, cs: seq<seq<nat>>, t: set<nat>, ord: seq<nat>, l: real)
    requires IsChunking(g, rem, cs) && NoDuplicates(rem) && cs != [] && Total(g, cs[0]).size > 0
    requires t <= ToSet(rem) && OrderOf(ord, t) && SafeFront(g, cs, t)
    ensures Best(Fees(g, ord + Without(rem, t)), l) >= Best(Fees(g, rem), l)
  {
    hide Rate, SetTotal, SafeFront, PrefixSet;
    var moved := ord + Without(rem, t);
    BestNonNegative(Fees(g, moved), l);
    var j := BestChunkPrefix(g, rem, cs, l);
    if j > 0 {
      var p := Flatten(cs[..j]);
      MovedPrefixGain(g, rem, cs, t, ord, j, l);
      var q := ord + Without(p, t);
      MovedPrefix(g, rem, cs, t, ord, j);
      BestAtLeast(Fees(g, moved), |q|, l);
      assert Fees(g, moved)[..|q|] == Fees(g, q);
    }
  }

  /** The best prefix can be taken at a chunk boundary, empty unless the first chunk gains. */
  lemma BestChunkPrefix(g: Graph, rem: seq<nat>, cs: seq<seq<nat>>, l: real) returns (j: nat)
    requires IsChunking(g, rem, cs) && cs != [] && Total(g, cs[0]).size > 0
    ensures j <= |cs| && (j > 0 ==> Rate(Total(g, cs[0])) > l)
    ensures Best(Fees(g, rem), l) == if j == 0 then 0.0 else Gain(Total(g, Flatten(cs[..j])), l)
  {
    var tot := Totals(g, cs);
    ChunkingSorted(g, rem, cs);
    ChunkingBest(g, rem, cs, l);
    if Rate(tot[0]) <= l {
      BestOfSteep(tot, l);
      j := 0;
    } else {
      j := BestAttained(tot, l);
      ChunkingSolid(g, rem, cs);
      BestOfGroups(g, cs[..j], l);
      assert tot[..j] == Totals(g, cs[..j]);
      if j == 0 {
        assert tot[..0] == [];
        LineAtZero(l);
      }
    }
  }

  lemma MovedPrefix(g: Graph, rem: seq<nat>, cs: seq<seq<nat>>, t: set<nat>, ord: seq<nat>, j: nat)
    requires Flatten(cs) == rem && j <= |cs|
    ensures ord + Without(Flatten(cs[..j]), t) <= ord + Without(rem, t)
  {
    var p, q := Flatten(cs[..j]), Flatten(cs[j..]);
    assert cs == cs[..j] + cs[j..];
    FlattenConcat(cs[..j], cs[j..]);
    FilterConcat(p, q, ToSet(rem) - t);
    FilterAgrees(p, ToSet(rem) - t, ToSet(p) - t);
  }

  lemma ExchangeTotals(g: Graph, t: set<nat>, p: set<nat>)
    ensures Plus(SetTotal(g, t), SetTotal(g, p - t)) == Plus(SetTotal(g, t - p), SetTotal(g, p))
  {
    SetTotalSplit(g, t, p - t);
    SetTotalSplit(g, t - p, p);
    assert t + (p - t) == (t - p) + p;
  }

  /** `t` and then the rest of `p` is `p` together with what `t` has outside it. */
  lemma MovedTotal(g: Graph, p: seq<nat>, t: set<nat>, ord: seq<nat>)
    requires NoDuplicates(p) && OrderOf(ord, t)
    ensures Total(g, ord + Without(p, t)) == Plus(SetTotal(g, t - ToSet(p)), Total(g, p))
  {
    hide SetTotal;
    var ps := ToSet(p);
    FilterNoDuplicates(p, ps - t);
    FeesConcat(g, ord, Without(p, t));
    TotalIsSetTotal(g, ord);
    assert ToSet(ord) == t;
    TotalIsSetTotal(g, Without(p, t));
    assert ToSet(Without(p, t)) == ps - t;
    TotalIsSetTotal(g, p);
    ExchangeTotals(g, t, ps);
  }

  lemma PrefixNoDuplicates(rem: seq<nat>, cs: seq<seq<nat>>, j: nat)
    requires Flatten(cs) == rem && NoDuplicates(rem) && j <= |cs|
    ensures NoDuplicates(Flatten(cs[..j]))
  {
    var p := Flatten(cs[..j]);
    assert cs == cs[..j] + cs[j..];
    FlattenConcat(cs[..j], cs[j..]);
    forall x, y | 0 <= x < y < |p| ensures p[x] != p[y] {
      assert rem[x] == p[x] && rem[y] == p[y];
    }
  }

  /** With `t` moved to the front, the same chunks gain at least as much. */
  lemma MovedPrefixGain(g: Graph, rem: seq<nat>, cs: seq<seq<nat>>, t: set<nat>, ord: seq<nat>, j: nat, l: real)
    requires Flatten(cs) == rem && NoDuplicates(rem) && cs != [] && Total(g, cs[0]).size > 0
    requires OrderOf(ord, t) && SafeFront(g, cs, t)
    requires 1 <= j <= |cs| && Rate(Total(g, cs[0])) > l
    ensures Gain(Total(g, ord + Without(Flatten(cs[..j]), t)), l) >= Gain(Total(g, Flatten(cs[..j])), l)
  {
    hide Rate, Gain, SetTotal, Total;
    PrefixNoDuplicates(rem, cs, j);
    MovedTotal(g, Flatten(cs[..j]), t, ord);
    assert Gain(SetTotal(g, t - PrefixSet(cs, j)), l) >= 0.0;
    GainPlus(SetTotal(g, t - PrefixSet(cs, j)), Total(g, Flatten(cs[..j])), l);
  }

  /** The guarantee of IntersectPrefixes: if a set is not below the first remaining chunk, moving
      its intersection to the front does not make the linearization worse at any point. */
  lemma IntersectionImproves(g: Graph, rem: seq<nat>, s: set<nat>, t: set<nat>, k: nat, ord: seq<nat>)
    requires g.Valid() && g.Sized() && InUse(g, rem) && NoDuplicates(rem) && rem != []
    requires s <= ToSet(rem) && t != {} && IsIntersection(g, Chunks(g, rem), s, t, k)
    requires Chunks(g, rem) != [] && !Lower(SetTotal(g, s), Total(g, Chunks(g, rem)[0]))
    requires OrderOf(ord, t)
    ensures AtLeastAsGood(Fees(g, ord + Without(rem, t)), Fees(g, rem))
  {
    var cs := Chunks(g, rem);
    ChunksIsChunking(g, rem);
    TotalSized(g, cs[0]);
    IntersectionSafe(g, cs, s, t, k);
    SafeFrontMove(g, rem, cs, t, ord);
  }

  /** Moving part of the first chunk to the front does not make the linearization worse either. */
  lemma FirstChunkPartImproves(g: Graph, rem: seq<nat>, t: set<nat>, ord: seq<nat>)
    requires g.Sized() && InUse(g, rem) && NoDuplicates(rem)
    requires Chunks(g, rem) != [] && t <= ToSet(Chunks(g, rem)[0])
    requires OrderOf(ord, t)
    ensures AtLeastAsGood(Fees(g, ord + Without(rem, t)), Fees(g, rem))
  {
    var cs := Chunks(g, rem);
    ChunksIsChunking(g, rem);
    TotalSized(g, cs[0]);
    assert rem == cs[0] + Flatten(cs[1..]);
    SubsetOfFirstSafe(g, cs, t);
    SafeFrontMove(g, rem, cs, t, ord);
  }

  // ----- Topological order while merging -----

  /** A set that contains the ancestors of its members. */
  ghost predicate AncestorClosed(g: Graph, s: set<nat>) {
    forall x | x in s :: g.Ancestors(x) <= s
  }

  lemma {:induction false} FilterTopological(g: Graph, lin: seq<nat>, keep: set<nat>)
    requires Topological(g, lin)
    ensures Topological(g, Filter(lin, keep))
  {
    if lin != [] {
      var tail := lin[1..];
      FilterTopological(g, tail, keep);
      forall x | x in Filter(tail, keep) ensures x !in g.Ancestors(lin[0]) {
        var i :| 0 <= i < |tail| && tail[i] == x;
        assert lin[i + 1] == x;
      }
    }
  }

  /** What is done, plus a prefix of what remains of a topological order, is closed. */
  lemma PrefixClosed(g: Graph, lin: seq<nat>, done: set<nat>, p: seq<nat>)
    requires g.Valid() && OrderOf(lin, g.used) && Topological(g, lin)
    requires done <= g.used && AncestorClosed(g, done)
    requires p <= Filter(lin, g.used - done)
    ensures AncestorClosed(g, done + ToSet(p))
  {
    var rem := Filter(lin, g.used - done);
    FilterTopological(g, lin, g.used - done);
    forall x, a | x in ToSet(p) && a in g.Ancestors(x) ensures a in done + ToSet(p) {
      var i :| 0 <= i < |p| && p[i] == x;
      assert rem[i] == x && x in rem;
      if a !in done {
        assert a in rem;
        var j :| 0 <= j < |rem| && rem[j] == a;
        assert j < |p| by { assert i < |p|; }
        assert p[j] == a;
      }
    }
  }

  lemma IntersectionClosed(g: Graph, done: set<nat>, a: set<nat>, b: set<nat>)
    requires AncestorClosed(g, done + a) && AncestorClosed(g, done + b)
    ensures AncestorClosed(g, done + a * b)
  {
    forall x | x in done + a * b ensures g.Ancestors(x) <= done + a * b {
      assert g.Ancestors(x) <= done + a && g.Ancestors(x) <= done + b;
    }
  }

  /** Appending a topological order of further transactions to a closed topological order. */
  lemma AppendTopological(g: Graph, ret: seq<nat>, added: seq<nat>)
    requires Topological(g, ret) && Topological(g, added) && AncestorClosed(g, ToSet(ret))
    requires NoDuplicates(ret) && NoDuplicates(added) && forall x | x in added :: x !in ret
    ensures Topological(g, ret + added) && NoDuplicates(ret + added)
  {
    var r := ret + added;
    forall i, j | 0 <= i < j < |r| ensures r[j] !in g.Ancestors(r[i]) && r[i] != r[j] {
      if i < |ret| <= j {
        assert r[j] == added[j - |ret|] && r[j] in added;
        assert g.Ancestors(r[i]) <= ToSet(ret);
      } else if |ret| <= i {
        assert r[i] == added[i - |ret|] && r[j] == added[j - |ret|];
      }
    }
  }

  /** Replacing what remains after `ret` by something at least as good. */
  lemma ImproveRest(g: Graph, lin: seq<nat>, ret: seq<nat>, rem: seq<nat>, better: seq<nat>)
    requires AtLeastAsGood(Fees(g, ret + rem), Fees(g, lin))
    requires AtLeastAsGood(Fees(g, better), Fees(g, rem))
    ensures AtLeastAsGood(Fees(g, ret + better), Fees(g, lin))
  {
    FeesConcat(g, ret, rem);
    FeesConcat(g, ret, better);
    AtLeastAsGoodAfter(Fees(g, ret), Fees(g, better), Fees(g, rem));
    AtLeastAsGoodTransitive(Fees(g, ret + better), Fees(g, ret + rem), Fees(g, lin));
  }

  // ----- Merging two linearizations -----

  /** What remains of `lin` after the transactions in `ret` are done. */
  ghost function Left(g: Graph, lin: seq<nat>, ret: seq<nat>): seq<nat> {
    Filter(lin, g.used - ToSet(ret))
  }

  /** State between rounds: `ret` is a closed, topological part of the result, and completing it
      with what remains of `lin` is at least as good as `lin`. */
  ghost predicate PartiallyMerged(g: Graph, lin: seq<nat>, ret: seq<nat>) {
    && ToSet(ret) <= g.used && NoDuplicates(ret) && Topological(g, ret) && AncestorClosed(g, ToSet(ret))
    && AtLeastAsGood(Fees(g, ret + Left(g, lin, ret)), Fees(g, lin))
  }

  lemma StartMerged(g: Graph, lin: seq<nat>)
    requires OrderOf(lin, g.used)
    ensures PartiallyMerged(g, lin, [])
  {
    FilterAll(lin, g.used - ToSet([]));
    assert [] + lin == lin;
  }

  /** One round keeps the state, for a closed part `t` that is safe to move to the front. */
  lemma MergeRound(g: Graph, lin: seq<nat>, ret: seq<nat>, t: set<nat>, added: seq<nat>)
    requires g.Valid() && g.Acyclic() && OrderOf(lin, g.used) && PartiallyMerged(g, lin, ret)
    requires t <= g.used - ToSet(ret) && AncestorClosed(g, ToSet(ret) + t)
    requires SortedByAncestors(g, added) && forall x :: x in added <==> x in t
    requires AtLeastAsGood(Fees(g, added + Without(Left(g, lin, ret), t)), Fees(g, Left(g, lin, ret)))
    ensures PartiallyMerged(g, lin, ret + added)
  {
    var rem := Left(g, lin, ret);
    SortedIsTopological(g, added);
    AppendTopological(g, ret, added);
    RemainingAfter(g, lin, ret, t, added);
    ImproveRest(g, lin, ret, rem, added + Without(rem, t));
    assert ret + (added + Without(rem, t)) == ret + added + Without(rem, t);
  }

  /** The set to output next: the first chunk of what remains of `a`, which is not below that of
      `b`, intersected with prefixes of the chunks of what remains of `b`. */
  ghost predicate NextSet(g: Graph, a: seq<nat>, b: seq<nat>, ret: seq<nat>, t: set<nat>, k: nat) {
    var ca, cb := Chunks(g, Left(g, a, ret)), Chunks(g, Left(g, b, ret));
    && ca != [] && cb != [] && !Lower(Total(g, ca[0]), Total(g, cb[0]))
    && t != {} && IsIntersection(g, cb, ToSet(ca[0]), t, k)
  }

  lemma NextSetClosed(g: Graph, a: seq<nat>, b: seq<nat>, ret: seq<nat>, t: set<nat>, k: nat)
    requires g.Valid() && g.Sized() && IsLinearization(g, a) && IsLinearization(g, b)
    requires ToSet(ret) <= g.used && AncestorClosed(g, ToSet(ret))
    requires NextSet(g, a, b, ret, t, k)
    ensures t <= ToSet(Chunks(g, Left(g, a, ret))[0]) <= g.used - ToSet(ret)
    ensures AncestorClosed(g, ToSet(ret) + t)
  {
    hide Lower, SetTotal, AncestorClosed;
    var done, ra, rb := ToSet(ret), Left(g, a, ret), Left(g, b, ret);
    var ca, cb := Chunks(g, ra), Chunks(g, rb);
    RemSized(g, a, done);
    RemSized(g, b, done);
    ChunksIsChunking(g, ra);
    ChunksIsChunking(g, rb);
    assert ra == ca[0] + Flatten(ca[1..]);
    assert cb == cb[..k] + cb[k..];
    FlattenConcat(cb[..k], cb[k..]);
    PrefixClosed(g, a, done, ca[0]);
    PrefixClosed(g, b, done, Flatten(cb[..k]));
    IntersectionClosed(g, done, ToSet(ca[0]), PrefixSet(cb, k));
  }

  /** Moving the next set to the front makes neither remainder worse. */
  lemma NextSetImproves(g: Graph, a: seq<nat>, b: seq<nat>, ret: seq<nat>, t: set<nat>, k: nat, added: seq<nat>)
    requires g.Valid() && g.Sized() && IsLinearization(g, a) && IsLinearization(g, b)
    requires ToSet(ret) <= g.used && NextSet(g, a, b, ret, t, k) && OrderOf(added, t)
    requires t <= ToSet(Chunks(g, Left(g, a, ret))[0]) <= g.used - ToSet(ret)
    ensures AtLeastAsGood(Fees(g, added + Without(Left(g, a, ret), t)), Fees(g, Left(g, a, ret)))
    ensures AtLeastAsGood(Fees(g, added + Without(Left(g, b, ret), t)), Fees(g, Left(g, b, ret)))
  {
    hide Lower, SetTotal, AtLeastAsGood;
    var done, ra, rb := ToSet(ret), Left(g, a, ret), Left(g, b, ret);
    var s := Chunks(g, ra)[0];
    FilterNoDuplicates(a, g.used - done);
    FilterNoDuplicates(b, g.used - done);
    RemSized(g, a, done);
    RemSized(g, b, done);
    FirstChunkPartImproves(g, ra, t, added);
    ChunksIsChunking(g, ra);
    assert ra == s + Flatten(Chunks(g, ra)[1..]);
    NoDuplicatesPrefix(s, ra);
    TotalIsSetTotal(g, s);
    assert ToSet(rb) == g.used - done;
    IntersectionImproves(g, rb, ToSet(s), t, k, added);
  }

  lemma RoundFacts(g: Graph, a: seq<nat>, b: seq<nat>, ret: seq<nat>, t: set<nat>, k: nat, added: seq<nat>)
    requires g.Valid() && g.Acyclic() && g.Sized()
    requires IsLinearization(g, a) && IsLinearization(g, b)
    requires PartiallyMerged(g, a, ret) && PartiallyMerged(g, b, ret)
    requires NextSet(g, a, b, ret, t, k)
    requires SortedByAncestors(g, added) && forall x :: x in added <==> x in t
    ensures t <= g.used - ToSet(ret)
    ensures PartiallyMerged(g, a, ret + added) && PartiallyMerged(g, b, ret + added)
  {
    hide NextSet, Graph.Closed, AtLeastAsGood;
    NextSetClosed(g, a, b, ret, t, k);
    SortedIsTopological(g, added);
    NextSetImproves(g, a, b, ret, t, k, added);
    MergeRound(g, a, ret, t, added);
    MergeRound(g, b, ret, t, added);
  }

  lemma RemSized(g: Graph, lin: seq<nat>, done: set<nat>)
    requires g.Sized() && OrderOf(lin, g.used)
    ensures AllSized(g, Filter(lin, g.used - done)) && InUse(g, Filter(lin, g.used - done))
  {
    var rem := Filter(lin, g.used - done);
    forall i | 0 <= i < |rem| ensures g.FeeRate(rem[i]).size > 0 {
      assert rem[i] in rem;
    }
  }

  /** Take the better first chunk, and intersect it with prefixes of the other chunking. */
  method SelectNext(chunking1: LinearizationChunking, chunking2: LinearizationChunking,
                    ghost lin1: seq<nat>, ghost lin2: seq<nat>, ghost ret: seq<nat>)
    returns (best: set<nat>, ghost k: nat)
    requires chunking1.Valid() && chunking2.Valid() && chunking1.g == chunking2.g
    requires chunking1.todo == chunking2.todo != {}
    requires chunking1.Remaining() == Left(chunking1.g, lin1, ret)
    requires chunking2.Remaining() == Left(chunking2.g, lin2, ret)
    ensures NextSet(chunking1.g, lin1, lin2, ret, best, k) || NextSet(chunking1.g, lin2, lin1, ret, best, k)
  {
    chunking1.FirstChunkFacts();
    chunking2.FirstChunkFacts();
    var first1 := chunking1.GetChunk(0);
    var first2 := chunking2.GetChunk(0);
    var info: SetInfo;
    if Higher(first2.feerate, first1.feerate) {
      info, k := chunking1.IntersectPrefixes(first2);
      HigherNotLower(first2.feerate, first1.feerate);
    } else {
      info, k := chunking2.IntersectPrefixes(first1);
      HigherNotLower(first2.feerate, first1.feerate);
    }
    best := info.transactions;
  }

  lemma HigherNotLower(a: FeeFrac, b: FeeFrac)
    ensures Higher(a, b) ==> !Lower(a, b)
    ensures Higher(a, b) <==> Lower(b, a)
  {
  }

  lemma EitherRound(g: Graph, a: seq<nat>, b: seq<nat>, ret: seq<nat>, t: set<nat>, k: nat, added: seq<nat>)
    requires g.Valid() && g.Acyclic() && g.Sized()
    requires IsLinearization(g, a) && IsLinearization(g, b)
    requires PartiallyMerged(g, a, ret) && PartiallyMerged(g, b, ret)
    requires NextSet(g, a, b, ret, t, k) || NextSet(g, b, a, ret, t, k)
    requires SortedByAncestors(g, added) && forall x :: x in added <==> x in t
    ensures t != {} && t <= g.used - ToSet(ret) && ToSet(ret + added) == ToSet(ret) + t
    ensures PartiallyMerged(g, a, ret + added) && PartiallyMerged(g, b, ret + added)
    ensures Left(g, a, ret + added) == Without(Left(g, a, ret), t)
    ensures Left(g, b, ret + added) == Without(Left(g, b, ret), t)
  {
    if NextSet(g, a, b, ret, t, k) {
      RoundFacts(g, a, b, ret, t, k, added);
    } else {
      RoundFacts(g, b, a, ret, t, k, added);
    }
    RemainingAfter(g, a, ret, t, added);
    RemainingAfter(g, b, ret, t, added);
  }

  /** Both chunkings describe what remains of their linearizations after `ret`. */
  ghost predicate InStep(c1: LinearizationChunking, c2: LinearizationChunking,
                         g: Graph, lin1: seq<nat>, lin2: seq<nat>, ret: seq<nat>)
    reads c1, c2
  {
    && c1.Valid() && c2.Valid() && c1.g == c2.g == g
    && c1.todo == c2.todo == g.used - ToSet(ret)
    && c1.Remaining() == Left(g, lin1, ret) && c2.Remaining() == Left(g, lin2, ret)
    && PartiallyMerged(g, lin1, ret) && PartiallyMerged(g, lin2, ret)
  }

  /** One round: output the next set and mark it done, in the second chunking only if any is left. */
  method Round(chunking1: LinearizationChunking, chunking2: LinearizationChunking,
               g: Graph, ghost lin1: seq<nat>, ghost lin2: seq<nat>, before: seq<nat>)
    returns (ret: seq<nat>, left: nat)
    requires g.Valid() && g.Acyclic() && g.Sized() && chunking1 != chunking2
    requires IsLinearization(g, lin1) && IsLinearization(g, lin2)
    requires InStep(chunking1, chunking2, g, lin1, lin2, before) && chunking1.todo != {}
    modifies chunking1, chunking2
    ensures left != 0 ==> InStep(chunking1, chunking2, g, lin1, lin2, ret) && chunking1.todo != {}
    ensures left != 0 ==> chunking1.todo < old(chunking1.todo)
    ensures left == 0 ==> ToSet(ret) == g.used
    ensures PartiallyMerged(g, lin1, ret) && PartiallyMerged(g, lin2, ret)
  {
    hide PartiallyMerged, NextSet, SortedByAncestors, IsLinearization;
    hide LinearizationChunking.Valid, LinearizationChunking.Remaining, Left, Without, ToSet;
    hide Graph.Valid, Graph.Acyclic, Graph.Sized;
    var best; ghost var k;
    best, k := SelectNext(chunking1, chunking2, lin1, lin2, before);
    ghost var added;
    ret, added := AppendTopo(g, before, best);
    EitherRound(g, lin1, lin2, before, best, k, added);
    chunking1.MarkDone(best);
    chunking1.FirstChunkFacts();
    left := chunking1.NumChunksLeft();
    if left == 0 {
      Completed(g, lin1, ret);
    } else {
      chunking2.MarkDone(best);
    }
  }

  lemma StartInStep(c1: LinearizationChunking, c2: LinearizationChunking, g: Graph, lin1: seq<nat>, lin2: seq<nat>)
    requires c1.Valid() && c2.Valid() && c1.g == c2.g == g
    requires OrderOf(lin1, g.used) && OrderOf(lin2, g.used)
    requires c1.Remaining() == lin1 && c1.todo == ToSet(lin1) && c2.Remaining() == lin2 && c2.todo == ToSet(lin2)
    ensures InStep(c1, c2, g, lin1, lin2, [])
  {
    StartMerged(g, lin1);
    StartMerged(g, lin2);
    FilterAll(lin1, g.used - ToSet([]));
    FilterAll(lin2, g.used - ToSet([]));
    assert ToSet(lin1) == ToSet(lin2) == g.used - ToSet([]);
  }

  /** Merge two linearizations of the same graph into one that is at least as good as both. */
  method MergeLinearizations(g: Graph, lin1: seq<nat>, lin2: seq<nat>) returns (ret: seq<nat>)
    requires g.Valid() && g.Acyclic() && g.Sized()
    requires IsLinearization(g, lin1) && IsLinearization(g, lin2)
    ensures IsLinearization(g, ret)
    ensures AtLeastAsGood(Fees(g, ret), Fees(g, lin1)) && AtLeastAsGood(Fees(g, ret), Fees(g, lin2))
  {
    var chunking1 := new LinearizationChunking(g, lin1);
    var chunking2 := new LinearizationChunking(g, lin2);
    StartInStep(chunking1, chunking2, g, lin1, lin2);
    hide AtLeastAsGood, PartiallyMerged, Fees, Graph.Valid, Graph.Acyclic, Graph.Sized, Left;
    hide LinearizationChunking.Valid, LinearizationChunking.Remaining;
    ret := [];
    if |g.used| == 0 {
      Completed(g, lin1, ret);
    } else {
      var left := 1;
      while left != 0
        invariant chunking1 != chunking2 && fresh(chunking1) && fresh(chunking2)
        invariant left != 0 ==> InStep(chunking1, chunking2, g, lin1, lin2, ret) && chunking1.todo != {}
        invariant left == 0 ==> ToSet(ret) == g.used
        invariant PartiallyMerged(g, lin1, ret) && PartiallyMerged(g, lin2, ret)
        decreases left != 0, chunking1.todo
      {
        ret, left := Round(chunking1, chunking2, g, lin1, lin2, ret);
      }
    }
    EndMerged(g, lin1, ret);
    EndMerged(g, lin2, ret);
  }

  lemma Completed(g: Graph, lin: seq<nat>, ret: seq<nat>)
    requires PartiallyMerged(g, lin, ret) && g.used - ToSet(ret) == {}
    ensures ToSet(ret) == g.used
  {
    assert forall x | x in g.used :: x !in g.used - ToSet(ret);
  }

  lemma RemainingAfter(g: Graph, lin: seq<nat>, ret: seq<nat>, t: set<nat>, added: seq<nat>)
    requires OrderOf(lin, g.used) && t <= g.used - ToSet(ret) && forall x :: x in added <==> x in t
    ensures ToSet(ret + added) == ToSet(ret) + t
    ensures Left(g, lin, ret + added) == Without(Left(g, lin, ret), t)
  {
    var done := ToSet(ret);
    assert ToSet(ret + added) == done + t;
    FilterTwice(lin, g.used - done, g.used - (done + t));
    assert ToSet(Filter(lin, g.used - done)) - t == g.used - (done + t);
  }

  lemma EndMerged(g: Graph, lin: seq<nat>, ret: seq<nat>)
    requires PartiallyMerged(g, lin, ret) && ToSet(ret) == g.used
    ensures IsLinearization(g, ret) && AtLeastAsGood(Fees(g, ret), Fees(g, lin))
  {
    FilterNone(lin, g.used - ToSet(ret));
    assert ret + [] == ret;
    assert forall x :: x in ret <==> x in ToSet(ret);
  }
}
