/**
 * Finding or improving a linearization: repeatedly output the best candidate set that is found.
 *
 * The bounded search for candidates is a parameter.  What is asked of it is what its documentation says: it
 * returns a candidate at least as good as the one it is given, and the best one if it did not use up its steps.
 */
module Linearizing {
  import opened FeeRate
  import opened DepGraphs
  import opened Linearizations
  import opened Sequences
  import opened Chunking
  import opened Topology
  import opened Subsets
  import opened LinearizationChunkings
  import opened Merging
  import opened Candidates

  /** What a search found, and in how many steps. */
  datatype Found = Found(best: SetInfo, steps: nat)

  /** In round `round`, among the transactions `todo`, starting from a known candidate, in at most so many steps. */
  type Search = (nat, set<nat>, SetInfo, nat) -> Found

  /** A non-empty part of what is left that contains its remaining ancestors. */
  ghost predicate Candidate(g: Graph, todo: set<nat>, c: SetInfo) {
    c.transactions != {} && Inside(g, todo, c.transactions) && c.feerate == SetTotal(g, c.transactions)
  }

  /** No candidate has a higher feerate. */
  ghost predicate BestOf(g: Graph, todo: set<nat>, c: SetInfo) {
    forall s: set<nat> | s != {} && Inside(g, todo, s) :: !Higher(SetTotal(g, s), c.feerate)
  }

  ghost predicate FoundOk(g: Graph, todo: set<nat>, best: SetInfo, most: nat, f: Found) {
    && Candidate(g, todo, f.best) && !Better(best.feerate, f.best.feerate) && f.steps <= most
    && (f.steps < most ==> BestOf(g, todo, f.best))
  }

  ghost predicate SearchOk(g: Graph, search: Search) {
    forall round: nat, todo: set<nat>, best: SetInfo, most: nat | todo <= g.used && Candidate(g, todo, best) ::
      FoundOk(g, todo, best, most, search(round, todo, best, most))
  }

  /** Not searching at all meets the contract. */
  lemma NoSearchOk(g: Graph)
    ensures SearchOk(g, (round: nat, todo: set<nat>, best: SetInfo, most: nat) => Found(best, most))
  {
    var search: Search := (round: nat, todo: set<nat>, best: SetInfo, most: nat) => Found(best, most);
    forall round: nat, todo: set<nat>, best: SetInfo, most: nat | todo <= g.used && Candidate(g, todo, best)
      ensures FoundOk(g, todo, best, most, search(round, todo, best, most))
    {
      NotBetterSelf(best.feerate);
    }
  }

  /** A closed beginning of a linearization. */
  ghost predicate Partial(g: Graph, ret: seq<nat>) {
    ToSet(ret) <= g.used && NoDuplicates(ret) && Topological(g, ret) && AncestorClosed(g, ToSet(ret))
  }

  ghost function Rest(g: Graph, ret: seq<nat>): set<nat> {
    g.used - ToSet(ret)
  }

  /** Moving `t` to the front makes nothing worse in what remains of `lin`. */
  ghost predicate SafeFor(g: Graph, lin: seq<nat>, ret: seq<nat>, t: set<nat>) {
    var cs := Chunks(g, Left(g, lin, ret));
    cs != [] && Total(g, cs[0]).size > 0 && SafeFront(g, cs, t)
  }

  // ----- Why a set may go next -----

  /** The ancestors left of a transaction form a candidate. */
  lemma AncestorSetIsCandidate(g: Graph, todo: set<nat>, b: nat)
    requires g.Valid() && todo <= g.used && b in todo
    ensures Candidate(g, todo, SetInfo(AncestorSet(g, todo, b), SetTotal(g, AncestorSet(g, todo, b))))
  {
    var s := AncestorSet(g, todo, b);
    assert b in s;
    forall x | x in s
      ensures g.Ancestors(x) * todo <= s
    {
      assert g.Ancestors(x) <= g.Ancestors(b);
    }
  }

  lemma CandidateClosed(g: Graph, ret: seq<nat>, s: set<nat>)
    requires g.Valid() && Partial(g, ret)
    ensures Inside(g, Rest(g, ret), s) <==> s <= Rest(g, ret) && AncestorClosed(g, ToSet(ret) + s)
  {
    var done, todo := ToSet(ret), Rest(g, ret);
    if Inside(g, todo, s) {
      forall x | x in done + s
        ensures g.Ancestors(x) <= done + s
      {
        assert x in s ==> g.Ancestors(x) * todo <= s && g.Ancestors(x) <= g.used;
      }
    }
    if s <= todo && AncestorClosed(g, done + s) {
      forall x | x in s
        ensures g.Ancestors(x) * todo <= s
      {
        assert x in done + s;
      }
    }
  }

  lemma LeftFacts(g: Graph, lin: seq<nat>, ret: seq<nat>)
    requires g.Valid() && g.Sized() && IsLinearization(g, lin) && Partial(g, ret) && Rest(g, ret) != {}
    ensures var rem := Left(g, lin, ret);
            && NoDuplicates(rem) && InUse(g, rem) && ToSet(rem) == Rest(g, ret) && AllSized(g, rem) && rem != []
            && IsChunking(g, rem, Chunks(g, rem)) && Chunks(g, rem) != [] && Total(g, Chunks(g, rem)[0]).size > 0
  {
    hide Higher, Total;
    var rem := Left(g, lin, ret);
    FilterNoDuplicates(lin, Rest(g, ret));
    RemSized(g, lin, ToSet(ret));
    assert ToSet(rem) == Rest(g, ret);
    ChunksIsChunking(g, rem);
    NoEmptyChunking(g, rem, Chunks(g, rem));
    TotalSized(g, Chunks(g, rem)[0]);
  }

  /** A prefix of the remaining chunks is a part that contains its remaining ancestors. */
  lemma PrefixInside(g: Graph, lin: seq<nat>, ret: seq<nat>, k: nat)
    requires g.Valid() && g.Sized() && IsLinearization(g, lin) && Partial(g, ret) && Rest(g, ret) != {}
    requires k <= |Chunks(g, Left(g, lin, ret))|
    ensures Inside(g, Rest(g, ret), PrefixSet(Chunks(g, Left(g, lin, ret)), k))
  {
    hide Higher, Total, AncestorClosed, Graph.Valid, Graph.Sized, Chunks, Filter, Flatten, Topological, NoDuplicates, Tight, AllSized, ToSet, PrefixSet, Inside;
    LeftFacts(g, lin, ret);
    var rem := Left(g, lin, ret);
    var cs := Chunks(g, rem);
    PrefixOfFlat(cs, k);
    PrefixClosed(g, lin, ToSet(ret), Flatten(cs[..k]));
    CandidateClosed(g, ret, PrefixSet(cs, k));
  }

  lemma PrefixOfFlat(cs: seq<seq<nat>>, k: nat)
    requires k <= |cs|
    ensures Flatten(cs[..k]) <= Flatten(cs) && PrefixSet(cs, k) == ToSet(Flatten(cs[..k])) <= ToSet(Flatten(cs))
  {
    assert cs == cs[..k] + cs[k..];
    FlattenConcat(cs[..k], cs[k..]);
  }

  lemma BothInside(g: Graph, todo: set<nat>, a: set<nat>, b: set<nat>)
    requires Inside(g, todo, a) && Inside(g, todo, b)
    ensures Inside(g, todo, a * b)
  {
    forall x | x in a * b
      ensures g.Ancestors(x) * todo <= a * b
    {
      assert g.Ancestors(x) * todo <= a && g.Ancestors(x) * todo <= b;
    }
  }

  /** The best candidate is safe for every linearization. */
  lemma TopIsSafe(g: Graph, lin: seq<nat>, ret: seq<nat>, c: SetInfo)
    requires g.Valid() && g.Sized() && IsLinearization(g, lin) && Partial(g, ret)
    requires Candidate(g, Rest(g, ret), c) && BestOf(g, Rest(g, ret), c)
    ensures SafeFor(g, lin, ret, c.transactions)
  {
    hide Graph.Valid, Graph.Sized, Higher, Total, SetTotal, Gain, Rate;
    LeftFacts(g, lin, ret);
    var cs, t := Chunks(g, Left(g, lin, ret)), c.transactions;
    forall j: nat, l: real | 1 <= j <= |cs| && Rate(Total(g, cs[0])) > l
      ensures Gain(SetTotal(g, t - PrefixSet(cs, j)), l) >= 0.0
    {
      PrefixInside(g, lin, ret, 1);
      PrefixInside(g, lin, ret, j);
      FirstChunkIsPrefix(g, lin, ret);
      TopRestGains(g, Rest(g, ret), c, PrefixSet(cs, 1), PrefixSet(cs, j), l);
    }
  }

  lemma FirstChunkIsPrefix(g: Graph, lin: seq<nat>, ret: seq<nat>)
    requires g.Valid() && g.Sized() && IsLinearization(g, lin) && Partial(g, ret) && Rest(g, ret) != {}
    ensures var cs := Chunks(g, Left(g, lin, ret));
            cs != [] && PrefixSet(cs, 1) != {} && SetTotal(g, PrefixSet(cs, 1)) == Total(g, cs[0])
  {
    hide Higher, SetTotal;
    LeftFacts(g, lin, ret);
    var rem := Left(g, lin, ret);
    var cs := Chunks(g, rem);
    assert cs[..1] == [cs[0]];
    FlattenLast([], cs[0]);
    assert [] + [cs[0]] == [cs[0]] && Flatten([]) + cs[0] == cs[0];
    assert rem == cs[0] + Flatten(cs[1..]);
    NoDuplicatesPrefix(cs[0], rem);
    TotalIsSetTotal(g, cs[0]);
    assert Tight(g, cs[0]) && cs[0][0] in PrefixSet(cs, 1);
  }

  /** What the best candidate `c` has outside a closed part `p` is no loss at slopes below a candidate `f`. */
  lemma TopRestGains(g: Graph, todo: set<nat>, c: SetInfo, f: set<nat>, p: set<nat>, l: real)
    requires g.Valid() && g.Sized() && todo <= g.used && Candidate(g, todo, c) && BestOf(g, todo, c)
    requires f != {} && Inside(g, todo, f) && Inside(g, todo, p) && SetTotal(g, f).size > 0 && Rate(SetTotal(g, f)) > l
    ensures Gain(SetTotal(g, c.transactions - p), l) >= 0.0
  {
    hide SetTotal, Graph.Valid, Graph.Sized;
    var s := c.transactions;
    SetTotalSized(g, s);
    var w := SetTotal(g, s);
    var r := Rate(w);
    HigherIsRate(SetTotal(g, f), w);
    GainSign(w, r);
    BothInside(g, todo, s, p);
    assert s == s * p + (s - p);
    SplitGain(g, s * p, s - p, r);
    if s * p == {} {
      EmptyGain(g, r);
    } else {
      SetTotalSized(g, s * p);
      HigherIsRate(SetTotal(g, s * p), w);
      GainSign(SetTotal(g, s * p), r);
    }
    PartSized(g, s - p);
    GainSlope(SetTotal(g, s - p), l, r);
  }

  /** Cut by prefixes of the remaining chunks, a candidate not below the first chunk is a safe candidate. */
  lemma CutIsSafe(g: Graph, lin: seq<nat>, ret: seq<nat>, c: SetInfo, t: set<nat>, k: nat)
    requires g.Valid() && g.Sized() && IsLinearization(g, lin) && Partial(g, ret)
    requires Candidate(g, Rest(g, ret), c)
    requires var cs := Chunks(g, Left(g, lin, ret)); IsIntersection(g, cs, c.transactions, t, k)
    requires t != {} && !Lower(c.feerate, Total(g, Chunks(g, Left(g, lin, ret))[0]))
    ensures Inside(g, Rest(g, ret), t) && SafeFor(g, lin, ret, t)
  {
    hide Graph.Valid, Graph.Sized, Higher, Lower, Total, SetTotal, TooLow;
    LeftFacts(g, lin, ret);
    PrefixInside(g, lin, ret, k);
    var cs := Chunks(g, Left(g, lin, ret));
    BothInside(g, Rest(g, ret), c.transactions, PrefixSet(cs, k));
    IntersectionSafe(g, cs, c.transactions, t, k);
  }

  // ----- What a round keeps -----

  lemma PartialGrows(g: Graph, ret: seq<nat>, t: set<nat>, added: seq<nat>)
    requires g.Valid() && g.Acyclic() && Partial(g, ret) && Inside(g, Rest(g, ret), t)
    requires SortedByAncestors(g, added) && forall x :: x in added <==> x in t
    ensures Partial(g, ret + added) && OrderOf(added, t) && ToSet(ret + added) == ToSet(ret) + t
  {
    assert InUse(g, added);
    SortedIsTopological(g, added);
    AppendTopological(g, ret, added);
    CandidateClosed(g, ret, t);
    assert ToSet(ret + added) == ToSet(ret) + t;
  }

  lemma RoundKeeps(g: Graph, lin: seq<nat>, ret: seq<nat>, t: set<nat>, added: seq<nat>)
    requires g.Valid() && g.Acyclic() && g.Sized() && IsLinearization(g, lin) && PartiallyMerged(g, lin, ret)
    requires t != {} && Inside(g, Rest(g, ret), t) && SafeFor(g, lin, ret, t)
    requires SortedByAncestors(g, added) && forall x :: x in added <==> x in t
    ensures PartiallyMerged(g, lin, ret + added) && Left(g, lin, ret + added) == Without(Left(g, lin, ret), t)
  {
    hide Graph.Valid, Graph.Acyclic, Graph.Sized, AtLeastAsGood, SafeFront, Higher, SortedByAncestors;
    PartialGrows(g, ret, t, added);
    LeftFacts(g, lin, ret);
    SafeFrontMove(g, Left(g, lin, ret), Chunks(g, Left(g, lin, ret)), t, added);
    CandidateClosed(g, ret, t);
    MergeRound(g, lin, ret, t, added);
    RemainingAfter(g, lin, ret, t, added);
  }

  /** `ret` is a beginning of the result; completed by what remains of the given order it is at least as good as
      that, and while the search was exhaustive the same holds of every linearization. */
  ghost predicate Progress(g: Graph, given: seq<nat>, ret: seq<nat>, optimal: bool) {
    && Partial(g, ret) && (given != [] ==> PartiallyMerged(g, given, ret))
    && (optimal ==> forall m | IsLinearization(g, m) :: PartiallyMerged(g, m, ret))
  }

  lemma StartProgress(g: Graph, given: seq<nat>)
    requires g.Valid() && (given == [] || IsLinearization(g, given))
    ensures Progress(g, given, [], true)
  {
    forall m | IsLinearization(g, m)
      ensures PartiallyMerged(g, m, [])
    {
      StartMerged(g, m);
    }
  }

  lemma ProgressGrows(g: Graph, given: seq<nat>, ret: seq<nat>, optimal: bool, c: SetInfo, now: bool, added: seq<nat>)
    requires g.Valid() && g.Acyclic() && g.Sized() && (given == [] || IsLinearization(g, given))
    requires Progress(g, given, ret, optimal) && Candidate(g, Rest(g, ret), c)
    requires given != [] ==> SafeFor(g, given, ret, c.transactions)
    requires now ==> BestOf(g, Rest(g, ret), c)
    requires SortedByAncestors(g, added) && forall x :: x in added <==> x in c.transactions
    ensures Progress(g, given, ret + added, optimal && now)
    ensures ToSet(ret + added) == ToSet(ret) + c.transactions
    ensures given != [] ==> Left(g, given, ret + added) == Without(Left(g, given, ret), c.transactions)
  {
    hide Graph.Valid, Graph.Acyclic, Graph.Sized, PartiallyMerged, SafeFor, BestOf, SortedByAncestors, IsLinearization;
    PartialGrows(g, ret, c.transactions, added);
    if given != [] {
      RoundKeeps(g, given, ret, c.transactions, added);
    }
    if optimal && now {
      forall m | IsLinearization(g, m)
        ensures PartiallyMerged(g, m, ret + added)
      {
        TopIsSafe(g, m, ret, c);
        RoundKeeps(g, m, ret, c.transactions, added);
      }
    }
  }

  lemma EndProgress(g: Graph, given: seq<nat>, ret: seq<nat>, optimal: bool)
    requires Progress(g, given, ret, optimal) && Rest(g, ret) == {}
    ensures IsLinearization(g, ret) && (given != [] ==> AtLeastAsGood(Fees(g, ret), Fees(g, given)))
    ensures optimal ==> Optimal(g, ret)
  {
    hide AtLeastAsGood;
    assert ToSet(ret) == g.used by {
      assert forall x | x in g.used :: x !in Rest(g, ret);
    }
    assert forall x :: x in ret <==> x in ToSet(ret);
    if given != [] {
      EndMerged(g, given, ret);
    }
    if optimal {
      forall m | IsLinearization(g, m)
        ensures AtLeastAsGood(Fees(g, ret), Fees(g, m))
      {
        EndMerged(g, m, ret);
      }
    }
  }

  // ----- The algorithm -----

  /** The finder and the chunking of the given order describe what remains. */
  ghost predicate InStep(finder: AncestorCandidateFinder, chunking: LinearizationChunking,
                         g: Graph, given: seq<nat>, ret: seq<nat>)
    reads finder, chunking
  {
    && finder.Valid() && finder.g == g && finder.todo == Rest(g, ret)
    && chunking.Valid() && chunking.g == g
    && (given == [] ==> chunking.todo == {})
    && (given != [] ==> chunking.todo == Rest(g, ret) && chunking.Remaining() == Left(g, given, ret))
  }

  lemma FirstIsCandidate(g: Graph, given: seq<nat>, ret: seq<nat>)
    requires g.Valid() && g.Sized() && IsLinearization(g, given) && Partial(g, ret) && Rest(g, ret) != {}
    ensures var cs := Chunks(g, Left(g, given, ret));
            cs != [] && Total(g, cs[0]).size > 0 && Candidate(g, Rest(g, ret), SetInfo(ToSet(cs[0]), Total(g, cs[0])))
  {
    hide SetTotal, Total, Graph.Valid, Graph.Sized;
    var cs := Chunks(g, Left(g, given, ret));
    LeftFacts(g, given, ret);
    FirstChunkIsPrefix(g, given, ret);
    PrefixInside(g, given, ret, 1);
    assert cs[..1] == [cs[0]];
    FlattenLast([], cs[0]);
    assert [] + [cs[0]] == [cs[0]] && Flatten([]) + cs[0] == cs[0];
    assert PrefixSet(cs, 1) == ToSet(cs[0]);
  }

  lemma BetterOrNot(a: FeeFrac, b: FeeFrac)
    ensures Better(b, a) ==> !Better(a, b)
  {
  }

  /** The better of the best ancestor set and the first chunk of the given order. */
  method Initial(finder: AncestorCandidateFinder, chunking: LinearizationChunking,
                 g: Graph, ghost given: seq<nat>, ghost ret: seq<nat>)
    returns (best: SetInfo)
    requires g.Valid() && g.Sized() && (given == [] || IsLinearization(g, given)) && Partial(g, ret) && Rest(g, ret) != {}
    requires InStep(finder, chunking, g, given, ret)
    ensures Candidate(g, Rest(g, ret), best)
    ensures given != [] ==> Chunks(g, Left(g, given, ret)) != [] && !Better(Total(g, Chunks(g, Left(g, given, ret))[0]), best.feerate)
  {
    hide Better, Graph.Valid, Graph.Sized, SetTotal, Total, LinearizationChunking.Valid, AncestorCandidateFinder.Valid, IsLinearization;
    ghost var b;
    best, b := finder.FindCandidateSet();
    AncestorSetIsCandidate(g, Rest(g, ret), b);
    chunking.FirstChunkFacts();
    var left := chunking.NumChunksLeft();
    if left > 0 {
      var first := chunking.GetChunk(0);
      FirstIsCandidate(g, given, ret);
      if first.feerate.size != 0 && !Better(best.feerate, first.feerate) {
        best := first;
        NotBetterSelf(best.feerate);
      } else {
        BetterOrNot(first.feerate, best.feerate);
      }
    }
  }

  /** A candidate for what to output next: the best one if the search was exhaustive, otherwise cut so that it is
      safe for the given order. */
  method Next(finder: AncestorCandidateFinder, chunking: LinearizationChunking, g: Graph, search: Search,
              round: nat, searching: bool, before: nat, ghost given: seq<nat>, ghost ret: seq<nat>)
    returns (best: SetInfo, now: bool, left: nat)
    requires g.Valid() && g.Sized() && (given == [] || IsLinearization(g, given)) && Partial(g, ret) && Rest(g, ret) != {}
    requires InStep(finder, chunking, g, given, ret) && SearchOk(g, search)
    ensures Candidate(g, Rest(g, ret), best) && left <= before
    ensures now ==> BestOf(g, Rest(g, ret), best)
    ensures given != [] ==> SafeFor(g, given, ret, best.transactions)
  {
    hide *;
    StepFacts(finder, chunking, g, given, ret);
    best := Initial(finder, chunking, g, given, ret);
    ghost var first := best;
    NotBetterSelf(best.feerate);
    var steps, most := 0, 0;
    left := before;
    if searching {
      var base := (|finder.todo| + 3) / 4;
      if left > base {
        left := left - base;
        most := (left + 1) / 2;
        SearchAt(g, search, round, finder.todo, best, most);
        var f := search(round, finder.todo, best, most);
        best, steps := f.best, f.steps;
        left := left - steps;
      }
    }
    now := steps != most;
    if now {
      if given != [] {
        TopIsSafe(g, given, ret, best);
      }
    } else {
      var chunksLeft := chunking.NumChunksLeft();
      if chunksLeft > 0 {
        best := Cut(chunking, g, first, best, given, ret);
      }
    }
  }

  lemma SearchAt(g: Graph, search: Search, round: nat, todo: set<nat>, best: SetInfo, most: nat)
    requires SearchOk(g, search) && todo <= g.used && Candidate(g, todo, best)
    ensures var f := search(round, todo, best, most);
            && Candidate(g, todo, f.best) && !Better(best.feerate, f.best.feerate) && f.steps <= most
            && (f.steps < most ==> BestOf(g, todo, f.best))
  {
    hide Candidate, BestOf, Better;
  }

  lemma StepFacts(finder: AncestorCandidateFinder, chunking: LinearizationChunking, g: Graph, given: seq<nat>, ret: seq<nat>)
    requires InStep(finder, chunking, g, given, ret)
    ensures finder.Valid() && finder.g == g && finder.todo == Rest(g, ret) <= g.used
    ensures chunking.Valid() && chunking.g == g
    ensures given == [] ==> chunking.todo == {} && Chunks(g, chunking.Remaining()) == []
    ensures given != [] ==> chunking.todo == Rest(g, ret) && chunking.Remaining() == Left(g, given, ret)
  {
    hide Graph.Valid;
    chunking.FirstChunkFacts();
  }

  method Cut(chunking: LinearizationChunking, g: Graph, ghost first: SetInfo, c: SetInfo, ghost given: seq<nat>, ghost ret: seq<nat>)
    returns (best: SetInfo)
    requires g.Valid() && g.Sized() && IsLinearization(g, given) && Partial(g, ret) && Rest(g, ret) != {}
    requires chunking.Valid() && chunking.g == g && chunking.todo == Rest(g, ret) && chunking.Remaining() == Left(g, given, ret)
    requires Candidate(g, Rest(g, ret), c) && Candidate(g, Rest(g, ret), first) && !Better(first.feerate, c.feerate)
    requires Chunks(g, Left(g, given, ret)) != [] && !Better(Total(g, Chunks(g, Left(g, given, ret))[0]), first.feerate)
    ensures Candidate(g, Rest(g, ret), best) && SafeFor(g, given, ret, best.transactions)
  {
    hide Graph.Valid, Graph.Sized, Better, Total, SetTotal, LinearizationChunking.Valid, LinearizationChunking.Remaining, IsIntersection, SafeFor, IsLinearization, Partial, Left;
    ghost var k;
    best, k := chunking.IntersectPrefixes(c);
    NotBelowFirst(g, given, ret, first, c);
    CutIsSafe(g, given, ret, c, best.transactions, k);
  }

  /** Through the first candidate, the search result is not below the first chunk. */
  lemma NotBelowFirst(g: Graph, given: seq<nat>, ret: seq<nat>, first: SetInfo, c: SetInfo)
    requires g.Valid() && g.Sized() && IsLinearization(g, given) && Partial(g, ret) && Rest(g, ret) != {}
    requires Candidate(g, Rest(g, ret), c) && Candidate(g, Rest(g, ret), first) && !Better(first.feerate, c.feerate)
    requires Chunks(g, Left(g, given, ret)) != [] && !Better(Total(g, Chunks(g, Left(g, given, ret))[0]), first.feerate)
    ensures !Lower(c.feerate, Total(g, Chunks(g, Left(g, given, ret))[0]))
  {
    hide Graph.Valid, Graph.Sized, Better, Total, SetTotal;
    var f := Total(g, Chunks(g, Left(g, given, ret))[0]);
    FirstIsCandidate(g, given, ret);
    SetTotalSized(g, c.transactions);
    SetTotalSized(g, first.transactions);
    NotBetterTransitive(c.feerate, first.feerate, f);
    BetterFacts(f, c.feerate);
  }

  /** One round: choose, output in topological order, and mark as done. */
  method Round(finder: AncestorCandidateFinder, chunking: LinearizationChunking, g: Graph, search: Search,
               round: nat, searching: bool, before: nat, ghost given: seq<nat>, list: seq<nat>, ghost optimal: bool)
    returns (ret: seq<nat>, now: bool, left: nat, done: bool)
    requires g.Valid() && g.Acyclic() && g.Sized() && (given == [] || IsLinearization(g, given)) && SearchOk(g, search)
    requires Progress(g, given, list, optimal) && Rest(g, list) != {} && InStep(finder, chunking, g, given, list)
    modifies finder, chunking
    ensures Progress(g, given, ret, optimal && now) && left <= before && Rest(g, ret) < Rest(g, list)
    ensures done <==> Rest(g, ret) == {}
    ensures !done ==> InStep(finder, chunking, g, given, ret)
  {
    hide *;
    var best;
    ProgressIsPartial(g, given, list, optimal);
    StepFacts(finder, chunking, g, given, list);
    best, now, left := Next(finder, chunking, g, search, round, searching, before, given, list);
    ghost var added;
    ret, added := AppendTopo(g, list, best.transactions);
    ProgressGrows(g, given, list, optimal, best, now, added);
    RestShrinks(g, list, ret, best);
    finder.MarkDone(best.transactions);
    done := finder.todo == {};
    if !done {
      var chunksLeft := chunking.NumChunksLeft();
      chunking.FirstChunkFacts();
      if chunksLeft > 0 {
        chunking.MarkDone(best.transactions);
      }
      InStepAgain(finder, chunking, g, given, ret);
    }
  }

  lemma ProgressIsPartial(g: Graph, given: seq<nat>, ret: seq<nat>, optimal: bool)
    requires Progress(g, given, ret, optimal)
    ensures Partial(g, ret)
  {
  }

  lemma RestShrinks(g: Graph, list: seq<nat>, ret: seq<nat>, c: SetInfo)
    requires Candidate(g, Rest(g, list), c) && ToSet(ret) == ToSet(list) + c.transactions
    ensures c.transactions != {} && c.transactions <= Rest(g, list)
    ensures Rest(g, ret) == Rest(g, list) - c.transactions && Rest(g, ret) < Rest(g, list)
  {
    var x :| x in c.transactions;
    assert x in Rest(g, list) && x !in Rest(g, ret);
  }

  lemma InStepAgain(finder: AncestorCandidateFinder, chunking: LinearizationChunking, g: Graph, given: seq<nat>, ret: seq<nat>)
    requires finder.Valid() && finder.g == g && finder.todo == Rest(g, ret)
    requires chunking.Valid() && chunking.g == g
    requires given == [] ==> chunking.todo == {}
    requires given != [] ==> chunking.todo == Rest(g, ret) && chunking.Remaining() == Left(g, given, ret)
    ensures InStep(finder, chunking, g, given, ret)
  {
  }

  /** Find a linearization at least as good as the given one, if one is given.  If it is reported as optimal, it is
      at least as good as every other. */
  method Linearize(g: Graph, search: Search, maxIterations: nat, given: seq<nat>)
    returns (lin: seq<nat>, optimal: bool, cost: nat)
    requires g.Valid() && g.Acyclic() && g.Sized() && SearchOk(g, search)
    requires given == [] || IsLinearization(g, given)
    ensures IsLinearization(g, lin) && cost <= maxIterations
    ensures given != [] ==> AtLeastAsGood(Fees(g, lin), Fees(g, given))
    ensures optimal ==> Optimal(g, lin)
  {
    hide *;
    lin, optimal, cost := [], true, 0;
    StartProgress(g, given);
    StartRest(g);
    if |g.used| == 0 {
      EndProgress(g, given, lin, optimal);
      return;
    }
    var left: nat := maxIterations;
    var finder := new AncestorCandidateFinder(g);
    var startIterations := StartIterations(|g.used|);
    var searching := left > startIterations;
    if searching {
      left := left - startIterations;
    }
    GivenFacts(g, given);
    var chunking := new LinearizationChunking(g, given);
    StartInStep(finder, chunking, g, given);
    var round, done := 0, false;
    while !done
      invariant Progress(g, given, lin, optimal) && left <= maxIterations
      invariant done <==> Rest(g, lin) == {}
      invariant !done ==> InStep(finder, chunking, g, given, lin)
      invariant fresh(finder) && fresh(chunking)
      decreases Rest(g, lin)
    {
      var now;
      lin, now, left, done := Round(finder, chunking, g, search, round, searching, left, given, lin, optimal);
      optimal := optimal && now;
      round := round + 1;
    }
    EndProgress(g, given, lin, optimal);
    cost := maxIterations - left;
  }

  /** What setting up the search is charged for. */
  function StartIterations(n: nat): nat {
    (n * n + 63) / 64
  }

  lemma StartRest(g: Graph)
    ensures Rest(g, []) == g.used
  {
  }

  lemma GivenFacts(g: Graph, given: seq<nat>)
    requires given == [] || IsLinearization(g, given)
    ensures NoDuplicates(given) && InUse(g, given)
  {
  }

  lemma StartInStep(finder: AncestorCandidateFinder, chunking: LinearizationChunking, g: Graph, given: seq<nat>)
    requires finder.Valid() && finder.g == g && finder.todo == g.used
    requires chunking.Valid() && chunking.g == g && chunking.Remaining() == given && chunking.todo == ToSet(given)
    requires given == [] || IsLinearization(g, given)
    ensures InStep(finder, chunking, g, given, [])
  {
    assert ToSet([]) == {} && Rest(g, []) == g.used;
    if given != [] {
      FilterAll(given, Rest(g, []));
      assert ToSet(given) == g.used;
    }
  }
}
