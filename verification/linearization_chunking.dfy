/** The chunking of a linearization from which transactions are removed. */
module LinearizationChunkings {
  import opened FeeRate
  import opened DepGraphs
  import opened Linearizations
  import opened Sequences
  import opened Chunking
  import opened Topology
  import opened Subsets

  /** A set of transactions with its aggregate fee and size. */
  datatype SetInfo = SetInfo(transactions: set<nat>, feerate: FeeFrac)

  ghost function Infos(g: Graph, cs: seq<seq<nat>>): (r: seq<SetInfo>)
    ensures |r| == |cs|
  {
    seq(|cs|, i requires 0 <= i < |cs| => SetInfo(ToSet(cs[i]), Total(g, cs[i])))
  }

  lemma InfosAppend(g: Graph, cs: seq<seq<nat>>, c: seq<nat>)
    ensures Infos(g, cs + [c]) == Infos(g, cs) + [SetInfo(ToSet(c), Total(g, c))]
  {
  }

  lemma InfosDrop(g: Graph, cs: seq<seq<nat>>)
    requires cs != []
    ensures Infos(g, cs[1..]) == Infos(g, cs)[1..]
    ensures Infos(g, cs[..|cs| - 1]) == Infos(g, cs)[..|cs| - 1]
  {
  }

  /** Merging group `last` into `group`, as sets. */
  lemma MergedInfo(g: Graph, last: seq<nat>, group: seq<nat>)
    ensures ToSet(last + group) == ToSet(group) + ToSet(last)
    ensures Total(g, last + group) == Plus(Total(g, group), Total(g, last))
  {
    FeesConcat(g, last, group);
  }

  /** The union of the first `k` chunks. */
  ghost function PrefixSet(cs: seq<seq<nat>>, k: nat): set<nat>
    requires k <= |cs|
  {
    ToSet(Flatten(cs[..k]))
  }

  lemma PrefixSetStep(cs: seq<seq<nat>>, k: nat)
    requires k < |cs|
    ensures PrefixSet(cs, k + 1) == PrefixSet(cs, k) + ToSet(cs[k])
  {
    assert cs[..k + 1] == cs[..k] + [cs[k]];
    FlattenLast(cs[..k], cs[k]);
  }

  /** What IntersectPrefixes looks for: `t` is the part of `s` in the first `k` chunks, its feerate
      is not below that of `s`, and no shorter non-empty intersection is as good. */
  ghost predicate IsIntersection(g: Graph, cs: seq<seq<nat>>, s: set<nat>, t: set<nat>, k: nat) {
    && k <= |cs|
    && t == s * PrefixSet(cs, k)
    && !Lower(SetTotal(g, t), SetTotal(g, s))
    && TooLow(g, cs, s, k)
  }

  /** Every non-empty intersection of `s` with fewer than `k` chunks has a lower feerate than `s`. */
  ghost predicate TooLow(g: Graph, cs: seq<seq<nat>>, s: set<nat>, k: nat)
    requires k <= |cs|
  {
    forall j | 0 <= j < k ::
      s * PrefixSet(cs, j) == {} || Lower(SetTotal(g, s * PrefixSet(cs, j)), SetTotal(g, s))
  }

  lemma FilterSkip(lin: seq<nat>, keep: set<nat>)
    requires lin != [] && lin[0] !in keep
    ensures Filter(lin[1..], keep) == Filter(lin, keep)
  {
  }

  /** State of the search after `i` chunks without success: `acc` is what they share with `s`. */
  ghost predicate Accumulated(g: Graph, cs: seq<seq<nat>>, s: set<nat>, i: nat, acc: set<nat>)
    requires i <= |cs|
  {
    && acc == s * PrefixSet(cs, i) && (acc == s ==> s == {})
    && (acc == {} || Lower(SetTotal(g, acc), SetTotal(g, s)))
    && TooLow(g, cs, s, i)
  }

  lemma NotLowerThanItself(a: FeeFrac)
    ensures !Lower(a, a)
  {
  }

  /** One more chunk: the share of `s` grows by what is in that chunk. */
  lemma IntersectGrow(g: Graph, cs: seq<seq<nat>>, s: set<nat>, i: nat, acc: set<nat>)
    requires i < |cs| && NoDuplicates(Flatten(cs)) && Accumulated(g, cs, s, i, acc)
    ensures var toAdd := ToSet(cs[i]) * s;
            && acc + toAdd == s * PrefixSet(cs, i + 1)
            && SetTotal(g, acc + toAdd) == Plus(SetTotal(g, acc), SetTotal(g, toAdd))
            && TooLow(g, cs, s, i + 1)
  {
    hide Lower, SetTotal, PrefixSet;
    PrefixSetStep(cs, i);
    ChunkDisjoint(cs, i);
    SetTotalSplit(g, acc, ToSet(cs[i]) * s);
  }

  /** Then the search is over, with all of `s` or with a part that is good enough, or goes on. */
  lemma IntersectStep(g: Graph, cs: seq<seq<nat>>, s: set<nat>, i: nat, acc: set<nat>, toAdd: set<nat>, more: set<nat>)
    requires i < |cs| && NoDuplicates(Flatten(cs)) && Accumulated(g, cs, s, i, acc)
    requires toAdd == ToSet(cs[i]) * s && more == acc + toAdd
    ensures SetTotal(g, more) == Plus(SetTotal(g, acc), SetTotal(g, toAdd))
    ensures more == s ==> IsIntersection(g, cs, s, s, i + 1)
    ensures more != s && !Lower(SetTotal(g, more), SetTotal(g, s)) ==> IsIntersection(g, cs, s, more, i + 1)
    ensures more != s && Lower(SetTotal(g, more), SetTotal(g, s)) ==> Accumulated(g, cs, s, i + 1, more)
    ensures toAdd == {} ==> Accumulated(g, cs, s, i + 1, acc)
    ensures toAdd != {} ==> more != {}
  {
    IntersectGrow(g, cs, s, i, acc);
    NotLowerThanItself(SetTotal(g, s));
    assert toAdd == {} ==> more == acc;
    hide Lower, SetTotal, PrefixSet, TooLow;
  }

  lemma AccumulatedStart(g: Graph, cs: seq<seq<nat>>, s: set<nat>, acc: set<nat>, fee: FeeFrac)
    requires acc == {} && fee == FeeFrac(0, 0)
    ensures Accumulated(g, cs, s, 0, acc) && fee == SetTotal(g, acc)
  {
    assert Flatten(cs[..0]) == [];
    SumBelowEmpty(g, |g.entries|);
  }

  /** The search runs out of chunks only if there was nothing to look for. */
  lemma AccumulatedEnd(g: Graph, cs: seq<seq<nat>>, s: set<nat>, acc: set<nat>)
    requires s <= ToSet(Flatten(cs)) && Accumulated(g, cs, s, |cs|, acc)
    ensures s == {} && IsIntersection(g, cs, s, s, |cs|)
  {
    assert cs[..|cs|] == cs;
    NotLowerThanItself(SetTotal(g, s));
  }

  lemma ChunkDisjoint(cs: seq<seq<nat>>, i: nat)
    requires i < |cs| && NoDuplicates(Flatten(cs))
    ensures PrefixSet(cs, i) !! ToSet(cs[i])
  {
    hide Flatten, NoDuplicates;
    assert cs == cs[..i + 1] + cs[i + 1..] && cs[..i + 1] == cs[..i] + [cs[i]];
    FlattenConcat(cs[..i + 1], cs[i + 1..]);
    FlattenLast(cs[..i], cs[i]);
    NoDuplicatesParts(Flatten(cs[..i + 1]), Flatten(cs[i + 1..]));
    NoDuplicatesParts(Flatten(cs[..i]), cs[i]);
  }

  /** Removing `subset` from what `keep` leaves of `lin`; if it is exactly the first chunk, then
      dropping that chunk is the same as chunking again. */
  lemma MarkDoneFacts(g: Graph, lin: seq<nat>, keep: set<nat>, subset: set<nat>)
    requires NoDuplicates(lin) && AllSized(g, Filter(lin, keep))
    requires subset != {} && subset <= keep == ToSet(Filter(lin, keep))
    ensures Filter(lin, keep - subset) == Without(Filter(lin, keep), subset)
    ensures ToSet(Filter(lin, keep - subset)) == keep - subset
    ensures Chunks(g, Filter(lin, keep)) != []
    ensures ToSet(Chunks(g, Filter(lin, keep))[0]) == subset ==>
              && |subset| <= |lin|
              && Filter(lin[|subset|..], keep - subset) == Filter(lin, keep - subset)
              && Infos(g, Chunks(g, Filter(lin, keep - subset))) == Infos(g, Chunks(g, Filter(lin, keep)))[1..]
  {
    var rem := Filter(lin, keep);
    var cs := Chunks(g, rem);
    ChunksIsChunking(g, rem);
    NoEmptyChunking(g, rem, cs);
    assert rem != [] by {
      var x :| x in subset;
      assert x in rem;
    }
    FilterTwice(lin, keep, keep - subset);
    if ToSet(cs[0]) == subset {
      DropFirstChunk(g, rem);
      DropKeptPrefix(lin, keep, cs[0]);
      FilterNoDuplicates(lin, keep);
      LengthIsCardinality(cs[0]);
      InfosDrop(g, cs);
    }
  }

  /** Nothing is done yet: what is left of an order keeps all of it. */
  lemma AllRemain(g: Graph, lin: seq<nat>, rest: seq<nat>, todo: set<nat>)
    requires NoDuplicates(lin) && InUse(g, lin) && todo == ToSet(lin)
    requires |rest| <= |lin| && rest == lin[|lin| - |rest|..] && Filter(rest, todo) == Filter(lin, todo)
    ensures NoDuplicates(rest) && InUse(g, rest) && Filter(rest, todo) == lin
  {
    hide Filter;
    FilterAll(lin, todo);
    assert lin == lin[..|lin| - |rest|] + rest;
    NoDuplicatesParts(lin[..|lin| - |rest|], rest);
  }

  method ElementsOf(lin: seq<nat>) returns (all: set<nat>)
    ensures all == ToSet(lin)
  {
    all := {};
    for i := 0 to |lin|
      invariant all == set k | 0 <= k < i :: lin[k]
    {
      all := all + {lin[i]};
    }
  }

  class LinearizationChunking {
    const g: Graph
    var lin: seq<nat>
    var chunks: seq<SetInfo>
    var skip: nat
    var todo: set<nat>

    /** What is left of the linearization. */
    ghost function Remaining(): seq<nat>
      reads this
    {
      Filter(lin, todo)
    }

    /** The chunks kept are exactly those of what is left. */
    ghost predicate Valid()
      reads this
    {
      && g.Valid() && g.Sized()
      && NoDuplicates(lin) && InUse(g, lin)
      && ToSet(Remaining()) == todo
      && skip <= |chunks|
      && chunks[skip..] == Infos(g, Chunks(g, Remaining()))
    }

    lemma RemainingSized()
      requires g.Sized() && InUse(g, lin)
      ensures AllSized(g, Remaining())
    {
      forall i | 0 <= i < |Remaining()| ensures g.FeeRate(Remaining()[i]).size > 0 {
        assert Remaining()[i] in lin;
      }
    }

    /** Chop off the initial part of the linearization that is already done. */
    method StripDone()
      modifies this`lin
      ensures |lin| <= |old(lin)| && lin == old(lin)[|old(lin)| - |lin|..]
      ensures Filter(lin, todo) == Filter(old(lin), todo)
    {
      ghost var k := 0;
      assert lin == lin[0..];
      hide Filter;
      while |lin| > 0 && lin[0] !in todo
        invariant 0 <= k <= |old(lin)| && lin == old(lin)[k..]
        invariant Filter(lin, todo) == Filter(old(lin), todo)
        decreases |lin|
      {
        FilterSkip(lin, todo);
        lin := lin[1..];
        k := k + 1;
      }
    }

    /** Recompute the chunks of what is left. */
    method BuildChunks()
      requires chunks == []
      modifies this`lin, this`chunks
      ensures |lin| <= |old(lin)| && lin == old(lin)[|old(lin)| - |lin|..]
      ensures Filter(lin, todo) == Filter(old(lin), todo)
      ensures chunks == Infos(g, Chunks(g, Filter(lin, todo)))
    {
      StripDone();
      assert Filter(lin[..0], todo) == [];
      var i := 0;
      ghost var stripped := lin;
      while i < |lin|
        invariant 0 <= i <= |lin| && lin == stripped
        invariant chunks == Infos(g, Chunks(g, Filter(lin[..i], todo)))
      {
        FilterStep(lin, todo, i);
        if lin[i] in todo {
          AddChunk(lin[i], Filter(lin[..i], todo));
        }
        i := i + 1;
      }
      assert lin[..|lin|] == lin;
    }

    /** Add one transaction as a new chunk, absorbing trailing chunks of lower feerate. */
    method AddChunk(idx: nat, ghost done: seq<nat>)
      requires chunks == Infos(g, Chunks(g, done))
      modifies this`chunks
      ensures chunks == Infos(g, Chunks(g, done + [idx]))
    {
      var add := SetInfo({idx}, g.FeeRate(idx));
      ghost var group, cs := [idx], Chunks(g, done);
      SingletonTight(g, idx);
      assert (done + [idx])[..|done|] == done;
      while |chunks| > 0 && Higher(add.feerate, chunks[|chunks| - 1].feerate)
        invariant add == SetInfo(ToSet(group), Total(g, group))
        invariant chunks == Infos(g, cs)
        invariant Absorb(g, cs, group) == Chunks(g, done + [idx])
        decreases |chunks|
      {
        var last := chunks[|chunks| - 1];
        MergedInfo(g, cs[|cs| - 1], group);
        InfosDrop(g, cs);
        add := SetInfo(add.transactions + last.transactions, Plus(add.feerate, last.feerate));
        chunks := chunks[..|chunks| - 1];
        group, cs := cs[|cs| - 1] + group, cs[..|cs| - 1];
      }
      InfosAppend(g, cs, group);
      chunks := chunks + [add];
    }

    constructor (g: Graph, lin: seq<nat>)
      requires g.Valid() && g.Sized() && NoDuplicates(lin) && InUse(g, lin)
      ensures Valid() && this.g == g && Remaining() == lin && todo == ToSet(lin)
    {
      hide Filter, ToSet, Chunks, Infos, NoDuplicates, InUse, Graph.Valid, Graph.Sized;
      this.g, this.lin, chunks, skip := g, lin, [], 0;
      var all := ElementsOf(lin);
      todo := all;
      new;
      BuildChunks();
      AllRemain(g, lin, this.lin, todo);
      assert chunks[0..] == chunks;
    }

    /** While transactions remain there is a first chunk, made of some of them. */
    lemma FirstChunkFacts()
      requires Valid()
      ensures todo != {} <==> Chunks(g, Remaining()) != []
      ensures todo != {} ==>
                var c := Infos(g, Chunks(g, Remaining()))[0];
                c.transactions != {} && c.transactions <= todo && c.feerate == SetTotal(g, c.transactions)
    {
      var cs := Chunks(g, Remaining());
      RemainingSized();
      ChunksIsChunking(g, Remaining());
      NoEmptyChunking(g, Remaining(), cs);
      FilterNoDuplicates(lin, todo);
      assert Remaining() != [] ==> Remaining()[0] in ToSet(Remaining());
      if todo != {} {
        var x :| x in todo;
        assert x in Remaining();
        assert Remaining() == cs[0] + Flatten(cs[1..]);
        assert Tight(g, cs[0]) && cs[0][0] in ToSet(cs[0]);
        NoDuplicatesPrefix(cs[0], Remaining());
        TotalIsSetTotal(g, cs[0]);
      }
    }

    method NumChunksLeft() returns (n: nat)
      requires Valid()
      ensures n == |Chunks(g, Remaining())|
    {
      n := |chunks| - skip;
    }

    method GetChunk(n: nat) returns (c: SetInfo)
      requires Valid() && n < |Chunks(g, Remaining())|
      ensures c == Infos(g, Chunks(g, Remaining()))[n]
    {
      assert chunks[n + skip] == chunks[skip..][n];
      c := chunks[n + skip];
    }

    /** Remove a set of transactions; when it is exactly the first chunk, just skip that chunk. */
    method MarkDone(subset: set<nat>)
      requires Valid() && subset != {} && subset <= todo
      modifies this
      ensures Valid() && todo == old(todo) - subset
      ensures Remaining() == Without(old(Remaining()), subset)
    {
      RemainingSized();
      MarkDoneFacts(g, lin, todo, subset);
      assert chunks[skip] == chunks[skip..][0];
      ghost var was := chunks[skip..];
      todo := todo - subset;
      if chunks[skip].transactions == subset {
        assert chunks[skip + 1..] == was[1..];
        skip := skip + 1;
        lin := lin[|subset|..];
      } else {
        chunks, skip := [], 0;
        BuildChunks();
      }
    }

    /** The shortest intersection of `subset` with prefixes of the remaining chunks whose feerate is
        not below that of `subset`. */
    method IntersectPrefixes(subset: SetInfo) returns (r: SetInfo, ghost k: nat)
      requires Valid() && subset.transactions <= todo
      requires subset.feerate == SetTotal(g, subset.transactions)
      ensures r.feerate == SetTotal(g, r.transactions)
      ensures IsIntersection(g, Chunks(g, Remaining()), subset.transactions, r.transactions, k)
      ensures subset.transactions != {} ==> r.transactions != {}
    {
      hide *;
      ghost var cs, s := Chunks(g, Remaining()), subset.transactions;
      ChunksCover();
      var accSet: set<nat>, accFee := {}, FeeFrac(0, 0);
      AccumulatedStart(g, cs, s, accSet, accFee);
      var i := 0;
      while i < |chunks| - skip
        invariant 0 <= i <= |cs|
        invariant Accumulated(g, cs, s, i, accSet) && accFee == SetTotal(g, accSet)
      {
        ChunkInfo(i);
        var toAdd := chunks[i + skip].transactions * subset.transactions;
        IntersectStep(g, cs, s, i, accSet, toAdd, accSet + toAdd);
        if toAdd != {} {
          var more := accSet + toAdd;
          if more == subset.transactions {
            return subset, i + 1;
          }
          var fee := FeeRateOfSet(g, toAdd);
          accSet, accFee := more, Plus(accFee, fee);
          if !Lower(accFee, subset.feerate) {
            return SetInfo(accSet, accFee), i + 1;
          }
        }
        i := i + 1;
      }
      AccumulatedEnd(g, cs, s, accSet);
      r, k := subset, i;
    }

    lemma ChunksCover()
      requires Valid()
      ensures NoDuplicates(Flatten(Chunks(g, Remaining()))) && ToSet(Flatten(Chunks(g, Remaining()))) == todo
      ensures |chunks| - skip == |Chunks(g, Remaining())|
    {
      RemainingSized();
      ChunksIsChunking(g, Remaining());
      FilterNoDuplicates(lin, todo);
    }

    lemma ChunkInfo(n: nat)
      requires Valid() && n < |Chunks(g, Remaining())|
      ensures n + skip < |chunks| && chunks[n + skip].transactions == ToSet(Chunks(g, Remaining())[n])
    {
      assert chunks[n + skip] == chunks[skip..][n];
    }
  }
}
