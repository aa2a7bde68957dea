/** Splitting an order into chunks of non-increasing feerate. */
module Chunking {
  import opened FeeRate
  import opened DepGraphs
  import opened Linearizations

  /** `cs` are the chunks of `lin`: consecutive tight groups of non-increasing feerate. */
  ghost predicate IsChunking(g: Graph, lin: seq<nat>, cs: seq<seq<nat>>) {
    && Flatten(cs) == lin
    && (forall i | 0 <= i < |cs| :: Tight(g, cs[i]) && AllSized(g, cs[i]))
    && (forall i | 0 < i < |cs| :: !Higher(Total(g, cs[i]), Total(g, cs[i - 1])))
  }

  /** Append group `c` to `cs`, first merging into it the trailing groups of lower feerate. */
  function Absorb(g: Graph, cs: seq<seq<nat>>, c: seq<nat>): seq<seq<nat>> {
    if cs == [] || !Higher(Total(g, c), Total(g, cs[|cs| - 1])) then cs + [c]
    else Absorb(g, cs[..|cs| - 1], cs[|cs| - 1] + c)
  }

  function Chunks(g: Graph, lin: seq<nat>): seq<seq<nat>> {
    if lin == [] then []
    else Absorb(g, Chunks(g, lin[..|lin| - 1]), [lin[|lin| - 1]])
  }

  // ----- Chunks computes a chunking -----

  lemma {:induction false} AbsorbChunking(g: Graph, lin: seq<nat>, cs: seq<seq<nat>>, c: seq<nat>)
    requires IsChunking(g, lin, cs)
    requires Tight(g, c) && AllSized(g, c)
    ensures IsChunking(g, lin + c, Absorb(g, cs, c))
    decreases |cs|
  {
    if cs == [] || !Higher(Total(g, c), Total(g, cs[|cs| - 1])) {
      FlattenLast(cs, c);
    } else {
      var front, last := cs[..|cs| - 1], cs[|cs| - 1];
      assert cs == front + [last];
      FlattenLast(front, last);
      MergeTight(g, last, c);
      AbsorbChunking(g, Flatten(front), front, last + c);
      assert Flatten(front) + (last + c) == lin + c;
    }
  }

  lemma {:induction false} ChunksIsChunking(g: Graph, lin: seq<nat>)
    requires AllSized(g, lin)
    ensures IsChunking(g, lin, Chunks(g, lin))
  {
    if lin != [] {
      var n := |lin| - 1;
      ChunksIsChunking(g, lin[..n]);
      SingletonTight(g, lin[n]);
      AbsorbChunking(g, lin[..n], Chunks(g, lin[..n]), [lin[n]]);
      assert lin[..n] + [lin[n]] == lin;
    }
  }

  lemma ChunkingSolid(g: Graph, lin: seq<nat>, cs: seq<seq<nat>>)
    requires IsChunking(g, lin, cs)
    ensures AllSolid(g, cs)
  {
    forall i | 0 <= i < |cs| ensures Solid(g, cs[i]) {
      TightIsSolid(g, cs[i]);
    }
  }

  lemma ChunkingSorted(g: Graph, lin: seq<nat>, cs: seq<seq<nat>>)
    requires IsChunking(g, lin, cs)
    ensures Positive(Totals(g, cs)) && NonIncreasing(Totals(g, cs))
  {
    var t := Totals(g, cs);
    forall i | 0 <= i < |cs| ensures t[i].size > 0 {
      TotalSized(g, cs[i]);
    }
    forall i, j | 0 <= i < j < |t| ensures Rate(t[i]) >= Rate(t[j]) {
      SortedBetween(g, lin, cs, i, j);
    }
  }

  lemma {:induction false} SortedBetween(g: Graph, lin: seq<nat>, cs: seq<seq<nat>>, i: nat, j: nat)
    requires IsChunking(g, lin, cs) && i <= j < |cs| && Positive(Totals(g, cs))
    ensures Rate(Totals(g, cs)[i]) >= Rate(Totals(g, cs)[j])
    decreases j - i
  {
    if i < j {
      SortedBetween(g, lin, cs, i, j - 1);
      assert !Higher(Total(g, cs[j]), Total(g, cs[j - 1]));
      HigherIsRate(Totals(g, cs)[j], Totals(g, cs)[j - 1]);
    }
  }

  /** A chunking has the same prefix gains as the order it splits. */
  lemma ChunkingBest(g: Graph, lin: seq<nat>, cs: seq<seq<nat>>, l: real)
    requires IsChunking(g, lin, cs)
    ensures Best(Fees(g, lin), l) == Best(Totals(g, cs), l)
    ensures Total(g, lin) == Sum(Totals(g, cs))
  {
    ChunkingSolid(g, lin, cs);
    BestOfGroups(g, cs, l);
  }

  // ----- There is only one chunking -----

  lemma FirstChunkNotShorter(g: Graph, lin: seq<nat>, cs: seq<seq<nat>>, ds: seq<seq<nat>>)
    requires IsChunking(g, lin, cs) && IsChunking(g, lin, ds) && cs != [] && ds != []
    ensures |cs[0]| >= |ds[0]|
  {
    if |cs[0]| < |ds[0]| {
      var c, d := Total(g, cs[0]), Total(g, ds[0]);
      assert cs[0] == lin[..|cs[0]|] == ds[0][..|cs[0]|];
      TotalSized(g, cs[0]);
      TotalSized(g, ds[0]);
      HigherIsRate(c, d);
      var l := Rate(c);
      // Every chunk of cs has feerate at most l, so no prefix gains at slope l ...
      ChunkingSorted(g, lin, cs);
      assert Totals(g, cs)[0] == c;
      BestOfSteep(Totals(g, cs), l);
      ChunkingBest(g, lin, cs, l);
      // ... but the prefix ds[0] does.
      GainSign(d, l);
      assert ds[0] == lin[..|ds[0]|];
      assert Fees(g, lin)[..|ds[0]|] == Fees(g, ds[0]);
      BestAtLeast(Fees(g, lin), |ds[0]|, l);
      assert false;
    }
  }

  lemma TailChunking(g: Graph, lin: seq<nat>, cs: seq<seq<nat>>)
    requires IsChunking(g, lin, cs) && cs != []
    ensures IsChunking(g, lin[|cs[0]|..], cs[1..])
  {
    assert lin == cs[0] + Flatten(cs[1..]);
  }

  lemma NoEmptyChunking(g: Graph, lin: seq<nat>, cs: seq<seq<nat>>)
    requires IsChunking(g, lin, cs)
    ensures cs == [] <==> lin == []
  {
    if cs != [] {
      assert Tight(g, cs[0]);
    }
  }

  lemma {:induction false} ChunkingUnique(g: Graph, lin: seq<nat>, cs: seq<seq<nat>>, ds: seq<seq<nat>>)
    requires IsChunking(g, lin, cs) && IsChunking(g, lin, ds)
    ensures cs == ds
    decreases |cs|
  {
    if cs == [] || ds == [] {
      NoEmptyChunking(g, lin, cs);
      NoEmptyChunking(g, lin, ds);
    } else {
      FirstChunkNotShorter(g, lin, cs, ds);
      FirstChunkNotShorter(g, lin, ds, cs);
      assert cs[0] == lin[..|cs[0]|] == ds[0];
      TailChunking(g, lin, cs);
      TailChunking(g, lin, ds);
      ChunkingUnique(g, lin[|cs[0]|..], cs[1..], ds[1..]);
      assert cs == [cs[0]] + cs[1..] && ds == [ds[0]] + ds[1..];
    }
  }

  /** Removing the first chunk from the order leaves exactly the other chunks. */
  lemma DropFirstChunk(g: Graph, lin: seq<nat>)
    requires AllSized(g, lin) && Chunks(g, lin) != []
    ensures Chunks(g, lin)[0] <= lin
    ensures Chunks(g, lin[|Chunks(g, lin)[0]|..]) == Chunks(g, lin)[1..]
  {
    var cs := Chunks(g, lin);
    ChunksIsChunking(g, lin);
    TailChunking(g, lin, cs);
    assert lin == cs[0] + Flatten(cs[1..]);
    var rest := lin[|cs[0]|..];
    ChunksIsChunking(g, rest);
    ChunkingUnique(g, rest, Chunks(g, rest), cs[1..]);
  }

  // ----- The chunk diagram is the least concave majorant of the prefix points -----

  ghost predicate Concave(h: real -> real, top: real) {
    forall a: real, b: real, x: real ::
      0.0 <= a <= x <= b <= top && a < b ==>
        h(x) * (b - a) >= h(a) * (b - x) + h(b) * (x - a)
  }

  /** `h` is at or above every cumulative (size, fee) point of the order. */
  ghost predicate AbovePrefixes(g: Graph, lin: seq<nat>, h: real -> real) {
    forall k | 0 <= k <= |lin| ::
      h(Total(g, lin[..k]).size as real) >= Total(g, lin[..k]).fee as real
  }

  lemma DiagramAbovePrefixes(g: Graph, lin: seq<nat>, k: nat)
    requires AllSized(g, lin) && k <= |lin|
    ensures Positive(Totals(g, Chunks(g, lin)))
    ensures DiagramAt(Totals(g, Chunks(g, lin)), Total(g, lin[..k]).size as real)
         >= Total(g, lin[..k]).fee as real
  {
    var cs, a := Chunks(g, lin), Total(g, lin[..k]);
    ChunksIsChunking(g, lin);
    ChunkingSorted(g, lin, cs);
    PrefixInRange(g, lin, k);
    ChunkingBest(g, lin, cs, 0.0);
    forall l: real ensures Gain(a, l) <= Best(Totals(g, cs), l) {
      ChunkingBest(g, lin, cs, l);
      BestAtLeast(Fees(g, lin), k, l);
      assert Fees(g, lin)[..k] == Fees(g, lin[..k]);
    }
    PointBelowDiagram(Totals(g, cs), a);
  }

  lemma PrefixInRange(g: Graph, lin: seq<nat>, k: nat)
    requires AllSized(g, lin) && k <= |lin|
    ensures 0 <= Total(g, lin[..k]).size <= Total(g, lin).size
  {
    TotalSized(g, lin[..k]);
    TotalSized(g, lin[k..]);
    assert lin == lin[..k] + lin[k..];
    FeesConcat(g, lin[..k], lin[k..]);
    if k == 0 {
      assert lin[..0] == [];
    } 
    if k == |lin| {
      assert lin[..k] == lin;
    }
  }

  /** Among concave curves through or above all prefix points, the diagram is the lowest. */
  lemma DiagramLeast(g: Graph, lin: seq<nat>, h: real -> real, x: real)
    requires AllSized(g, lin)
    requires 0.0 <= x <= Total(g, lin).size as real
    requires Concave(h, Total(g, lin).size as real) && AbovePrefixes(g, lin, h)
    ensures Positive(Totals(g, Chunks(g, lin)))
    ensures h(x) >= DiagramAt(Totals(g, Chunks(g, lin)), x)
  {
    var cs := Chunks(g, lin);
    ChunksIsChunking(g, lin);
    ChunkingSorted(g, lin, cs);
    assert lin == [] + lin;
    assert Total(g, []).fee == 0 && Total(g, []).size == 0;
    hide *;
    LeastFrom(g, lin, [], lin, cs, h, x);
  }

  lemma PrefixPoint(g: Graph, lin: seq<nat>, h: real -> real, p: seq<nat>)
    requires AbovePrefixes(g, lin, h) && p <= lin
    ensures h(Total(g, p).size as real) >= Total(g, p).fee as real
  {
    assert lin[..|p|] == p;
  }

  lemma {:induction false} LeastFrom(g: Graph, lin: seq<nat>, done: seq<nat>, todo: seq<nat>,
                                     cs: seq<seq<nat>>, h: real -> real, x: real)
    requires AllSized(g, lin) && lin == done + todo && IsChunking(g, todo, cs)
    requires Positive(Totals(g, cs))
    requires Total(g, done).size as real <= x <= Total(g, lin).size as real
    requires Concave(h, Total(g, lin).size as real) && AbovePrefixes(g, lin, h)
    ensures h(x) >= Total(g, done).fee as real + DiagramAt(Totals(g, cs), x - Total(g, done).size as real)
    decreases |cs|
  {
    hide Rate, Line, Concave, AbovePrefixes;
    var a := Total(g, done);
    PrefixPoint(g, lin, h, done);
    if cs == [] {
      assert done == lin;
    } else {
      var next, rest := done + cs[0], Flatten(cs[1..]);
      assert todo == cs[0] + rest;
      assert lin == next + rest;
      TailChunking(g, todo, cs);
      FeesConcat(g, done, cs[0]);
      var c := Totals(g, cs)[0];
      assert Totals(g, cs)[1..] == Totals(g, cs[1..]);
      if x <= Total(g, next).size as real {
        PrefixPoint(g, lin, h, next);
        PrefixInRange(g, lin, |done|);
        PrefixInRange(g, lin, |next|);
        assert lin[..|done|] == done && lin[..|next|] == next;
        AboveChord(h, Total(g, lin).size as real, a, c, x);
      } else {
        LeastFrom(g, lin, next, rest, cs[1..], h, x);
      }
    }
  }

  lemma AboveChord(h: real -> real, top: real, a: FeeFrac, c: FeeFrac, x: real)
    requires c.size > 0 && a.size >= 0
    requires a.size as real <= x <= (a.size + c.size) as real <= top
    requires Concave(h, top)
    requires h(a.size as real) >= a.fee as real
    requires h((a.size + c.size) as real) >= (a.fee + c.fee) as real
    ensures h(x) >= a.fee as real + Line(Rate(c), x - a.size as real)
  {
    var p, q := a.size as real, (a.size + c.size) as real;
    var s, u := c.size as real, x - p;
    assert h(x) * (q - p) >= h(p) * (q - x) + h(q) * (x - p);
    ScaleMonotone(s - u, a.fee as real, h(p));
    ScaleMonotone(u, (a.fee + c.fee) as real, h(q));
    ChordArithmetic(h(x), s, u, a.fee as real, c.fee as real, h(p), h(q));
  }

  lemma ChordArithmetic(y: real, s: real, u: real, af: real, cf: real, hp: real, hq: real)
    requires s > 0.0
    requires y * s >= hp * (s - u) + hq * u
    requires (s - u) * af <= (s - u) * hp
    requires u * (af + cf) <= u * hq
    ensures y >= af + (cf / s) * u
  {
    var r := cf / s;
    assert r * s == cf;
    assert (s - u) * af + u * (af + cf) == s * af + u * cf;
    assert u * cf == (r * u) * s;
    assert (y - af - r * u) * s == y * s - af * s - (r * u) * s;
    assert (y - af - r * u) * s >= 0.0;
    SignOfProduct(s, y - af - r * u);
  }

  /** Orders of the same total size are compared by the diagrams of their chunk feerates. */
  lemma ComparedByDiagrams(g: Graph, a: seq<nat>, b: seq<nat>)
    requires AllSized(g, a) && AllSized(g, b) && Total(g, a).size == Total(g, b).size
    ensures Positive(Totals(g, Chunks(g, a))) && Positive(Totals(g, Chunks(g, b)))
    ensures AtLeastAsGood(Fees(g, a), Fees(g, b))
        <==> DiagramNowhereBelow(Totals(g, Chunks(g, a)), Totals(g, Chunks(g, b)))
  {
    hide Best, DiagramNowhereBelow;
    var ca, cb := Chunks(g, a), Chunks(g, b);
    ChunksIsChunking(g, a);
    ChunksIsChunking(g, b);
    ChunkingSorted(g, a, ca);
    ChunkingSorted(g, b, cb);
    forall l: real
      ensures Best(Fees(g, a), l) == Best(Totals(g, ca), l) && Best(Fees(g, b), l) == Best(Totals(g, cb), l)
    {
      ChunkingBest(g, a, ca, l);
      ChunkingBest(g, b, cb, l);
    }
    ChunkingBest(g, a, ca, 0.0);
    ChunkingBest(g, b, cb, 0.0);
    DiagramDuality(Totals(g, ca), Totals(g, cb));
  }

  // ----- The source's loop -----

  /** Feerates of the chunks of a linearization. */
  method ChunkLinearization(g: Graph, lin: seq<nat>) returns (ret: seq<FeeFrac>)
    requires AllSized(g, lin)
    ensures ret == Totals(g, Chunks(g, lin))
  {
    ret := [];
    var i := 0;
    while i < |lin|
      invariant 0 <= i <= |lin|
      invariant ret == Totals(g, Chunks(g, lin[..i]))
    {
      var newChunk := g.FeeRate(lin[i]);
      ghost var group := [lin[i]];
      ghost var cs := Chunks(g, lin[..i]);
      SingletonTight(g, lin[i]);
      assert lin[..i + 1][..i] == lin[..i];
      while |ret| > 0 && Higher(newChunk, ret[|ret| - 1])
        invariant newChunk == Total(g, group)
        invariant ret == Totals(g, cs)
        invariant Absorb(g, cs, group) == Chunks(g, lin[..i + 1])
      {
        ghost var last := cs[|cs| - 1];
        FeesConcat(g, last, group);
        newChunk := Plus(newChunk, ret[|ret| - 1]);
        ret := ret[..|ret| - 1];
        group, cs := last + group, cs[..|cs| - 1];
      }
      ret := ret + [newChunk];
      assert Totals(g, cs + [group]) == Totals(g, cs) + [Total(g, group)];
      i := i + 1;
    }
    assert lin[..|lin|] == lin;
  }
}
