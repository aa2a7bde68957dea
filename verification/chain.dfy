/**
 * The block tree with its skip pointers, and the active chain.
 *
 * Walking back along skip pointers is proved to give what walking back one block at a time gives.
 */
module Chains {
  import opened Arithmetic

  /** `n` with its lowest one bit cleared. */
  function InvertLowestOne(n: nat): (r: nat)
    ensures r <= n && (n > 0 ==> r < n)
  {
    if n == 0 then 0 else if n % 2 == 1 then n - 1 else 2 * InvertLowestOne(n / 2)
  }

  /** In binary: zeros below the lowest one stay, that one goes, the rest is kept. */
  lemma {:induction false} LowestOneCleared(n: nat) returns (k: nat, m: nat)
    requires n > 0
    ensures n == (2 * m + 1) * Pow2(k) && InvertLowestOne(n) == 2 * m * Pow2(k)
  {
    if n % 2 == 1 {
      k, m := 0, n / 2;
    } else {
      k, m := LowestOneCleared(n / 2);
      DoubledParts(m, Pow2(k));
      k := k + 1;
    }
  }

  lemma DoubledParts(m: nat, p: nat)
    ensures (2 * m + 1) * (2 * p) == 2 * ((2 * m + 1) * p) && 2 * m * (2 * p) == 2 * (2 * m * p)
  {
  }

  /** The height a block's skip pointer goes back to. */
  function SkipHeight(height: nat): (r: nat)
    ensures height > 0 ==> r < height
  {
    if height < 2 then 0
    else if height % 2 == 1 then InvertLowestOne(InvertLowestOne(height - 1)) + 1
    else InvertLowestOne(height)
  }

  // ---------------------------------------------------------------------------------------------
  // The tree: plain walks back

  function Back(b: Block?, n: nat): Block? {
    if b == null || n == 0 then b else Back(b.prev, n - 1)
  }

  /** The ancestor of `b` at height `h`, one block at a time. */
  function Ancestor(b: Block, h: nat): Block? {
    if h <= b.height then Back(b, b.height - h) else null
  }

  predicate Linked(b: Block) {
    if b.prev == null then b.height == 0 else b.height == b.prev.height + 1
  }

  /** A set of blocks that holds the predecessors of its blocks, at the right heights. */
  ghost predicate Placed(tree: set<Block>) {
    forall b | b in tree :: Linked(b) && (b.prev != null ==> b.prev in tree)
  }

  ghost predicate SkipOk(b: Block)
    reads b
  {
    b.skip != null ==> b.height > 0 && b.skip == Ancestor(b, SkipHeight(b.height))
  }

  ghost predicate Tree(tree: set<Block>)
    reads tree
  {
    Placed(tree) && forall b | b in tree :: SkipOk(b)
  }

  lemma {:induction false} BackPlaced(tree: set<Block>, b: Block, n: nat)
    requires Placed(tree) && b in tree && n <= b.height
    ensures var a := Back(b, n); a != null && a in tree && a.height == b.height - n
    decreases n
  {
    if n > 0 {
      assert Linked(b);
      BackPlaced(tree, b.prev, n - 1);
    }
  }

  lemma {:induction false} BackBack(b: Block?, m: nat, n: nat)
    ensures Back(Back(b, m), n) == Back(b, m + n)
    decreases m
  {
    if b != null && m > 0 {
      BackBack(b.prev, m - 1, n);
    }
  }

  lemma AncestorOfAncestor(tree: set<Block>, b: Block, m: nat, h: nat)
    requires Placed(tree) && b in tree && h <= m <= b.height
    ensures var a := Ancestor(b, m);
            a != null && a in tree && a.height == m && Ancestor(a, h) == Ancestor(b, h)
    ensures m + 1 == b.height ==> Ancestor(b, m) == b.prev
  {
    BackPlaced(tree, b, b.height - m);
    BackBack(b, b.height - m, m - h);
    if m + 1 == b.height {
      assert Linked(b) && Back(b, 1) == Back(b.prev, 0) == b.prev;
    }
  }

  /** An entry of the block index; its place in the tree is fixed when it is made. */
  class Block {
    const prev: Block?
    const height: nat
    var skip: Block?

    constructor (prev: Block?)
      ensures this.prev == prev && height == (if prev == null then 0 else prev.height + 1) && skip == null
    {
      this.prev := prev;
      height := if prev == null then 0 else prev.height + 1;
      skip := null;
    }

    /** The ancestor at a height, found along skip pointers where they do not go too far. */
    method GetAncestor(target: int, ghost tree: set<Block>) returns (r: Block?)
      requires Tree(tree) && this in tree
      ensures r == if 0 <= target <= height then Ancestor(this, target) else null
    {
      if target > height || target < 0 {
        return null;
      }
      var walk, at := this, height;
      while at > target
        invariant walk in tree && walk.height == at >= target
        invariant Ancestor(walk, target) == Ancestor(this, target)
      {
        var skip, skipPrev := SkipHeight(at), SkipHeight(at - 1);
        if walk.skip != null &&
           (skip == target || (skip > target && !(skipPrev < skip - 2 && skipPrev >= target))) {
          AncestorOfAncestor(tree, walk, skip, target);
          walk, at := walk.skip, skip;
        } else {
          AncestorOfAncestor(tree, walk, at - 1, target);
          walk, at := walk.prev, at - 1;
        }
      }
      r := walk;
    }

    /** Point back to the ancestor that blocks of this height point back to. */
    method BuildSkip(ghost tree: set<Block>)
      requires Tree(tree) && this !in tree && skip == null && Linked(this) && (prev != null ==> prev in tree)
      modifies this`skip
      ensures Tree(tree + {this}) && (prev != null ==> skip != null)
    {
      if prev != null {
        ghost var h := SkipHeight(height);
        AncestorOfAncestor(tree, prev, h, h);
        AncestorOfAncestor(tree + {this}, this, height - 1, h);
        skip := prev.GetAncestor(SkipHeight(height), tree);
      }
      forall b | b in tree + {this}
        ensures SkipOk(b)
      {
        assert b != this ==> old(SkipOk(b));
      }
    }
  }

  // ---------------------------------------------------------------------------------------------
  // Common ancestors

  /** Blocks that agree at one height agree at every lower one. */
  lemma AgreeBelow(tree: set<Block>, a: Block, b: Block, h: nat, low: nat)
    requires Placed(tree) && a in tree && b in tree && low <= h <= a.height && h <= b.height
    requires Ancestor(a, h) == Ancestor(b, h)
    ensures Ancestor(a, low) == Ancestor(b, low)
  {
    AncestorOfAncestor(tree, a, h, low);
    AncestorOfAncestor(tree, b, h, low);
  }

  /** No common ancestor above height `h`. */
  ghost predicate DifferAbove(a: Block, b: Block, h: int) {
    forall k: nat | h < k <= a.height && k <= b.height :: Ancestor(a, k) != Ancestor(b, k)
  }

  ghost predicate Skips(tree: set<Block>)
    reads tree
  {
    forall b | b in tree && b.height > 0 :: b.skip != null
  }

  /** `r` is the highest common ancestor of `a` and `b`, or null if they have none. */
  ghost predicate IsLastCommon(a: Block, b: Block, r: Block?) {
    if r == null then DifferAbove(a, b, -1)
    else
      && r.height <= a.height && r.height <= b.height
      && Ancestor(a, r.height) == r && Ancestor(b, r.height) == r
      && DifferAbove(a, b, r.height)
  }

  lemma DifferDown(tree: set<Block>, a: Block, b: Block, h: nat)
    requires Placed(tree) && a in tree && b in tree && h <= a.height && h <= b.height
    requires Ancestor(a, h) != Ancestor(b, h)
    ensures DifferAbove(a, b, h - 1)
  {
    forall k: nat | h <= k <= a.height && k <= b.height
      ensures Ancestor(a, k) != Ancestor(b, k)
    {
      if Ancestor(a, k) == Ancestor(b, k) {
        AgreeBelow(tree, a, b, k, h);
      }
    }
  }

  method LastCommonAncestor(a: Block, b: Block, ghost tree: set<Block>) returns (r: Block?)
    requires Tree(tree) && Skips(tree) && a in tree && b in tree
    ensures IsLastCommon(a, b, r)
  {
    var pa: Block?, pb: Block? := a, b;
    if pa.height > pb.height {
      pa := pa.GetAncestor(pb.height, tree);
      AncestorOfAncestor(tree, a, b.height, b.height);
    } else if pb.height > pa.height {
      pb := pb.GetAncestor(pa.height, tree);
      AncestorOfAncestor(tree, b, a.height, a.height);
    }
    while pa != pb
      invariant Meeting(tree, a, b, pa, pb)
      decreases if pa == null then -1 else pa.height
    {
      while pa.skip != pb.skip
        invariant pa != null && pb != null && pa != pb && Meeting(tree, a, b, pa, pb)
        decreases pa.height
      {
        SkipMeeting(tree, a, b, pa, pb);
        pa, pb := pa.skip, pb.skip;
      }
      PrevMeeting(tree, a, b, pa, pb);
      pa, pb := pa.prev, pb.prev;
    }
    r := pa;
  }

  /** `pa` and `pb` are ancestors of `a` and `b` at one height, above which those have none in common;
      or both walks have left the tree without meeting. */
  ghost predicate Meeting(tree: set<Block>, a: Block, b: Block, pa: Block?, pb: Block?) {
    if pa == null || pb == null then pa == pb && DifferAbove(a, b, -1)
    else
      && pa in tree && pb in tree && pa.height == pb.height <= a.height && pb.height <= b.height
      && Ancestor(a, pa.height) == pa && Ancestor(b, pb.height) == pb
      && DifferAbove(a, b, pa.height)
  }

  lemma SkipMeeting(tree: set<Block>, a: Block, b: Block, pa: Block, pb: Block)
    requires Tree(tree) && Skips(tree) && a in tree && b in tree
    requires Meeting(tree, a, b, pa, pb) && pa.skip != pb.skip
    ensures pa.skip != null && pb.skip != null && pa.skip.height < pa.height && Meeting(tree, a, b, pa.skip, pb.skip)
  {
    assert SkipOk(pa) && SkipOk(pb);
    var h := SkipHeight(pa.height);
    AncestorOfAncestor(tree, pa, h, h);
    AncestorOfAncestor(tree, pb, h, h);
    AncestorOfAncestor(tree, a, pa.height, h);
    AncestorOfAncestor(tree, b, pb.height, h);
    DifferDown(tree, a, b, h);
  }

  lemma PrevMeeting(tree: set<Block>, a: Block, b: Block, pa: Block, pb: Block)
    requires Tree(tree) && a in tree && b in tree && Meeting(tree, a, b, pa, pb) && pa != pb
    ensures Meeting(tree, a, b, pa.prev, pb.prev) && (pa.prev != null ==> pa.prev.height < pa.height)
  {
    assert Linked(pa) && Linked(pb);
    var h := pa.height;
    DifferDown(tree, a, b, h);
    if h > 0 {
      AncestorOfAncestor(tree, pa, h - 1, h - 1);
      AncestorOfAncestor(tree, pb, h - 1, h - 1);
      AncestorOfAncestor(tree, a, h, h - 1);
      AncestorOfAncestor(tree, b, h, h - 1);
    }
  }

  // ---------------------------------------------------------------------------------------------
  // The active chain

  /** `blocks` are the ancestors of their last block, by height. */
  ghost predicate IsChain(tree: set<Block>, blocks: seq<Block?>) {
    blocks != [] ==>
      var tip := blocks[|blocks| - 1];
      && tip != null && tip in tree && tip.height == |blocks| - 1
      && forall h | 0 <= h < |blocks| :: blocks[h] == Ancestor(tip, h)
  }

  /** Resizing keeps what fits and fills up with nulls. */
  function Resized(blocks: seq<Block?>, n: nat): (r: seq<Block?>)
    ensures |r| == n
  {
    if n <= |blocks| then blocks[..n] else blocks + seq(n - |blocks|, _ => null)
  }

  /** From height `done` up the new tip's ancestors stand in their places; below nothing has changed. */
  ghost predicate InPlace(tip: Block, blocks: seq<Block?>, resized: seq<Block?>, done: nat) {
    && |blocks| == |resized| && done <= |blocks|
    && (forall h | done <= h < |blocks| :: blocks[h] == Ancestor(tip, h))
    && (forall h | 0 <= h < done :: blocks[h] == resized[h])
  }

  lemma AncestorAtTop(b: Block)
    ensures Ancestor(b, b.height) == b
  {
  }

  /** The predecessor of an ancestor is the next ancestor down. */
  lemma WalkBack(tree: set<Block>, b: Block, walk: Block)
    requires Placed(tree) && b in tree && walk in tree && walk.height <= b.height && Ancestor(b, walk.height) == walk
    ensures walk.prev == null ==> walk.height == 0
    ensures walk.prev != null ==>
              && walk.prev in tree && walk.prev.height == walk.height - 1
              && Ancestor(b, walk.height - 1) == walk.prev
  {
    assert Linked(walk);
    if walk.height > 0 {
      AncestorOfAncestor(tree, walk, walk.height - 1, walk.height - 1);
      AncestorOfAncestor(tree, b, walk.height, walk.height - 1);
    }
  }

  lemma TipIsChain(tree: set<Block>, tip: Block, blocks: seq<Block?>)
    requires Placed(tree) && tip in tree && |blocks| == tip.height + 1
    requires forall h | 0 <= h < |blocks| :: blocks[h] == Ancestor(tip, h)
    ensures IsChain(tree, blocks) && blocks[tip.height] == tip
  {
    AncestorAtTop(tip);
  }

  class Chain {
    var blocks: seq<Block?>

    constructor ()
      ensures blocks == []
    {
      blocks := [];
    }

    predicate Contains(b: Block)
      reads this
    {
      b.height < |blocks| && blocks[b.height] == b
    }

    /** Make a block the tip.  The walk back stops at the first block already in its place, and still
        leaves every ancestor of the new tip at its height. */
    method SetTip(tip: Block, ghost tree: set<Block>)
      requires Placed(tree) && tip in tree && IsChain(tree, blocks)
      modifies this
      ensures IsChain(tree, blocks) && |blocks| == tip.height + 1 && blocks[tip.height] == tip
    {
      hide Ancestor, Linked, Resized, IsChain;
      ghost var was := blocks;
      ghost var resized := Resized(blocks, tip.height + 1);
      var walk: Block? := tip;
      blocks := Resized(blocks, tip.height + 1);
      AncestorOfAncestor(tree, tip, tip.height, tip.height);
      AncestorAtTop(tip);
      while walk != null && blocks[walk.height] != walk
        invariant |blocks| == tip.height + 1
        invariant walk != null ==> walk in tree && walk.height <= tip.height && Ancestor(tip, walk.height) == walk
        invariant InPlace(tip, blocks, resized, if walk == null then 0 else walk.height + 1)
        decreases if walk == null then -1 else walk.height
      {
        WalkBack(tree, tip, walk);
        blocks := blocks[walk.height := walk];
        walk := walk.prev;
      }
      if walk != null {
        RestInPlace(tree, was, tip, walk);
      }
      TipIsChain(tree, tip, blocks);
    }

    /** No ancestor of `b` above height `h` is in the chain. */
    ghost predicate NoneAbove(b: Block, h: int)
      reads this
    {
      forall k: nat | h < k <= b.height :: var a := Ancestor(b, k); a != null && !Contains(a)
    }

    /** The highest ancestor of `b` in the chain, or null if there is none. */
    method FindFork(b: Block?, ghost tree: set<Block>) returns (r: Block?)
      requires Tree(tree) && (b != null ==> b in tree) && IsChain(tree, blocks)
      ensures b == null ==> r == null
      ensures b != null && r != null ==>
                Contains(r) && r.height <= b.height && Ancestor(b, r.height) == r && NoneAbove(b, r.height)
      ensures b != null && r == null ==> NoneAbove(b, -1)
    {
      hide Ancestor, Linked, SkipOk, NoneAbove, IsChain;
      if b == null {
        return null;
      }
      var walk: Block? := b;
      NoneAboveTop(tree, b);
      if b.height > |blocks| - 1 {
        walk := b.GetAncestor(|blocks| - 1, tree);
      }
      while walk != null && !Contains(walk)
        invariant walk != null ==> walk in tree && walk.height <= b.height && Ancestor(b, walk.height) == walk
        invariant NoneAbove(b, if walk == null then -1 else walk.height)
        decreases if walk == null then -1 else walk.height
      {
        NoneAboveStep(tree, b, walk);
        WalkBack(tree, b, walk);
        walk := walk.prev;
      }
      r := walk;
    }

    lemma NoneAboveStep(tree: set<Block>, b: Block, walk: Block)
      requires Placed(tree) && b in tree && walk in tree && walk.height <= b.height && Ancestor(b, walk.height) == walk
      requires NoneAbove(b, walk.height) && !Contains(walk)
      ensures NoneAbove(b, walk.height - 1)
    {
    }

    /** Ancestors above the chain's height are not in it; at that height there is one. */
    lemma NoneAboveTop(tree: set<Block>, b: Block)
      requires Placed(tree) && b in tree
      ensures NoneAbove(b, b.height) && NoneAbove(b, |blocks| - 1) && Ancestor(b, b.height) == b
      ensures blocks != [] && b.height > |blocks| - 1 ==>
                var a := Ancestor(b, |blocks| - 1); a != null && a in tree && a.height == |blocks| - 1
    {
      forall k: nat | |blocks| - 1 < k <= b.height
        ensures var a := Ancestor(b, k); a != null && !Contains(a)
      {
        AncestorOfAncestor(tree, b, k, k);
      }
      if blocks != [] && b.height > |blocks| - 1 {
        AncestorOfAncestor(tree, b, |blocks| - 1, |blocks| - 1);
      }
    }
  }

  /** Below a block of the old chain that is also an ancestor of the new tip, the two agree. */
  lemma RestInPlace(tree: set<Block>, was: seq<Block?>, tip: Block, walk: Block)
    requires Placed(tree) && tip in tree && IsChain(tree, was)
    requires walk in tree && walk.height <= tip.height && Ancestor(tip, walk.height) == walk
    requires Resized(was, tip.height + 1)[walk.height] == walk
    ensures forall h | 0 <= h <= walk.height :: Resized(was, tip.height + 1)[h] == Ancestor(tip, h)
  {
    var before := was[|was| - 1];
    forall h | 0 <= h <= walk.height
      ensures Resized(was, tip.height + 1)[h] == Ancestor(tip, h)
    {
      AncestorOfAncestor(tree, before, walk.height, h);
      AncestorOfAncestor(tree, tip, walk.height, h);
    }
  }
}
