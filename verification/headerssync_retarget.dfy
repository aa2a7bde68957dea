/** The chain's own difficulty rule in headers sync: why the buffer must hold at least one header. */
module HeadersSyncRetarget {
  import opened Arithmetic
  import opened Limbs
  import opened Difficulty
  import opened HeadersSync

  /** Difficulty is judged by the rule of the chain. */
  ghost predicate ByRule(p: Params, r: DifficultyRules) {
    r.Valid() && forall height: nat, a: Limb, b: Limb :: p.rules.permitted(height, a, b) <==> PermittedTransition(r, height, a, b)
  }

  /** Two headers after a starting block, the first of which adjusts the difficulty. */
  ghost predicate Retargets(p: Params, r: DifficultyRules, h1: Header, h2: Header) {
    && p.start.bits < BASE && h1.bits < BASE && h2.bits == h1.bits != p.start.bits
    && r.Valid() && !r.allowMinDifficulty && r.Interval() > 1 && (p.startHeight + 1) % r.Interval() == 0
    && PermittedTransition(r, p.startHeight + 1, p.start.bits, h1.bits)
  }

  lemma NextIsBetween(n: nat, m: nat)
    requires m > 1 && n % m == 0
    ensures (n + 1) % m == 1
  {
    Divided(n, m);
    Quotient(n + 1, m, n / m, 1);
  }

  /** Whatever the hashes and the work, without a buffer a peer that serves these headers one by one is rejected,
      though it served the same headers before. */
  lemma ReplayRejectedAtRetarget(p: Params, r: DifficultyRules, h1: Header, h2: Header, full: bool)
    requires p.Valid() && p.bufferSize == 0 && ByRule(p, r) && Retargets(p, r, h1, h2)
    requires h1.prev == p.rules.hash(p.start) && h2.prev == p.rules.hash(h1)
    requires WorkOf(p, [h1]) < p.minimumWork <= WorkOf(p, [h1, h2]) && |Commitments(p, [h1, h2])| <= p.maxCommitments
    ensures var (result, s) := Process(p, Initial(p), [h1, h2], true);
            && result.success && s.phase == Redownload
            && !NeverRejected(p, s, [Message([h1], true), Message([h2], full)])
  {
    hide WorkOf, Commitments, Process, Redownloading, Presyncing, Reached, Linked, Permitted, NeverRejected, PermittedTransition;
    var pre, h := [h1, h2], History([], [], []);
    FirstPhaseAccepts(p, r, h1, h2);
    var (result, s) := Process(p, Initial(p), pre, true);
    var h' := History(pre, [], []);
    var msgs := [Message([h1], true), Message([h2], full)];
    assert msgs[1..] == [Message([h2], full)] && msgs[1..][1..] == [];
    assert Concat(msgs[1..][1..]) == [] && Concat(msgs[1..]) == [h2] + [] && Concat(msgs) == [h1] + Concat(msgs[1..]);
    assert pre[0..] == pre && Concat(msgs) == pre;
    ReplayUnbuffered(p, s, h', msgs);
    BoundaryFails(p, r, h1, h2, full);
  }

  lemma RuleAt(p: Params, r: DifficultyRules, h1: Header, h2: Header)
    requires ByRule(p, r) && Retargets(p, r, h1, h2)
    ensures p.rules.permitted(p.startHeight + 1, p.start.bits, h1.bits)
    ensures p.rules.permitted(p.startHeight + 2, h1.bits, h2.bits)
    ensures !p.rules.permitted(p.startHeight + 2, p.start.bits, h2.bits)
  {
    NextIsBetween(p.startHeight + 1, r.Interval());
    hide Adjusted, Target;
    assert PermittedTransition(r, p.startHeight + 2, h1.bits, h2.bits);
    assert !PermittedTransition(r, p.startHeight + 2, p.start.bits, h2.bits);
  }

  lemma FirstPhaseAccepts(p: Params, r: DifficultyRules, h1: Header, h2: Header)
    requires p.Valid() && ByRule(p, r) && Retargets(p, r, h1, h2)
    requires h1.prev == p.rules.hash(p.start) && h2.prev == p.rules.hash(h1)
    requires p.minimumWork <= WorkOf(p, [h1, h2]) && |Commitments(p, [h1, h2])| <= p.maxCommitments
    ensures var (result, s) := Process(p, Initial(p), [h1, h2], true);
            result.success && s.phase == Redownload && Open(p, s, History([h1, h2], [], []))
  {
    var pre, start := [h1, h2], Initial(p);
    hide WorkOf, Commitments, Reached, ByRule, Retargets;
    RuleAt(p, r, h1, h2);
    FirstHeader(p, h1, h2);
    var one := PresyncHeader(p, start, h1).s;
    SecondHeader(p, one, h1, h2);
    assert pre[1..] == [h2] && [h2][1..] == [];
    hide PresyncHeader, Presyncing;
    assert PresyncHeaders(p, one, [h2]) == PresyncHeaders(p, PresyncHeader(p, one, h2).s, []);
    assert PresyncHeaders(p, start, pre).ok;
    assert PresyncMessage(p, start, pre).ok && PresyncMessage(p, start, pre).s.phase == Redownload;
    assert Continuous(p, pre);
    assert Process(p, start, pre, true).0.success;
    InitialInv(p);
    hide Process, Inv;
    OpenAtStart(p);
    ProcessOpen(p, start, History([], [], []), pre, true);
    assert [] + pre == pre;
  }

  lemma OpenAtStart(p: Params)
    requires p.Valid()
    ensures Open(p, Initial(p), History([], [], []))
  {
    InitialInv(p);
  }

  lemma FirstHeader(p: Params, h1: Header, h2: Header)
    requires p.Valid() && h1.prev == p.rules.hash(p.start) && p.rules.permitted(p.startHeight + 1, p.start.bits, h1.bits)
    requires |Commitments(p, [h1, h2])| <= p.maxCommitments
    ensures var o := PresyncHeader(p, Initial(p), h1); o.ok && Presyncing(p, o.s, [h1])
  {
    InitialInv(p);
    CommitmentsOfPrefix(p, [h1, h2], 1);
    assert [h1, h2][..1] == [h1] && [] + [h1] == [h1];
    hide WorkOf, Commitments, PresyncHeader, Presyncing;
    PresyncHeaderKeeps(p, Initial(p), [], h1);
  }

  lemma SecondHeader(p: Params, one: Sync, h1: Header, h2: Header)
    requires p.Valid() && Presyncing(p, one, [h1]) && h2.prev == p.rules.hash(h1)
    requires p.rules.permitted(p.startHeight + 2, h1.bits, h2.bits) && |Commitments(p, [h1, h2])| <= p.maxCommitments
    ensures var o := PresyncHeader(p, one, h2);
            o.ok && Presyncing(p, o.s, [h1, h2]) && o.s.work == WorkOf(p, [h1, h2])
  {
    assert [h1] + [h2] == [h1, h2];
    hide WorkOf, Commitments, PresyncHeader;
    PresyncHeaderKeeps(p, one, [h1], h2);
  }

  lemma BoundaryFails(p: Params, r: DifficultyRules, h1: Header, h2: Header, full: bool)
    requires p.Valid() && ByRule(p, r) && Retargets(p, r, h1, h2) && WorkOf(p, [h1]) < p.minimumWork
    ensures !BoundariesOk(p, [h1, h2], 0, [Message([h1], true), Message([h2], full)])
  {
    hide ByRule, Retargets;
    RuleAt(p, r, h1, h2);
    var pre, msgs := [h1, h2], [Message([h1], true), Message([h2], full)];
    assert msgs[1..] == [Message([h2], full)];
    assert pre[..0] == [] && pre[..1] == [h1];
    assert !Reached(p, []);
    hide WorkOf;
    OneNotReached(p, h1);
    assert !BoundaryOk(p, pre, 1);
    assert !BoundariesOk(p, pre, 1, msgs[1..]);
  }

  lemma OneNotReached(p: Params, h1: Header)
    requires WorkOf(p, [h1]) < p.minimumWork
    ensures !Reached(p, [h1])
  {
    hide WorkOf;
    forall i | 0 < i <= 1
      ensures WorkOf(p, [h1][..i]) < p.minimumWork
    {
      assert [h1][..i] == [h1];
    }
  }

  /** Such headers exist under the rules of the main chain. */
  lemma RetargetExists(p: Params, h1: Header, h2: Header)
    requires p.startHeight == 2015 && p.start.bits == 0x0340_0000 && h1.bits == h2.bits == 0x0320_0000
    ensures Retargets(p, DifficultyRules(false, 1209600, 600, Pow2(224) - 1), h1, h2)
  {
    hide Pow2, PermittedTransition;
    HalvingPermitted();
  }
}
