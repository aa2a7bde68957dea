/**
 * Downloading a peer's headers twice: first only counting their work and keeping one bit of some of
 * them (presync), then again, checked against those bits and buffered before release (redownload).
 *
 * What the code takes from elsewhere is a parameter: the block hash, the salted bit of a hash, the
 * proof of work of a target and the rule for permitted difficulty changes.
 */
module HeadersSync {
  datatype Header = Header(version: int, prev: nat, merkle: nat, time: nat, bits: nat, nonce: nat)

  /** A header without the previous block's hash. */
  datatype Compressed = Compressed(version: int, merkle: nat, time: nat, bits: nat, nonce: nat) {
    function Full(prev: nat): Header {
      Header(version, prev, merkle, time, bits, nonce)
    }
  }

  function Compress(h: Header): Compressed {
    Compressed(h.version, h.merkle, h.time, h.bits, h.nonce)
  }

  datatype Rules = Rules(
    hash: Header -> nat,
    bit: nat -> bool,
    proof: nat -> nat,
    permitted: (int, nat, nat) -> bool)

  datatype Params = Params(
    rules: Rules,
    start: Header, startHeight: nat, startWork: nat,
    period: nat, offset: nat, bufferSize: nat, minimumWork: nat, maxCommitments: nat)
  {
    predicate Valid() {
      0 < period
    }
  }

  datatype Phase = Presync | Redownload | Final

  datatype Sync = Sync(
    phase: Phase,
    work: nat, commitments: seq<bool>, last: Header, height: int,
    buffer: seq<Compressed>, lastHeight: int, lastHash: nat, firstPrev: nat, redoWork: nat, all: bool)

  datatype Outcome = Outcome(ok: bool, s: Sync)

  datatype Result = Result(headers: seq<Header>, success: bool, requestMore: bool)

  const NULL_HASH: nat := 0

  function NullHeader(): Header {
    Header(0, NULL_HASH, 0, 0, 0, 0)
  }

  // ---------------------------------------------------------------------------------------------
  // The state machine

  /** Work is a 256-bit number. */
  function AddWork(work: nat, more: nat): nat {
    (work + more) % 0x1_0000_0000_0000_0000_0000_0000_0000_0000_0000_0000_0000_0000_0000_0000_0000_0000
  }

  function Initial(p: Params): Sync {
    Sync(Presync, p.startWork, [], p.start, p.startHeight, [], 0, NULL_HASH, NULL_HASH, 0, false)
  }

  function Finalized(s: Sync): Sync {
    s.(phase := Final, commitments := [], last := NullHeader(), buffer := [], lastHash := NULL_HASH,
       firstPrev := NULL_HASH, all := false, height := 0)
  }

  predicate CommitsAt(p: Params, height: int)
    requires p.Valid()
  {
    height % p.period == p.offset
  }

  function PresyncHeader(p: Params, s: Sync, h: Header): Outcome
    requires p.Valid()
  {
    var next := s.height + 1;
    if s.phase != Presync || !p.rules.permitted(next, s.last.bits, h.bits) then Outcome(false, s)
    else
      var kept := s.commitments + if CommitsAt(p, next) then [p.rules.bit(p.rules.hash(h))] else [];
      if CommitsAt(p, next) && |kept| > p.maxCommitments then Outcome(false, s.(commitments := kept))
      else Outcome(true, s.(commitments := kept, work := AddWork(s.work, p.rules.proof(h.bits)), last := h, height := next))
  }

  function PresyncHeaders(p: Params, s: Sync, hs: seq<Header>): Outcome
    requires p.Valid()
    decreases |hs|
  {
    if hs == [] then Outcome(true, s)
    else
      var r := PresyncHeader(p, s, hs[0]);
      if r.ok then PresyncHeaders(p, r.s, hs[1..]) else r
  }

  function StartRedownload(p: Params, s: Sync): Sync {
    var hash := p.rules.hash(p.start);
    s.(buffer := [], lastHeight := p.startHeight, firstPrev := hash, lastHash := hash, redoWork := p.startWork, phase := Redownload)
  }

  function PresyncMessage(p: Params, s: Sync, hs: seq<Header>): Outcome
    requires p.Valid()
  {
    if hs == [] then Outcome(true, s)
    else if s.phase != Presync || hs[0].prev != p.rules.hash(s.last) then Outcome(false, s)
    else
      var r := PresyncHeaders(p, s, hs);
      if r.ok && r.s.work >= p.minimumWork then Outcome(true, StartRedownload(p, r.s)) else r
  }

  /** The target of the header before the next one, as the redownload phase knows it. */
  function PreviousBits(p: Params, s: Sync): nat {
    if s.buffer != [] then s.buffer[|s.buffer| - 1].bits else p.start.bits
  }

  function RedownloadHeader(p: Params, s: Sync, h: Header): Outcome
    requires p.Valid()
  {
    var next := s.lastHeight + 1;
    if s.phase != Redownload || h.prev != s.lastHash then Outcome(false, s)
    else if !p.rules.permitted(next, PreviousBits(p, s), h.bits) then Outcome(false, s)
    else
      var work := AddWork(s.redoWork, p.rules.proof(h.bits));
      var r := s.(redoWork := work, all := s.all || work >= p.minimumWork);
      var checked := !r.all && CommitsAt(p, next);
      if checked && r.commitments == [] then Outcome(false, r)
      else
        var q := if checked then r.(commitments := r.commitments[1..]) else r;
        if checked && p.rules.bit(p.rules.hash(h)) != r.commitments[0] then Outcome(false, q)
        else Outcome(true, q.(buffer := q.buffer + [Compress(h)], lastHeight := next, lastHash := p.rules.hash(h)))
  }

  function RedownloadHeaders(p: Params, s: Sync, hs: seq<Header>): Outcome
    requires p.Valid()
    decreases |hs|
  {
    if hs == [] then Outcome(true, s)
    else
      var r := RedownloadHeader(p, s, hs[0]);
      if r.ok then RedownloadHeaders(p, r.s, hs[1..]) else r
  }

  predicate MustRelease(p: Params, s: Sync) {
    s.phase == Redownload && (|s.buffer| > p.bufferSize || (|s.buffer| > 0 && s.all))
  }

  function ReleaseOne(p: Params, s: Sync): Sync
    requires s.buffer != []
  {
    s.(buffer := s.buffer[1..], firstPrev := p.rules.hash(s.buffer[0].Full(s.firstPrev)))
  }

  /** The headers ready for acceptance, and the state without them. */
  function Release(p: Params, s: Sync): (seq<Header>, Sync)
    decreases |s.buffer|
  {
    if MustRelease(p, s) then
      var (hs, r) := Release(p, ReleaseOne(p, s));
      ([s.buffer[0].Full(s.firstPrev)] + hs, r)
    else ([], s)
  }

  function Process(p: Params, s: Sync, hs: seq<Header>, full: bool): (Result, Sync)
    requires p.Valid()
  {
    if hs == [] || s.phase == Final then (Result([], false, false), s)
    else
      var (result, r) :=
        if s.phase == Presync then
          var o := PresyncMessage(p, s, hs);
          (Result([], o.ok, o.ok && (full || o.s.phase == Redownload)), o.s)
        else
          var o := RedownloadHeaders(p, s, hs);
          if o.ok then
            var (out, r) := Release(p, o.s);
            (Result(out, true, !(r.buffer == [] && r.all) && full), r)
          else (Result([], false, false), o.s);
      (result, if result.success && result.requestMore then r else Finalized(r))
  }

  // ---------------------------------------------------------------------------------------------
  // Facts about a chain of headers from the starting block

  /** The header before the next one of `hs`. */
  function Tip(p: Params, hs: seq<Header>): Header {
    if hs == [] then p.start else hs[|hs| - 1]
  }

  function Height(p: Params, hs: seq<Header>): int {
    p.startHeight + |hs|
  }

  function WorkOf(p: Params, hs: seq<Header>): nat {
    if hs == [] then p.startWork
    else AddWork(WorkOf(p, hs[..|hs| - 1]), p.rules.proof(hs[|hs| - 1].bits))
  }

  /** The bits kept of a chain. */
  function Commitments(p: Params, hs: seq<Header>): seq<bool>
    requires p.Valid()
  {
    if hs == [] then []
    else Commitments(p, hs[..|hs| - 1]) +
         if CommitsAt(p, Height(p, hs)) then [p.rules.bit(p.rules.hash(hs[|hs| - 1]))] else []
  }

  predicate LinkedTo(p: Params, before: seq<Header>, h: Header) {
    h.prev == p.rules.hash(Tip(p, before))
  }

  predicate Linked(p: Params, hs: seq<Header>) {
    forall i | 0 <= i < |hs| :: LinkedTo(p, hs[..i], hs[i])
  }

  predicate PermittedAfter(p: Params, before: seq<Header>, h: Header) {
    p.rules.permitted(Height(p, before) + 1, Tip(p, before).bits, h.bits)
  }

  /** Every step of difficulty along the chain is permitted. */
  predicate Permitted(p: Params, hs: seq<Header>) {
    forall i | 0 <= i < |hs| :: PermittedAfter(p, hs[..i], hs[i])
  }

  /** Some header of the chain reaches the required work. */
  predicate Reached(p: Params, hs: seq<Header>) {
    exists i :: 0 < i <= |hs| && WorkOf(p, hs[..i]) >= p.minimumWork
  }

  function CompressAll(hs: seq<Header>): seq<Compressed> {
    seq(|hs|, i requires 0 <= i < |hs| => Compress(hs[i]))
  }

  lemma Grow(p: Params, hs: seq<Header>, h: Header)
    requires p.Valid()
    ensures var r := hs + [h];
            && Tip(p, r) == h && Height(p, r) == Height(p, hs) + 1
            && WorkOf(p, r) == AddWork(WorkOf(p, hs), p.rules.proof(h.bits))
            && Commitments(p, r) == Commitments(p, hs) + (if CommitsAt(p, Height(p, hs) + 1) then [p.rules.bit(p.rules.hash(h))] else [])
            && (Linked(p, r) <==> Linked(p, hs) && LinkedTo(p, hs, h))
            && (Permitted(p, r) <==> Permitted(p, hs) && PermittedAfter(p, hs, h))
            && (Reached(p, r) <==> Reached(p, hs) || WorkOf(p, r) >= p.minimumWork)
            && CompressAll(r) == CompressAll(hs) + [Compress(h)]
  {
    GrowSums(p, hs, h);
    GrowLinked(p, hs, h);
    GrowPermitted(p, hs, h);
    GrowReached(p, hs, h);
    hide *;
  }

  lemma GrowSums(p: Params, hs: seq<Header>, h: Header)
    requires p.Valid()
    ensures var r := hs + [h];
            && Tip(p, r) == h && Height(p, r) == Height(p, hs) + 1
            && WorkOf(p, r) == AddWork(WorkOf(p, hs), p.rules.proof(h.bits))
            && Commitments(p, r) == Commitments(p, hs) + (if CommitsAt(p, Height(p, hs) + 1) then [p.rules.bit(p.rules.hash(h))] else [])
            && CompressAll(r) == CompressAll(hs) + [Compress(h)]
  {
    hide AddWork, CommitsAt;
    assert (hs + [h])[..|hs|] == hs;
  }

  lemma GrowLinked(p: Params, hs: seq<Header>, h: Header)
    ensures Linked(p, hs + [h]) <==> Linked(p, hs) && LinkedTo(p, hs, h)
  {
    hide LinkedTo;
    GrowPrefixes(hs, h);
  }

  lemma GrowPermitted(p: Params, hs: seq<Header>, h: Header)
    ensures Permitted(p, hs + [h]) <==> Permitted(p, hs) && PermittedAfter(p, hs, h)
  {
    hide PermittedAfter;
    GrowPrefixes(hs, h);
  }

  lemma GrowPrefixes(hs: seq<Header>, h: Header)
    ensures forall i | 0 <= i < |hs| :: (hs + [h])[..i] == hs[..i] && (hs + [h])[i] == hs[i]
    ensures (hs + [h])[..|hs|] == hs && (hs + [h])[|hs|] == h
  {
  }

  lemma GrowReached(p: Params, hs: seq<Header>, h: Header)
    ensures Reached(p, hs + [h]) <==> Reached(p, hs) || WorkOf(p, hs + [h]) >= p.minimumWork
  {
    var r := hs + [h];
    assert r[..|r|] == r;
    assert forall i | 0 <= i <= |hs| :: r[..i] == hs[..i];
    hide WorkOf;
    if Reached(p, hs) {
      var i :| 0 < i <= |hs| && WorkOf(p, hs[..i]) >= p.minimumWork;
      assert r[..i] == hs[..i];
    }
    if Reached(p, r) {
      var i :| 0 < i <= |r| && WorkOf(p, r[..i]) >= p.minimumWork;
      assert i <= |hs| ==> r[..i] == hs[..i];
    }
  }

  // ---------------------------------------------------------------------------------------------
  // What the state knows

  /** Headers `pre` have been seen in the first phase. */
  ghost predicate Presyncing(p: Params, s: Sync, pre: seq<Header>)
    requires p.Valid()
  {
    && s.phase == Presync && !s.all
    && s.commitments == Commitments(p, pre) && |s.commitments| <= p.maxCommitments
    && s.work == WorkOf(p, pre) && s.last == Tip(p, pre) && s.height == Height(p, pre)
    && Linked(p, pre) && Permitted(p, pre)
  }

  /** In the second phase, after `pre` in the first, headers `redone` have been accepted and the first
      `n` of them released.  Until the work is reached, their commitments are the first ones kept. */
  ghost predicate Redownloading(p: Params, s: Sync, pre: seq<Header>, redone: seq<Header>, n: nat)
    requires p.Valid()
  {
    && s.phase == Redownload && n <= |redone|
    && s.lastHeight == Height(p, redone) && s.lastHash == p.rules.hash(Tip(p, redone)) && s.redoWork == WorkOf(p, redone)
    && Linked(p, redone)
    && s.buffer == CompressAll(redone[n..]) && s.firstPrev == p.rules.hash(Tip(p, redone[..n]))
    && s.all == Reached(p, redone)
    && (!s.all ==> Commitments(p, pre) == Commitments(p, redone) + s.commitments)
    && |s.commitments| <= p.maxCommitments
  }

  lemma PresyncHeaderKeeps(p: Params, s: Sync, pre: seq<Header>, h: Header)
    requires p.Valid() && Presyncing(p, s, pre) && LinkedTo(p, pre, h)
    ensures var r := PresyncHeader(p, s, h);
            && (r.ok ==> Presyncing(p, r.s, pre + [h]))
            && (r.ok <==> PermittedAfter(p, pre, h) && |Commitments(p, pre + [h])| <= p.maxCommitments)
  {
    hide WorkOf, Commitments, Linked, Permitted, CommitsAt, AddWork;
    Grow(p, pre, h);
  }

  /** Each header of a message follows the one before it. */
  predicate Continuous(p: Params, hs: seq<Header>) {
    forall i | 0 < i < |hs| :: hs[i].prev == p.rules.hash(hs[i - 1])
  }

  lemma {:induction false} PresyncHeadersKeep(p: Params, s: Sync, pre: seq<Header>, hs: seq<Header>)
    requires p.Valid() && Presyncing(p, s, pre) && Continuous(p, hs) && (hs != [] ==> LinkedTo(p, pre, hs[0]))
    ensures var r := PresyncHeaders(p, s, hs);
            r.ok ==> Presyncing(p, r.s, pre + hs)
    decreases |hs|
  {
    hide Presyncing, PresyncHeader;
    if hs == [] {
      assert pre + hs == pre;
    } else {
      PresyncHeaderKeeps(p, s, pre, hs[0]);
      var r := PresyncHeader(p, s, hs[0]);
      if r.ok {
        assert pre + hs == pre + [hs[0]] + hs[1..];
        assert |hs| > 1 ==> hs[1].prev == p.rules.hash(hs[0]);
        PresyncHeadersKeep(p, r.s, pre + [hs[0]], hs[1..]);
      }
    }
  }

  lemma StartKeeps(p: Params, s: Sync, pre: seq<Header>)
    requires p.Valid() && Presyncing(p, s, pre)
    ensures Redownloading(p, StartRedownload(p, s), pre, [], 0)
  {
    assert CompressAll([]) == [];
    hide WorkOf, Permitted;
    assert !Reached(p, []);
  }

  /** Whether the commitment due at `h`, if any, is the next one kept. */
  predicate CommitmentOk(p: Params, pre: seq<Header>, redone: seq<Header>, h: Header)
    requires p.Valid()
  {
    Commitments(p, redone + [h]) <= Commitments(p, pre)
  }

  /** A header is accepted the second time exactly if it continues the chain, its difficulty fits what
      the buffer knows, and, unless the work is reached, its commitment is the next one kept. */
  lemma RedownloadAccepts(p: Params, s: Sync, pre: seq<Header>, redone: seq<Header>, n: nat, h: Header)
    requires p.Valid() && Redownloading(p, s, pre, redone, n)
    ensures RedownloadHeader(p, s, h).ok <==>
            && LinkedTo(p, redone, h)
            && p.rules.permitted(Height(p, redone) + 1, PreviousBits(p, s), h.bits)
            && (Reached(p, redone + [h]) || CommitmentOk(p, pre, redone, h))
  {
    hide WorkOf, Commitments, Linked, Permitted, CommitsAt, AddWork, Reached, CompressAll, Compress, CommitmentOk, PreviousBits;
    Grow(p, redone, h);
    CommitmentNext(p, s, pre, redone, h);
  }

  lemma RedownloadHeaderKeeps(p: Params, s: Sync, pre: seq<Header>, redone: seq<Header>, n: nat, h: Header)
    requires p.Valid() && Redownloading(p, s, pre, redone, n) && RedownloadHeader(p, s, h).ok
    ensures Redownloading(p, RedownloadHeader(p, s, h).s, pre, redone + [h], n)
  {
    hide WorkOf, Commitments, Linked, Permitted, CommitsAt, AddWork, Reached, CompressAll, Compress, CommitmentOk, PreviousBits, Tip;
    Grow(p, redone, h);
    CommitmentNext(p, s, pre, redone, h);
    GrowBuffer(p, redone, n, h);
  }

  lemma GrowBuffer(p: Params, redone: seq<Header>, n: nat, h: Header)
    requires n <= |redone|
    ensures CompressAll((redone + [h])[n..]) == CompressAll(redone[n..]) + [Compress(h)]
    ensures (redone + [h])[..n] == redone[..n]
  {
  }

  lemma CommitmentNext(p: Params, s: Sync, pre: seq<Header>, redone: seq<Header>, h: Header)
    requires p.Valid()
    ensures !s.all && Commitments(p, pre) == Commitments(p, redone) + s.commitments ==>
              && (CommitmentOk(p, pre, redone, h) <==>
                  !CommitsAt(p, Height(p, redone) + 1) || (s.commitments != [] && s.commitments[0] == p.rules.bit(p.rules.hash(h))))
              && (CommitmentOk(p, pre, redone, h) && CommitsAt(p, Height(p, redone) + 1) ==>
                  Commitments(p, pre) == Commitments(p, redone + [h]) + s.commitments[1..])
  {
    GrowSums(p, redone, h);
    hide Commitments, CommitsAt, WorkOf;
    var c, b := Commitments(p, redone), p.rules.bit(p.rules.hash(h));
    if s.commitments != [] {
      assert c + s.commitments == c + [s.commitments[0]] + s.commitments[1..];
      assert (c + s.commitments)[|c|] == s.commitments[0] && (c + [b])[|c|] == b;
    }
  }

  lemma {:induction false} RedownloadHeadersKeep(p: Params, s: Sync, pre: seq<Header>, redone: seq<Header>, n: nat, hs: seq<Header>)
    requires p.Valid() && Redownloading(p, s, pre, redone, n)
    ensures var r := RedownloadHeaders(p, s, hs);
            r.ok ==> Redownloading(p, r.s, pre, redone + hs, n)
    decreases |hs|
  {
    hide Redownloading, RedownloadHeader;
    if hs == [] {
      assert redone + hs == redone;
    } else if RedownloadHeader(p, s, hs[0]).ok {
      RedownloadHeaderKeeps(p, s, pre, redone, n, hs[0]);
      assert redone + hs == redone + [hs[0]] + hs[1..];
      RedownloadHeadersKeep(p, RedownloadHeader(p, s, hs[0]).s, pre, redone + [hs[0]], n, hs[1..]);
    }
  }

  /** The header released is the one received, previous hash and all. */
  lemma ReleaseOneKeeps(p: Params, s: Sync, pre: seq<Header>, redone: seq<Header>, n: nat)
    requires p.Valid() && Redownloading(p, s, pre, redone, n) && s.buffer != []
    ensures n < |redone| && s.buffer[0].Full(s.firstPrev) == redone[n]
    ensures Redownloading(p, ReleaseOne(p, s), pre, redone, n + 1)
  {
    hide WorkOf, Commitments, Reached, CompressAll, Linked, LinkedTo;
    BufferFront(redone, n, s.buffer);
    LinkedAt(p, redone, n);
  }

  lemma BufferFront(redone: seq<Header>, n: nat, buffer: seq<Compressed>)
    requires n <= |redone| && buffer == CompressAll(redone[n..]) && buffer != []
    ensures n < |redone| && buffer[0] == Compress(redone[n]) && buffer[1..] == CompressAll(redone[n + 1..])
  {
  }

  lemma LinkedAt(p: Params, redone: seq<Header>, n: nat)
    requires Linked(p, redone) && n < |redone|
    ensures redone[n].prev == p.rules.hash(Tip(p, redone[..n])) && Tip(p, redone[..n + 1]) == redone[n]
  {
    assert LinkedTo(p, redone[..n], redone[n]);
  }

  /** Released are the oldest headers of the buffer: all of them once the work is reached, otherwise
      just enough to bring the buffer down to its size. */
  lemma {:induction false} ReleaseKeeps(p: Params, s: Sync, pre: seq<Header>, redone: seq<Header>, n: nat)
    requires p.Valid() && Redownloading(p, s, pre, redone, n)
    ensures var (out, r) := Release(p, s);
            && Redownloading(p, r, pre, redone, n + |out|) && out == redone[n..n + |out|]
            && r.all == s.all && r.phase == s.phase && !MustRelease(p, r)
            && (out != [] && !s.all ==> |r.buffer| == p.bufferSize)
    decreases |s.buffer|
  {
    hide Redownloading, Linked, Reached, Tip;
    if MustRelease(p, s) {
      ReleaseOneKeeps(p, s, pre, redone, n);
      ReleaseKeeps(p, ReleaseOne(p, s), pre, redone, n + 1);
      var (out, r) := Release(p, ReleaseOne(p, s));
      RedownloadingLength(p, r, pre, redone, n + 1 + |out|);
      assert redone[n..n + 1 + |out|] == [redone[n]] + redone[n + 1..n + 1 + |out|];
    } else {
      RedownloadingLength(p, s, pre, redone, n);
    }
  }

  lemma RedownloadingLength(p: Params, s: Sync, pre: seq<Header>, redone: seq<Header>, n: nat)
    requires p.Valid() && Redownloading(p, s, pre, redone, n)
    ensures n <= |redone| && |s.buffer| == |redone| - n && s.phase == Redownload
    ensures s.all == Reached(p, redone) && |s.commitments| <= p.maxCommitments && Linked(p, redone)
  {
  }

  // ---------------------------------------------------------------------------------------------
  // Whole runs

  /** Everything that happened: headers taken in each phase, and headers released. */
  datatype History = History(presynced: seq<Header>, redone: seq<Header>, released: seq<Header>)

  datatype Message = Message(headers: seq<Header>, full: bool)

  ghost predicate Inv(p: Params, s: Sync, h: History)
    requires p.Valid()
  {
    match s.phase
    case Presync => Presyncing(p, s, h.presynced) && h.redone == [] && h.released == []
    case Redownload =>
      && Redownloading(p, s, h.presynced, h.redone, |h.released|)
      && h.released == h.redone[..|h.released|] && !MustRelease(p, s)
      && h.presynced != [] && Linked(p, h.presynced) && Permitted(p, h.presynced)
      && WorkOf(p, h.presynced) >= p.minimumWork
    case Final => h.released <= h.redone && Linked(p, h.redone) && s.commitments == []
  }

  /** The history after a message got its result. */
  function Recorded(s: Sync, h: History, hs: seq<Header>, result: Result): History {
    if !result.success then h
    else if s.phase == Presync then h.(presynced := h.presynced + hs)
    else if s.phase == Redownload then h.(redone := h.redone + hs, released := h.released + result.headers)
    else h
  }

  lemma PresyncMessageKeeps(p: Params, s: Sync, h: History, hs: seq<Header>)
    requires p.Valid() && Inv(p, s, h) && s.phase == Presync && hs != [] && Continuous(p, hs)
    ensures var o := PresyncMessage(p, s, hs);
            o.ok ==> o.s.phase != Final && Inv(p, o.s, h.(presynced := h.presynced + hs))
  {
    hide Presyncing, Redownloading, PresyncHeaders, WorkOf, Linked, Permitted, Reached;
    PresyncingFacts(p, s, h.presynced);
    if hs[0].prev == p.rules.hash(s.last) {
      PresyncHeadersKeep(p, s, h.presynced, hs);
      var r := PresyncHeaders(p, s, hs);
      if r.ok {
        PresyncingFacts(p, r.s, h.presynced + hs);
        StartKeeps(p, r.s, h.presynced + hs);
      }
    }
  }

  lemma PresyncingFacts(p: Params, s: Sync, pre: seq<Header>)
    requires p.Valid() && Presyncing(p, s, pre)
    ensures s.phase == Presync && !s.all && s.last == Tip(p, pre) && s.work == WorkOf(p, pre)
    ensures Linked(p, pre) && Permitted(p, pre) && |s.commitments| <= p.maxCommitments
  {
  }

  lemma RedownloadMessageKeeps(p: Params, s: Sync, h: History, hs: seq<Header>)
    requires p.Valid() && Inv(p, s, h) && s.phase == Redownload
    ensures var o := RedownloadHeaders(p, s, hs);
            var (out, r) := Release(p, o.s);
            var h' := h.(redone := h.redone + hs, released := h.released + out);
            o.ok ==>
              && r.phase == Redownload && Inv(p, r, h') && r.all == Reached(p, h'.redone)
              && (r.all ==> h'.released == h'.redone && r.buffer == [])
              && (!r.all && out != [] ==> |h'.redone| - |h'.released| == p.bufferSize)
  {
    hide Redownloading, RedownloadHeaders, Release, WorkOf, Linked, Permitted, Reached;
    var n := |h.released|;
    RedownloadHeadersKeep(p, s, h.presynced, h.redone, n, hs);
    var o := RedownloadHeaders(p, s, hs);
    if o.ok {
      var redone := h.redone + hs;
      RedownloadingLength(p, s, h.presynced, h.redone, n);
      RedownloadingLength(p, o.s, h.presynced, redone, n);
      ReleaseKeeps(p, o.s, h.presynced, redone, n);
      var (out, r) := Release(p, o.s);
      RedownloadingLength(p, r, h.presynced, redone, n + |out|);
      assert redone[..n] == h.released;
      assert redone[..n + |out|] == redone[..n] + redone[n..n + |out|];
    }
  }

  /** At any time the released headers are the first of those redownloaded, which form a chain. */
  lemma InvFacts(p: Params, s: Sync, h: History)
    requires p.Valid() && Inv(p, s, h)
    ensures h.released <= h.redone && Linked(p, h.redone) && |s.commitments| <= p.maxCommitments
  {
    hide WorkOf, Commitments, Permitted, Reached, CompressAll;
  }

  /** One message: what is known stays known.  Headers released before the work is reached have a full
      buffer after them; once it is reached all are released and the sync is over. */
  lemma ProcessKeeps(p: Params, s: Sync, h: History, hs: seq<Header>, full: bool)
    requires p.Valid() && Inv(p, s, h) && (s.phase == Presync ==> Continuous(p, hs))
    ensures var (result, r) := Process(p, s, hs, full);
            var h' := Recorded(s, h, hs, result);
            && Inv(p, r, h') && |r.commitments| <= p.maxCommitments
            && (result.headers != [] && !Reached(p, h'.redone) ==> |h'.redone| - |h'.released| == p.bufferSize)
            && (s.phase == Redownload && result.success && Reached(p, h'.redone) ==>
                  h'.released == h'.redone && r.phase == Final)
            && (s.phase == Redownload && result.success && full && !Reached(p, h'.redone) ==> r.phase == Redownload)
  {
    hide Presyncing, Redownloading, PresyncMessage, RedownloadHeaders, Release, WorkOf, Linked, Permitted, Reached;
    InvFacts(p, s, h);
    if hs != [] && s.phase == Presync {
      PresyncMessageKeeps(p, s, h, hs);
      var o := PresyncMessage(p, s, hs);
      if o.ok {
        InvFacts(p, o.s, h.(presynced := h.presynced + hs));
      }
    } else if hs != [] && s.phase == Redownload {
      RedownloadMessageKeeps(p, s, h, hs);
      var o := RedownloadHeaders(p, s, hs);
      var (out, r) := Release(p, o.s);
      if o.ok {
        InvFacts(p, r, h.(redone := h.redone + hs, released := h.released + out));
      }
    }
  }

  function Run(p: Params, s: Sync, h: History, msgs: seq<Message>): (Sync, History)
    requires p.Valid()
    decreases |msgs|
  {
    if msgs == [] then (s, h)
    else
      var (result, r) := Process(p, s, msgs[0].headers, msgs[0].full);
      Run(p, r, Recorded(s, h, msgs[0].headers, result), msgs[1..])
  }

  /** Until the work is reached, every header released has at least a buffer of accepted ones after it. */
  predicate LookAhead(p: Params, h: History) {
    h.released == [] || Reached(p, h.redone) || |h.redone| - |h.released| >= p.bufferSize
  }

  lemma ReachedStays(p: Params, hs: seq<Header>, more: seq<Header>)
    requires Reached(p, hs)
    ensures Reached(p, hs + more)
  {
    hide WorkOf;
    var i :| 0 < i <= |hs| && WorkOf(p, hs[..i]) >= p.minimumWork;
    assert (hs + more)[..i] == hs[..i];
  }

  lemma ProcessLooksAhead(p: Params, s: Sync, h: History, hs: seq<Header>, full: bool)
    requires p.Valid() && Inv(p, s, h) && (s.phase == Presync ==> Continuous(p, hs)) && LookAhead(p, h)
    ensures var (result, r) := Process(p, s, hs, full); LookAhead(p, Recorded(s, h, hs, result))
  {
    hide Inv, Reached, Process;
    ProcessKeeps(p, s, h, hs, full);
    var (result, r) := Process(p, s, hs, full);
    if Reached(p, h.redone) {
      ReachedStays(p, h.redone, hs);
    }
  }

  /** Over a whole sync: what is released is the beginning of what was redownloaded, header for header,
      a chain from the starting block, and until the work is reached a full buffer comes after it; the
      commitments kept never exceed their bound. */
  lemma {:induction false} RunKeeps(p: Params, s: Sync, h: History, msgs: seq<Message>)
    requires p.Valid() && Inv(p, s, h) && LookAhead(p, h) && forall i | 0 <= i < |msgs| :: Continuous(p, msgs[i].headers)
    ensures var (r, h') := Run(p, s, h, msgs);
            && Inv(p, r, h') && h'.released <= h'.redone && Linked(p, h'.redone) && LookAhead(p, h')
            && |r.commitments| <= p.maxCommitments
    decreases |msgs|
  {
    hide Inv, Process, Recorded, Linked, Continuous, LookAhead;
    InvFacts(p, s, h);
    if msgs != [] {
      var (result, r) := Process(p, s, msgs[0].headers, msgs[0].full);
      ProcessKeeps(p, s, h, msgs[0].headers, msgs[0].full);
      ProcessLooksAhead(p, s, h, msgs[0].headers, msgs[0].full);
      RunKeeps(p, r, Recorded(s, h, msgs[0].headers, result), msgs[1..]);
    }
  }

  lemma SyncReleasesChain(p: Params, msgs: seq<Message>)
    requires p.Valid() && forall i | 0 <= i < |msgs| :: Continuous(p, msgs[i].headers)
    ensures var (r, h) := Run(p, Initial(p), History([], [], []), msgs);
            && h.released <= h.redone && Linked(p, h.redone) && LookAhead(p, h)
            && |r.commitments| <= p.maxCommitments
  {
    hide Inv, Run, Linked, Continuous;
    InitialInv(p);
    RunKeeps(p, Initial(p), History([], [], []), msgs);
  }

  lemma InitialInv(p: Params)
    requires p.Valid()
    ensures Inv(p, Initial(p), History([], [], []))
  {
  }

  // ---------------------------------------------------------------------------------------------
  // A peer that serves the same headers again

  /** Prefixes of a chain have prefixes of its commitments. */
  lemma {:induction false} CommitmentsOfPrefix(p: Params, hs: seq<Header>, k: nat)
    requires p.Valid() && k <= |hs|
    ensures Commitments(p, hs[..k]) <= Commitments(p, hs)
    decreases |hs| - k
  {
    if k == |hs| {
      assert hs[..k] == hs;
    } else {
      CommitmentsOfPrefix(p, hs, k + 1);
      assert hs[..k + 1] == hs[..k] + [hs[k]];
      GrowSums(p, hs[..k], hs[k]);
    }
  }

  /** The next header of the first phase is accepted again, except where the buffer has been emptied:
      then its difficulty is held against the starting block. */
  lemma ReplayHeader(p: Params, s: Sync, pre: seq<Header>, k: nat, n: nat)
    requires p.Valid() && k < |pre| && Linked(p, pre) && Permitted(p, pre)
    requires Redownloading(p, s, pre, pre[..k], n)
    ensures RedownloadHeader(p, s, pre[k]).ok <==>
            (n < k || k == 0 || p.rules.permitted(p.startHeight + k + 1, p.start.bits, pre[k].bits))
    ensures RedownloadHeader(p, s, pre[k]).ok ==> Redownloading(p, RedownloadHeader(p, s, pre[k]).s, pre, pre[..k + 1], n)
  {
    hide WorkOf, Commitments, Reached, Linked, Permitted, RedownloadHeader, Redownloading, PreviousBits;
    var redone := pre[..k];
    assert redone + [pre[k]] == pre[..k + 1];
    ChainAt(p, pre, k);
    CommitmentsOfPrefix(p, pre, k + 1);
    RedownloadAccepts(p, s, pre, redone, n, pre[k]);
    BufferedBits(p, s, pre, redone, n);
    if RedownloadHeader(p, s, pre[k]).ok {
      RedownloadHeaderKeeps(p, s, pre, redone, n, pre[k]);
    }
  }

  lemma ChainAt(p: Params, hs: seq<Header>, k: nat)
    requires k < |hs| && Linked(p, hs) && Permitted(p, hs)
    ensures LinkedTo(p, hs[..k], hs[k]) && PermittedAfter(p, hs[..k], hs[k])
  {
  }

  lemma BufferedBits(p: Params, s: Sync, pre: seq<Header>, redone: seq<Header>, n: nat)
    requires p.Valid() && Redownloading(p, s, pre, redone, n)
    ensures n <= |redone|
    ensures PreviousBits(p, s) == if n < |redone| then Tip(p, redone).bits else p.start.bits
  {
    hide WorkOf, Commitments, Reached, Linked;
  }

  lemma {:induction false} ReplayHeaders(p: Params, s: Sync, pre: seq<Header>, k: nat, n: nat, j: nat)
    requires p.Valid() && k <= j <= |pre| && Linked(p, pre) && Permitted(p, pre)
    requires Redownloading(p, s, pre, pre[..k], n) && (n < k || k == 0)
    ensures RedownloadHeaders(p, s, pre[k..j]).ok
    decreases j - k
  {
    hide Redownloading, RedownloadHeader, Linked, Permitted;
    if k < j {
      ReplayHeader(p, s, pre, k, n);
      RedownloadingLength(p, s, pre, pre[..k], n);
      var r := RedownloadHeader(p, s, pre[k]).s;
      assert pre[k..j][0] == pre[k] && pre[k..j][1..] == pre[k + 1..j];
      ReplayHeaders(p, r, pre, k + 1, n, j);
    }
  }

  /** Between messages the work is not yet reached and, with room in it, the buffer keeps the last
      header accepted. */
  ghost predicate Open(p: Params, s: Sync, h: History)
    requires p.Valid()
  {
    && Inv(p, s, h)
    && (s.phase == Redownload ==>
          !Reached(p, h.redone) && (p.bufferSize >= 1 ==> h.redone == [] || |h.released| < |h.redone|))
  }

  lemma ProcessOpen(p: Params, s: Sync, h: History, hs: seq<Header>, full: bool)
    requires p.Valid() && Open(p, s, h) && (s.phase == Presync ==> Continuous(p, hs))
    ensures var (result, r) := Process(p, s, hs, full);
            Open(p, r, Recorded(s, h, hs, result))
  {
    hide Presyncing, Redownloading, PresyncMessage, RedownloadHeaders, Release, WorkOf, Linked, Permitted, Reached;
    ProcessKeeps(p, s, h, hs, full);
    NotReachedAtStart(p);
    InvFacts(p, s, h);
  }

  lemma NotReachedAtStart(p: Params)
    ensures !Reached(p, [])
  {
  }

  function Concat(msgs: seq<Message>): seq<Header> {
    if msgs == [] then [] else msgs[0].headers + Concat(msgs[1..])
  }

  /** No message is rejected before the sync is over. */
  predicate NeverRejected(p: Params, s: Sync, msgs: seq<Message>)
    requires p.Valid()
    decreases |msgs|
  {
    msgs == [] || s.phase == Final ||
    (var (result, r) := Process(p, s, msgs[0].headers, msgs[0].full);
     result.success && NeverRejected(p, r, msgs[1..]))
  }

  lemma ReplayMessage(p: Params, s: Sync, h: History, j: nat, full: bool)
    requires p.Valid() && p.bufferSize >= 1 && Open(p, s, h) && s.phase == Redownload
    requires |h.redone| < j <= |h.presynced| && h.redone == h.presynced[..|h.redone|]
    ensures Process(p, s, h.presynced[|h.redone|..j], full).0.success
  {
    hide Redownloading, RedownloadHeaders, Release, WorkOf, Linked, Permitted, Reached;
    ReplayHeaders(p, s, h.presynced, |h.redone|, |h.released|, j);
  }

  lemma WholeReached(p: Params, s: Sync, h: History)
    requires p.Valid() && Inv(p, s, h) && s.phase == Redownload
    ensures Reached(p, h.presynced)
  {
    assert h.presynced[..|h.presynced|] == h.presynced;
  }

  /** With a buffer of at least one, a peer that serves exactly the headers of the first phase again,
      in messages cut anywhere, is never rejected, and everything it served is released once the
      work is reached, at the latest with the last message. */
  lemma {:induction false} ReplayAccepted(p: Params, s: Sync, h: History, msgs: seq<Message>)
    requires p.Valid() && p.bufferSize >= 1 && Open(p, s, h) && s.phase == Redownload
    requires h.redone <= h.presynced && Concat(msgs) == h.presynced[|h.redone|..]
    requires forall i | 0 <= i < |msgs| :: msgs[i].headers != [] && (i < |msgs| - 1 ==> msgs[i].full)
    ensures NeverRejected(p, s, msgs)
    ensures var (r, h') := Run(p, s, h, msgs);
            r.phase == Final && h'.released == h'.redone <= h.presynced && Reached(p, h'.redone)
    decreases |msgs|
  {
    hide Inv, Process, Reached;
    WholeReached(p, s, h);
    var k := |h.redone|;
    assert h.redone == h.presynced[..k];
    assert msgs == [] ==> h.redone == h.presynced;
    if msgs != [] {
      var hs, full := msgs[0].headers, msgs[0].full;
      var j := k + |hs|;
      assert hs == Concat(msgs)[..|hs|] && Concat(msgs[1..]) == Concat(msgs)[|hs|..];
      assert hs == h.presynced[k..j];
      ReplayMessage(p, s, h, j, full);
      ProcessKeeps(p, s, h, hs, full);
      ProcessOpen(p, s, h, hs, full);
      var (result, r) := Process(p, s, hs, full);
      var h' := Recorded(s, h, hs, result);
      assert h'.redone == h.presynced[..j] && h.presynced[k..][|hs|..] == h.presynced[j..];
      assert NeverRejected(p, s, msgs) == NeverRejected(p, r, msgs[1..]);
      if Reached(p, h'.redone) {
        FinalStays(p, r, h', msgs[1..]);
      } else {
        assert msgs[1..] == [] ==> h'.redone == h.presynced;
        ReplayAccepted(p, r, h', msgs[1..]);
      }
    }
  }

  lemma {:induction false} FinalStays(p: Params, s: Sync, h: History, msgs: seq<Message>)
    requires p.Valid() && s.phase == Final
    ensures Run(p, s, h, msgs) == (s, h)
    decreases |msgs|
  {
    if msgs != [] {
      FinalStays(p, s, h, msgs[1..]);
    }
  }

  lemma {:induction false} RunOpen(p: Params, s: Sync, h: History, msgs: seq<Message>)
    requires p.Valid() && Open(p, s, h) && forall i | 0 <= i < |msgs| :: Continuous(p, msgs[i].headers)
    ensures var (r, h') := Run(p, s, h, msgs); Open(p, r, h')
    decreases |msgs|
  {
    hide Open, Process, Recorded, Continuous;
    if msgs != [] {
      var (result, r) := Process(p, s, msgs[0].headers, msgs[0].full);
      OpenIsInv(p, s, h);
      ProcessOpen(p, s, h, msgs[0].headers, msgs[0].full);
      RunOpen(p, r, Recorded(s, h, msgs[0].headers, result), msgs[1..]);
    }
  }

  lemma OpenIsInv(p: Params, s: Sync, h: History)
    requires p.Valid() && Open(p, s, h)
    ensures Inv(p, s, h)
  {
  }

  /** From the start of a sync: once some run of messages has led into the second phase, the headers
      of the first phase served again are never rejected and lead to the end. */
  lemma SyncAcceptsReplay(p: Params, pre: seq<Message>, msgs: seq<Message>)
    requires p.Valid() && p.bufferSize >= 1 && forall i | 0 <= i < |pre| :: Continuous(p, pre[i].headers)
    requires var (s, h) := Run(p, Initial(p), History([], [], []), pre);
             s.phase == Redownload && h.redone <= h.presynced && Concat(msgs) == h.presynced[|h.redone|..]
    requires forall i | 0 <= i < |msgs| :: msgs[i].headers != [] && (i < |msgs| - 1 ==> msgs[i].full)
    ensures var (s, h) := Run(p, Initial(p), History([], [], []), pre);
            && NeverRejected(p, s, msgs)
            && var (r, h') := Run(p, s, h, msgs);
               r.phase == Final && h'.released == h'.redone <= h.presynced && Reached(p, h'.redone)
  {
    hide Inv, Run, Continuous, Reached, NeverRejected, Concat;
    InitialInv(p);
    RunOpen(p, Initial(p), History([], [], []), pre);
    var (s, h) := Run(p, Initial(p), History([], [], []), pre);
    ReplayAccepted(p, s, h, msgs);
  }

  // ---------------------------------------------------------------------------------------------
  // The same without a buffer

  /** At the beginning of a message the difficulty is held against the starting block. */
  predicate BoundaryOk(p: Params, pre: seq<Header>, k: nat)
    requires k < |pre|
  {
    k == 0 || p.rules.permitted(p.startHeight + k + 1, p.start.bits, pre[k].bits)
  }

  /** So it is at the beginning of every message that comes before the work is reached. */
  predicate BoundariesOk(p: Params, pre: seq<Header>, k: nat, msgs: seq<Message>)
    requires k <= |pre|
    decreases |msgs|
  {
    msgs == [] || Reached(p, pre[..k]) || k + |msgs[0].headers| > |pre| || k == |pre| ||
    (BoundaryOk(p, pre, k) && BoundariesOk(p, pre, k + |msgs[0].headers|, msgs[1..]))
  }

  lemma AllReleased(p: Params, s: Sync, h: History)
    requires p.Valid() && p.bufferSize == 0 && Open(p, s, h) && s.phase == Redownload
    ensures |h.released| == |h.redone| && Redownloading(p, s, h.presynced, h.redone, |h.redone|)
    ensures Linked(p, h.presynced) && Permitted(p, h.presynced)
  {
    RedownloadingLength(p, s, h.presynced, h.redone, |h.released|);
  }

  lemma ReplayMessageUnbuffered(p: Params, s: Sync, h: History, j: nat, full: bool)
    requires p.Valid() && p.bufferSize == 0 && Open(p, s, h) && s.phase == Redownload
    requires |h.redone| < j <= |h.presynced| && h.redone == h.presynced[..|h.redone|]
    ensures Process(p, s, h.presynced[|h.redone|..j], full).0.success <==> BoundaryOk(p, h.presynced, |h.redone|)
  {
    hide Redownloading, RedownloadHeader, Release, WorkOf, Linked, Permitted, Reached, Open;
    var pre, k := h.presynced, |h.redone|;
    AllReleased(p, s, h);
    ReplayHeader(p, s, pre, k, k);
    assert pre[k..j][0] == pre[k] && pre[k..j][1..] == pre[k + 1..j];
    if BoundaryOk(p, pre, k) {
      ReplayHeaders(p, RedownloadHeader(p, s, pre[k]).s, pre, k + 1, k, j);
    }
  }

  /** Without a buffer, a peer that serves the headers of the first phase again is never rejected exactly if the
      difficulty is permitted after the starting block at the beginning of every message. */
  lemma {:induction false} ReplayUnbuffered(p: Params, s: Sync, h: History, msgs: seq<Message>)
    requires p.Valid() && p.bufferSize == 0 && Open(p, s, h) && s.phase == Redownload
    requires h.redone <= h.presynced && Concat(msgs) == h.presynced[|h.redone|..]
    requires forall i | 0 <= i < |msgs| :: msgs[i].headers != [] && (i < |msgs| - 1 ==> msgs[i].full)
    ensures NeverRejected(p, s, msgs) <==> BoundariesOk(p, h.presynced, |h.redone|, msgs)
    decreases |msgs|
  {
    hide Process, Reached, BoundaryOk, Inv;
    var pre, k := h.presynced, |h.redone|;
    assert h.redone == pre[..k];
    if msgs != [] {
      var hs, full := msgs[0].headers, msgs[0].full;
      var j := k + |hs|;
      assert hs == Concat(msgs)[..|hs|] && Concat(msgs[1..]) == Concat(msgs)[|hs|..];
      assert hs == pre[k..j];
      ReplayMessageUnbuffered(p, s, h, j, full);
      ProcessKeeps(p, s, h, hs, full);
      ProcessOpen(p, s, h, hs, full);
      var (result, r) := Process(p, s, hs, full);
      var h' := Recorded(s, h, hs, result);
      if result.success {
        assert h'.redone == pre[..j] && pre[k..][|hs|..] == pre[j..];
        if Reached(p, h'.redone) {
          NeverRejectedWhenFinal(p, r, msgs[1..]);
        } else {
          WholeReached(p, s, h);
          assert msgs[1..] == [] ==> h'.redone == pre;
          ReplayUnbuffered(p, r, h', msgs[1..]);
        }
      }
    }
  }

  lemma NeverRejectedWhenFinal(p: Params, s: Sync, msgs: seq<Message>)
    requires p.Valid() && s.phase == Final
    ensures NeverRejected(p, s, msgs)
  {
  }
}
